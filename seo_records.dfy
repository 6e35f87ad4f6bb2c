/**
 * The keyword record that flows through the DataForSEO pipeline, and the
 * difficulty classifier of `DataForSeoService`.
 */
module SeoRecords {
  import opened Text

  /**
   * One keyword as the parsers produce it. `connectionStrength` is a real: the code only
   * ever compares it, so no floating-point behaviour is involved.
   */
  datatype KeywordRecord = KeywordRecord(
    keyword: string,
    searchVolume: int,
    difficulty: int,
    connectionStrength: real)

  /** Minimum connection strength for a keyword to join or found a cluster. */
  const Threshold: real := 0.3

  /** The case-insensitive identity of a record: its lower-cased text. */
  function Key(r: KeywordRecord): string {
    Lower(r.keyword)
  }

  /** Sort keys used with `Sorting.SortDesc`. */
  function Strength(r: KeywordRecord): real {
    r.connectionStrength
  }

  function Volume(r: KeywordRecord): real {
    r.searchVolume as real
  }

  /** No two records of `s` share a lower-cased keyword. */
  ghost predicate DistinctKeys(s: seq<KeywordRecord>) {
    forall i, j :: 0 <= i < j < |s| ==> Key(s[i]) != Key(s[j])
  }

  datatype DifficultyLabel = Easy | Doable | Hard

  /** `getDifficultyLabel`: below 30 is easy, below 60 doable, the rest hard. */
  function GetDifficultyLabel(difficulty: int): (r: DifficultyLabel)
    ensures r == Easy <==> difficulty < 30
    ensures r == Doable <==> 30 <= difficulty < 60
    ensures r == Hard <==> 60 <= difficulty
  {
    if difficulty < 30 then Easy
    else if difficulty < 60 then Doable
    else Hard
  }

  /** The label only ever gets harder as the score grows. */
  lemma DifficultyLabelMonotone(d1: int, d2: int)
    requires d1 <= d2
    ensures GetDifficultyLabel(d1) == Hard ==> GetDifficultyLabel(d2) == Hard
    ensures GetDifficultyLabel(d2) == Easy ==> GetDifficultyLabel(d1) == Easy
  {
  }

  lemma DifficultyLabelBoundaries()
    ensures GetDifficultyLabel(29) == Easy
    ensures GetDifficultyLabel(30) == Doable
    ensures GetDifficultyLabel(59) == Doable
    ensures GetDifficultyLabel(60) == Hard
  {
  }
}
