/** `keywordsAreRelated`: the word-overlap test used to grow clusters. */
module SeoRelated {
  import opened Text
  import opened SeoRecords

  /** The fixed list of 34 words that never make two keywords related. */
  const StopWords: set<string> := {
    "a", "an", "the", "and", "or", "but", "in", "on", "at", "to", "for", "of", "with",
    "is", "are", "was", "were", "be", "been", "being", "have", "has", "had", "do", "does",
    "did", "will", "would", "could", "should", "may", "might", "must", "can"}

  /** `array_intersect($w1, $w2)`: the entries of `w1`, in order, that also occur in `w2`. */
  function Intersect(w1: seq<string>, w2: seq<string>): (r: seq<string>)
    ensures |r| <= |w1|
  {
    if w1 == [] then []
    else (if w1[0] in w2 then [w1[0]] else []) + Intersect(w1[1..], w2)
  }

  lemma {:induction false} IntersectMembers(w1: seq<string>, w2: seq<string>)
    ensures forall w :: w in Intersect(w1, w2) <==> w in w1 && w in w2
  {
    if w1 != [] {
      IntersectMembers(w1[1..], w2);
      assert w1 == [w1[0]] + w1[1..];
    }
  }

  /** `array_diff($w, $stop)`: the entries of `w`, in order, that are not in `stop`. */
  function Without(w: seq<string>, stop: set<string>): (r: seq<string>)
    ensures |r| <= |w|
  {
    if w == [] then []
    else (if w[0] !in stop then [w[0]] else []) + Without(w[1..], stop)
  }

  lemma {:induction false} WithoutMembers(w: seq<string>, stop: set<string>)
    ensures forall x :: x in Without(w, stop) <==> x in w && x !in stop
  {
    if w != [] {
      WithoutMembers(w[1..], stop);
      assert w == [w[0]] + w[1..];
    }
  }

  /** The words of a keyword as the predicate sees them: lower-cased, split on single spaces. */
  function Words(r: KeywordRecord): seq<string> {
    Explode(Lower(r.keyword))
  }

  /**
   * `keywordsAreRelated($keyword1, $keyword2)`. Only the first record's connection strength
   * is checked; the second is an existing cluster parent.
   */
  predicate KeywordsAreRelated(keyword1: KeywordRecord, keyword2: KeywordRecord)
    ensures KeywordsAreRelated(keyword1, keyword2) ==> keyword1.connectionStrength >= Threshold
  {
    if keyword1.connectionStrength < Threshold then false
    else |Without(Intersect(Words(keyword1), Words(keyword2)), StopWords)| > 0
  }

  /**
   * The predicate holds exactly when the first record meets the threshold and the two share
   * a word that is not a stop word.
   */
  lemma RelatedIffSharedWord(a: KeywordRecord, b: KeywordRecord)
    ensures KeywordsAreRelated(a, b)
        <==> a.connectionStrength >= Threshold
             && exists w :: w in Words(a) && w in Words(b) && w !in StopWords
  {
    var common := Without(Intersect(Words(a), Words(b)), StopWords);
    IntersectMembers(Words(a), Words(b));
    WithoutMembers(Intersect(Words(a), Words(b)), StopWords);
    if |common| > 0 {
      assert common[0] in common;
    }
  }

  /** Between two records that both meet the threshold the test is symmetric. */
  lemma RelatedSymmetric(a: KeywordRecord, b: KeywordRecord)
    requires a.connectionStrength >= Threshold && b.connectionStrength >= Threshold
    ensures KeywordsAreRelated(a, b) == KeywordsAreRelated(b, a)
  {
    RelatedIffSharedWord(a, b);
    RelatedIffSharedWord(b, a);
  }

  /**
   * `explode` keeps empty pieces and "" is no stop word, so two keywords that each hold a
   * doubled, leading or trailing space count as related.
   */
  lemma EmptyWordRelates(a: KeywordRecord, b: KeywordRecord)
    requires a.connectionStrength >= Threshold
    requires "" in Words(a) && "" in Words(b)
    ensures KeywordsAreRelated(a, b)
  {
    RelatedIffSharedWord(a, b);
  }

  /** Three concrete records: their keys, and "xy z" related to "xy" through the word "xy". */
  lemma RelatedScenario(a: KeywordRecord, b: KeywordRecord, c: KeywordRecord)
    requires a == KeywordRecord("xy", 10, 0, 0.9)
    requires b == KeywordRecord("xy z", 5, 0, 0.8)
    requires c == KeywordRecord("q", 1, 0, 0.1)
    ensures Key(a) == "xy" && Key(b) == "xy z" && Key(c) == "q"
    ensures KeywordsAreRelated(b, a)
  {
    LowerOfLowercase("q");
    ScenarioWords(a, b);
    assert "xy" !in StopWords;
    RelatedIffSharedWord(b, a);
  }

  lemma ScenarioWords(a: KeywordRecord, b: KeywordRecord)
    requires a == KeywordRecord("xy", 10, 0, 0.9)
    requires b == KeywordRecord("xy z", 5, 0, 0.8)
    ensures Key(a) == "xy" && Key(b) == "xy z"
    ensures "xy" in Words(a) && "xy" in Words(b)
  {
    LowerOfLowercase("xy");
    LowerOfLowercase("xy z");
    ExplodeAfterPiece("xy", "z");
    assert "xy" + " " + "z" == "xy z";
  }
}
