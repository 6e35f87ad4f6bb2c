/**
 * The `Keyword` model: one row of the `keywords` table, with its two derived attributes.
 */
module KeywordModel {
  import opened Util
  import opened SeoRecords

  /**
   * A row: `parent_id` is absent for the seed and for cluster parents; volume and
   * difficulty are absent when the row was created without them (the seed row).
   */
  datatype Row = Row(
    id: nat,
    projectId: nat,
    parentId: Option<nat>,
    keyword: string,
    searchVolume: Option<int>,
    difficulty: Option<int>,
    isSeed: bool)

  /** `isClusterParent`: a top-level row that is not the seed. */
  predicate IsClusterParent(r: Row)
    ensures r.isSeed ==> !IsClusterParent(r)
    ensures r.parentId.Some? ==> !IsClusterParent(r)
    ensures r.parentId.None? && !r.isSeed ==> IsClusterParent(r)
  {
    r.parentId.None? && !r.isSeed
  }

  /** `getDifficultyLabelAttribute`: no label without a difficulty, else the usual bands. */
  function DifficultyLabelAttribute(difficulty: Option<int>): (r: Option<DifficultyLabel>)
    ensures r.None? <==> difficulty.None?
    ensures r == Some(Easy) <==> difficulty.Some? && difficulty.value < 30
    ensures r == Some(Doable) <==> difficulty.Some? && 30 <= difficulty.value < 60
    ensures r == Some(Hard) <==> difficulty.Some? && 60 <= difficulty.value
  {
    match difficulty
    case None => None
    case Some(d) =>
      if d < 30 then Some(Easy)
      else if d < 60 then Some(Doable)
      else Some(Hard)
  }

  /** For every present difficulty the model's label is the service's label. */
  lemma DifficultyLabelsAgree(d: int)
    ensures DifficultyLabelAttribute(Some(d)) == Some(GetDifficultyLabel(d))
  {
  }
}
