/**
 * `generateTopicalMap`: the related-keywords response, optionally the suggestions response,
 * merged and then clustered. The provider's responses are the inputs; fetching them is not
 * part of this model.
 */
module SeoService {
  import opened Util
  import opened Text
  import opened SeoRecords
  import opened SeoParse
  import opened SeoMerge
  import opened SeoCluster

  /** The suggestions, when they were asked for; otherwise none. */
  function Secondary(suggestions: Option<Response>): seq<KeywordRecord> {
    match suggestions
    case None => []
    case Some(response) => Keep(AllItems(response), SuggestionItem)
  }

  function TopicalMapOf(related: Response, suggestions: Option<Response>): TopicalMap {
    Clustered(Merged(Keep(AllItems(related), RelatedItem), Secondary(suggestions)))
  }

  method GenerateTopicalMap(related: Response, suggestions: Option<Response>) returns (m: TopicalMap)
    ensures m == TopicalMapOf(related, suggestions)
  {
    var relatedKeywords := ParseRelatedKeywordsResponse(related);
    var secondary: seq<KeywordRecord> := [];
    if suggestions.Some? {
      secondary := ParseKeywordSuggestionsResponse(suggestions.value);
    }
    var allKeywords := MergeAndDeduplicate(relatedKeywords, secondary);
    m := ClusterKeywords(allKeywords);
  }

  /**
   * Every record of the merged list is placed exactly once in the topical map, since the
   * merge leaves no two records with the same lower-cased keyword.
   */
  lemma TopicalMapCoversMerged(related: Response, suggestions: Option<Response>)
    ensures var merged := Merged(Keep(AllItems(related), RelatedItem), Secondary(suggestions));
      multiset(Flatten(TopicalMapOf(related, suggestions).clusters))
        + multiset(TopicalMapOf(related, suggestions).orphans) == multiset(merged)
  {
    var merged := Merged(Keep(AllItems(related), RelatedItem), Secondary(suggestions));
    MergedDistinctKeys(Keep(AllItems(related), RelatedItem), Secondary(suggestions));
    ClusteredCovers(merged);
  }

  /**
   * Every record in the topical map was parsed from one of the two responses, and its
   * keyword is neither empty nor "0".
   */
  lemma TopicalMapFromResponses(related: Response, suggestions: Option<Response>, x: KeywordRecord)
    requires x in Flatten(TopicalMapOf(related, suggestions).clusters) || x in TopicalMapOf(related, suggestions).orphans
    ensures x in Keep(AllItems(related), RelatedItem) + Secondary(suggestions)
    ensures !PhpEmpty(x.keyword)
  {
    var primary := Keep(AllItems(related), RelatedItem);
    var merged := Merged(primary, Secondary(suggestions));
    ClusteredWithin(merged);
    assert x in multiset(merged);
    MergedFromInputs(primary, Secondary(suggestions), x);
    RelatedKeywordsFromItems(related, x);
    if x !in primary {
      SuggestionKeywordsFromItems(suggestions.value, x);
    }
  }
}
