/**
 * `parseRelatedKeywordsResponse` and `parseKeywordSuggestionsResponse`: flattening the
 * provider's `tasks -> result -> items` response into keyword records.
 *
 * A JSON field that is absent and one that is `null` are treated alike by PHP's `??`,
 * so both are `None` here.
 */
module SeoParse {
  import opened Util
  import opened Text
  import opened SeoRecords

  datatype KeywordInfo = KeywordInfo(searchVolume: Option<int>, keywordDifficulty: Option<int>)

  datatype KeywordData = KeywordData(keyword: Option<string>, keywordInfo: Option<KeywordInfo>)

  /**
   * One entry of `items`. The related-keywords endpoint nests the keyword under
   * `keyword_data`; a suggestions item may instead carry `keyword` and `keyword_info` itself.
   */
  datatype Item = Item(
    keywordData: Option<KeywordData>,
    keyword: Option<string>,
    keywordInfo: Option<KeywordInfo>,
    connectionStrength: Option<real>)

  datatype TaskResult = TaskResult(items: Option<seq<Item>>)

  datatype Task = Task(result: Option<seq<TaskResult>>)

  datatype Response = Response(tasks: Option<seq<Task>>)

  const NoInfo := KeywordInfo(None, None)

  /** Every item of every result of every task, in document order. */
  function ResultItems(results: seq<TaskResult>): seq<Item> {
    if results == [] then []
    else ResultItems(results[..|results| - 1]) + results[|results| - 1].items.GetOr([])
  }

  function TaskItems(tasks: seq<Task>): seq<Item> {
    if tasks == [] then []
    else TaskItems(tasks[..|tasks| - 1]) + ResultItems(tasks[|tasks| - 1].result.GetOr([]))
  }

  function AllItems(response: Response): seq<Item> {
    TaskItems(response.tasks.GetOr([]))
  }

  /** Applies an item parser to every item and keeps the records it produced, in order. */
  function Keep(items: seq<Item>, parse: Item -> Option<KeywordRecord>): (r: seq<KeywordRecord>)
    ensures |r| <= |items|
  {
    if items == [] then []
    else
      Keep(items[..|items| - 1], parse)
        + match parse(items[|items| - 1]) case Some(k) => [k] case None => []
  }

  lemma ResultItemsStep(before: seq<Item>, results: seq<TaskResult>, j: nat)
    requires j < |results|
    ensures before + ResultItems(results[..j + 1])
         == (before + ResultItems(results[..j])) + results[j].items.GetOr([])
  {
    assert results[..j + 1][..j] == results[..j];
  }

  lemma TaskItemsStep(tasks: seq<Task>, i: nat)
    requires i < |tasks|
    ensures TaskItems(tasks[..i + 1]) == TaskItems(tasks[..i]) + ResultItems(tasks[i].result.GetOr([]))
  {
    assert tasks[..i + 1][..i] == tasks[..i];
  }

  lemma {:induction false} KeepAppend(a: seq<Item>, b: seq<Item>, parse: Item -> Option<KeywordRecord>)
    ensures Keep(a + b, parse) == Keep(a, parse) + Keep(b, parse)
    decreases |b|
  {
    if b == [] {
      assert a + b == a;
    } else {
      var n := |b| - 1;
      assert (a + b)[..|a + b| - 1] == a + b[..n];
      KeepAppend(a, b[..n], parse);
    }
  }

  /** A record is kept exactly when some item parses to it. */
  lemma {:induction false} KeepMembership(items: seq<Item>, parse: Item -> Option<KeywordRecord>, x: KeywordRecord)
    ensures x in Keep(items, parse) <==> exists i :: 0 <= i < |items| && parse(items[i]) == Some(x)
  {
    if items != [] {
      var n := |items| - 1;
      KeepMembership(items[..n], parse, x);
      if exists i :: 0 <= i < |items| && parse(items[i]) == Some(x) {
        var i :| 0 <= i < |items| && parse(items[i]) == Some(x);
        if i < n {
          assert items[..n][i] == items[i];
        }
      }
      if exists i :: 0 <= i < n && parse(items[..n][i]) == Some(x) {
        var i :| 0 <= i < n && parse(items[..n][i]) == Some(x);
        assert items[i] == items[..n][i];
      }
    }
  }

  /** Item parser of `parseRelatedKeywordsResponse`. */
  function RelatedItem(item: Item): (r: Option<KeywordRecord>)
    ensures r.Some? <==>
      item.keywordData.Some? && item.keywordData.value.keyword.Some?
      && !PhpEmpty(item.keywordData.value.keyword.value)
    ensures r.Some? ==> r.value.keyword == item.keywordData.value.keyword.value
    ensures r.Some? ==> r.value.connectionStrength == item.connectionStrength.GetOr(0.0)
    ensures r.Some? ==>
      var info := item.keywordData.value.keywordInfo.GetOr(NoInfo);
      r.value.searchVolume == info.searchVolume.GetOr(0) && r.value.difficulty == info.keywordDifficulty.GetOr(0)
  {
    var data := item.keywordData.GetOr(KeywordData(None, None));
    var info := data.keywordInfo.GetOr(NoInfo);
    if data.keyword.None? || PhpEmpty(data.keyword.value) then None
    else Some(KeywordRecord(
      data.keyword.value,
      info.searchVolume.GetOr(0),
      info.keywordDifficulty.GetOr(0),
      item.connectionStrength.GetOr(0.0)))
  }

  /**
   * Item parser of `parseKeywordSuggestionsResponse`: without `keyword_data` the item is
   * its own data, the text falls back to the item's `keyword`, and a missing connection
   * strength becomes 0.5.
   */
  function SuggestionItem(item: Item): (r: Option<KeywordRecord>)
    ensures r.Some? <==>
      ((item.keywordData.Some? && item.keywordData.value.keyword.Some?
        && !PhpEmpty(item.keywordData.value.keyword.value))
       || ((item.keywordData.None? || item.keywordData.value.keyword.None?)
           && item.keyword.Some? && !PhpEmpty(item.keyword.value)))
    ensures r.Some? ==> !PhpEmpty(r.value.keyword)
    ensures r.Some? ==>
      r.value.keyword == (if item.keywordData.Some? && item.keywordData.value.keyword.Some?
                          then item.keywordData.value.keyword.value
                          else item.keyword.value)
    ensures r.Some? ==>
      var info := (if item.keywordData.Some? then item.keywordData.value.keywordInfo else item.keywordInfo).GetOr(NoInfo);
      r.value.searchVolume == info.searchVolume.GetOr(0) && r.value.difficulty == info.keywordDifficulty.GetOr(0)
    ensures r.Some? ==> r.value.connectionStrength == item.connectionStrength.GetOr(0.5)
  {
    var data := item.keywordData.GetOr(KeywordData(item.keyword, item.keywordInfo));
    var info := data.keywordInfo.GetOr(NoInfo);
    var text := if data.keyword.Some? then data.keyword else item.keyword;
    if text.None? || PhpEmpty(text.value) then None
    else Some(KeywordRecord(
      text.value,
      info.searchVolume.GetOr(0),
      info.keywordDifficulty.GetOr(0),
      item.connectionStrength.GetOr(0.5)))
  }

  /** What one item adds to the output. */
  function Parsed(item: Item, parse: Item -> Option<KeywordRecord>): seq<KeywordRecord> {
    match parse(item) case Some(k) => [k] case None => []
  }

  lemma KeepSnoc(done: seq<Item>, item: Item, parse: Item -> Option<KeywordRecord>)
    ensures Keep(done + [item], parse) == Keep(done, parse) + Parsed(item, parse)
  {
    assert (done + [item])[..|done|] == done;
  }

  /** The innermost loop: appends what `parse` makes of each of `items`. */
  method AppendItems(keywords: seq<KeywordRecord>, items: seq<Item>, parse: Item -> Option<KeywordRecord>)
    returns (out: seq<KeywordRecord>)
    ensures out == keywords + Keep(items, parse)
  {
    out := keywords;
    var k := 0;
    while k < |items|
      invariant 0 <= k <= |items|
      invariant out == keywords + Keep(items[..k], parse)
    {
      KeepSnoc(items[..k], items[k], parse);
      assert items[..k + 1] == items[..k] + [items[k]];
      out := out + Parsed(items[k], parse);
      k := k + 1;
    }
    assert items[..k] == items;
  }

  /**
   * The triple loop shared by both parsers: walk `tasks`, each task's `result`, each
   * result's `items`, appending what `parse` makes of every item.
   */
  method CollectKeywords(response: Response, parse: Item -> Option<KeywordRecord>)
    returns (keywords: seq<KeywordRecord>)
    ensures keywords == Keep(AllItems(response), parse)
  {
    keywords := [];
    var tasks := response.tasks.GetOr([]);
    var i := 0;
    while i < |tasks|
      invariant 0 <= i <= |tasks|
      invariant keywords == Keep(TaskItems(tasks[..i]), parse)
    {
      var results := tasks[i].result.GetOr([]);
      ghost var before := TaskItems(tasks[..i]);
      var j := 0;
      assert results[..0] == [];
      assert before + ResultItems(results[..0]) == before;
      while j < |results|
        invariant 0 <= j <= |results|
        invariant keywords == Keep(before + ResultItems(results[..j]), parse)
      {
        var items := results[j].items.GetOr([]);
        ghost var sofar := before + ResultItems(results[..j]);
        KeepAppend(sofar, items, parse);
        keywords := AppendItems(keywords, items, parse);
        ResultItemsStep(before, results, j);
        j := j + 1;
      }
      assert results[..j] == results;
      TaskItemsStep(tasks, i);
      i := i + 1;
    }
    assert tasks[..i] == tasks;
  }

  method ParseRelatedKeywordsResponse(response: Response) returns (keywords: seq<KeywordRecord>)
    ensures keywords == Keep(AllItems(response), RelatedItem)
  {
    keywords := CollectKeywords(response, RelatedItem);
  }

  method ParseKeywordSuggestionsResponse(response: Response) returns (keywords: seq<KeywordRecord>)
    ensures keywords == Keep(AllItems(response), SuggestionItem)
  {
    keywords := CollectKeywords(response, SuggestionItem);
  }

  /**
   * What the related-keywords parser returns: exactly the records of the items that carry a
   * non-empty `keyword_data.keyword`, each with a non-empty keyword.
   */
  lemma {:induction false} RelatedKeywordsFromItems(response: Response, x: KeywordRecord)
    ensures x in Keep(AllItems(response), RelatedItem) <==>
      exists i :: 0 <= i < |AllItems(response)| && RelatedItem(AllItems(response)[i]) == Some(x)
    ensures x in Keep(AllItems(response), RelatedItem) ==> !PhpEmpty(x.keyword)
  {
    KeepMembership(AllItems(response), RelatedItem, x);
  }

  /** The same for the suggestions parser, whose text may come from the item itself. */
  lemma {:induction false} SuggestionKeywordsFromItems(response: Response, x: KeywordRecord)
    ensures x in Keep(AllItems(response), SuggestionItem) <==>
      exists i :: 0 <= i < |AllItems(response)| && SuggestionItem(AllItems(response)[i]) == Some(x)
    ensures x in Keep(AllItems(response), SuggestionItem) ==> !PhpEmpty(x.keyword)
  {
    KeepMembership(AllItems(response), SuggestionItem, x);
  }
}
