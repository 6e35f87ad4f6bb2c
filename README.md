# Keyword research and topical maps: a Dafny model

This project models the core of a Laravel application. The application builds SEO "topical
maps" from a seed keyword. It covers four files:

- **DataForSEO service** (`app/Services/DataForSeoService.php`). It parses the provider's
  related-keyword and keyword-suggestion responses. It then merges the two lists. When two
  records share a lower-cased keyword, the one with the higher search volume is kept. The
  result is grouped into clusters:
  - keywords are visited strongest-connection first;
  - a keyword at or above the 0.3 threshold joins the first cluster whose parent shares a
    non-stop-word with it, or else founds a new cluster;
  - weaker keywords become orphans;
  - clusters are ordered by parent volume, each cluster re-elects its highest-volume
    member as parent, and the clusters are re-ordered.

  The service also labels difficulty scores Easy, Doable or Hard.
- **Keyword model** (`app/Models/Keyword.php`). It holds the nullable difficulty label and
  the cluster-parent test.
- **Topical map controller** (`app/Http/Controllers/TopicalMapController.php`):
  - `generate` wipes the project's rows and stores the seed. It then stores every cluster
    parent, its children under it, and the orphans as top-level rows.
  - `suggestions` and `clusterSuggestions` append provider suggestions whose lower-cased
    text is not present yet.
- **Keyword controller** (`app/Http/Controllers/KeywordController.php`):
  - `buildTree` turns a flat list into a nested forest.
  - `isDescendant` and `getAncestorIds` walk parent chains.
  - `store` and `move` keep sibling positions.

The modules follow the source files:

| module | file | models |
|---|---|---|
| `Util`, `Text` | `util.dfy`, `text.dfy` | `??` as `Option`, `strtolower` (ASCII), `explode(' ')`, PHP `empty()` on strings |
| `Sorting` | `sorting.dfy` | PHP 8 `usort`, a stable sort; comparators here are `$b[k] <=> $a[k]` |
| `SeoRecords`, `SeoRelated`, `SeoParse`, `SeoMerge`, `SeoCluster`, `SeoService` | `seo_*.dfy` | `DataForSeoService` |
| `KeywordModel` | `keyword_model.dfy` | `Keyword` |
| `TopicalMapController` | `topical_map.dfy` | `TopicalMapController`, over a `RowStore` class (rows in a `seq`, an id counter) |
| `KeywordTree` | `keyword_tree.dfy` | `KeywordController`, over a `KeywordTable` class (a map from id to row) |

Code that works by loops and assignment is modelled as methods with loop invariants. Each
method is proved equal to a specification function, and the properties are lemmas about
those functions:
- the parsers;
- `mergeAndDeduplicate`;
- the grouping pass and re-selection loop of `clusterKeywords`;
- the storing loops of `generate`;
- the dedup loops;
- `isDescendant`;
- `getAncestorIds`.

Recursive or expression-level code is modelled as functions. That covers `buildTree`,
`keywordsAreRelated` and the labels. `generateTopicalMap` is the method
`SeoService.GenerateTopicalMap`, specified by the function `SeoService.TopicalMapOf`.

The parent-chain walks of `KeywordController` never check for cycles. They therefore take a
`fuel` bound, and `None` (or the `Diverges` outcome) stands for a walk that would still be
going. `buildTree` takes one too, but `index` only calls it from the root, and from there it
always finishes on rows with distinct ids: a keyword on a cycle has its parent on the cycle,
so the descent never reaches it. `KeywordTree.BuildTreeFromRootFinishes` proves that one more
unit of fuel than there are rows is enough.

Behaviours modelled as the code has them:
- A keyword text `"0"` counts as empty and is dropped by both parsers.
- `explode(' ')` keeps empty words. So two keywords that both contain a double, leading or
  trailing space count as related (`SeoRelated.EmptyWordRelates`).
- Where the written description and the code differ, the model follows the code. The code
  sorts clusters by parent volume twice: once before re-selecting parents, and again
  after. That first sort fixes the order among clusters whose new parents tie
  (`SeoCluster.ClusteredTies`).
- `move` ends with `$keyword->update([...])`, and Eloquent writes only the attributes that
  differ from the keyword as it was loaded. A move to the keyword's current parent and
  position therefore writes nothing. The preceding `increment` has already pushed the
  keyword, with its later siblings, one place up, so it ends one past the requested
  position (`KeywordTree.MovedKeyword`, `KeywordTree.SamePlaceMoveBumps`).
- `isClusterParent` is also true of every orphan row, since orphans are stored top-level
  and are not the seed (`TopicalMapController.OrphanRowsPassClusterParentTest`).

## Model

| member | source | states |
|---|---|---|
| Text.Lower | app/Services/DataForSeoService.php:204 | `strtolower` keeps the length and lower-cases exactly the ASCII capitals, character by character |
| Text.LowerIdempotent | app/Services/DataForSeoService.php:204 | lower-casing twice is lower-casing once, so lower-cased keys are stable |
| Text.LowerOfLowercase | app/Services/DataForSeoService.php:204 | a text without capitals is its own lower-cased key |
| Text.Explode | app/Services/DataForSeoService.php:312-313 | `explode(' ')` yields at least one word and no word contains a space |
| Text.ImplodeExplode | app/Services/DataForSeoService.php:312-313 | splitting on spaces loses nothing: joining the words back with single spaces gives the text again, empty words included |
| Text.ExplodeImplode | app/Services/DataForSeoService.php:312-313 | any non-empty list of space-free words is what `explode` returns for their space-joined text |
| Sorting.SortDesc | app/Services/DataForSeoService.php:230 | the `usort` result is a permutation of its input in non-increasing key order |
| Sorting.SortDescStable | app/Services/DataForSeoService.php:230 | for each key value, the elements carrying it keep their input order (PHP 8 stability) |
| Sorting.SortDescKeepsLeadingMaximum | app/Services/DataForSeoService.php:281-283 | an element that comes first and has a maximal key stays first |
| Sorting.SortDescHeadIsFirstMaximum | app/Services/DataForSeoService.php:281-283 | the head of the sorted list is the earliest input element of maximal key |
| Sorting.InSorted | app/Services/DataForSeoService.php:276 | sorting only rearranges: every element of the result comes from the input |
| SeoRecords.GetDifficultyLabel | app/Services/DataForSeoService.php:120-125 | Easy exactly below 30, Doable exactly from 30 to 59, Hard exactly from 60 |
| SeoRecords.DifficultyLabelMonotone | app/Services/DataForSeoService.php:120-125 | a larger score never gets an easier label |
| SeoRecords.DifficultyLabelBoundaries | app/Services/DataForSeoService.php:120-125 | 29 is Easy, 30 Doable, 59 Doable, 60 Hard |
| KeywordModel.DifficultyLabelAttribute | app/Models/Keyword.php:61-67 | no label exactly when the difficulty is null; otherwise the same three bands, each an if-and-only-if |
| KeywordModel.DifficultyLabelsAgree | app/Models/Keyword.php:61-67 | on a present difficulty the attribute agrees with the service's labeller |
| KeywordModel.IsClusterParent | app/Models/Keyword.php:53-56 | holds exactly for a top-level row that is not the seed: false for the seed and for any row with a parent, true otherwise |
| SeoParse.RelatedItem | app/Services/DataForSeoService.php:140-152 | an item yields a record exactly when `keyword_data.keyword` is present and not PHP-empty; the record carries that text, the volume and difficulty of `keyword_data.keyword_info` (0 when absent) and the strength (0 when absent) |
| SeoParse.SuggestionItem | app/Services/DataForSeoService.php:173-186 | an item yields a record exactly when the nested keyword, or failing it the item's own `keyword`, is non-empty; the record carries that text, the volume and difficulty of the `keyword_info` of `keyword_data` (of the item itself when `keyword_data` is absent), 0 when absent, and the strength (0.5 when absent) |
| SeoParse.KeepAppend | app/Services/DataForSeoService.php:135-155 | parsing the concatenation of two item lists is concatenating their parses |
| SeoParse.KeepMembership | app/Services/DataForSeoService.php:139-153 | a record is in the output exactly when some item parses to it |
| SeoParse.AppendItems | app/Services/DataForSeoService.php:139-153 | the innermost `foreach` appends exactly the parses of the items, in order |
| SeoParse.CollectKeywords | app/Services/DataForSeoService.php:132-157 | the three nested loops collect the parses of every item of every result of every task, in order; missing levels count as empty |
| SeoParse.ParseRelatedKeywordsResponse | app/Services/DataForSeoService.php:130-158 | the related-keywords parser is the item-wise related parse of the whole response |
| SeoParse.ParseKeywordSuggestionsResponse | app/Services/DataForSeoService.php:163-192 | the suggestions parser is the item-wise suggestion parse of the whole response |
| SeoParse.RelatedKeywordsFromItems | app/Services/DataForSeoService.php:130-158 | every parsed related keyword comes from some item and has a non-empty text, and every parsable item is represented |
| SeoParse.SuggestionKeywordsFromItems | app/Services/DataForSeoService.php:163-192 | the same for suggestions |
| SeoMerge.MergeAndDeduplicate | app/Services/DataForSeoService.php:198-217 | the two loops over the insertion-ordered dictionary return the merge, with no two records sharing a lower-cased keyword |
| SeoMerge.IndexPrimaryLookup | app/Services/DataForSeoService.php:203-206 | after indexing `primary`, a key is present exactly when some primary record has it, and it holds the last such record |
| SeoMerge.OfferAllLookup | app/Services/DataForSeoService.php:209-214 | after the secondary loop, a key holds the first record of maximal volume among its primary winner and its secondary records |
| SeoMerge.MergedDistinctKeys | app/Services/DataForSeoService.php:198-217 | no two merged records share a lower-cased keyword |
| SeoMerge.MergedByKey | app/Services/DataForSeoService.php:198-217 | one merged record per key occurring in either input, and it is the first of maximal volume among that key's candidates |
| SeoMerge.CandidatesOfInputs | app/Services/DataForSeoService.php:198-217 | a key's contenders are input records with that key, and there is one whenever the key occurs in an input |
| SeoMerge.MergedKeyPresent | app/Services/DataForSeoService.php:198-217 | every key that occurs in either input has a record in the merge |
| SeoMerge.MergedKeyOrigin | app/Services/DataForSeoService.php:198-217 | every merged record's key occurs in one of the inputs |
| SeoMerge.MergedKeyIsFirstMax | app/Services/DataForSeoService.php:209-214 | the merged record for a key is the first of maximal volume among its contenders |
| SeoMerge.MergedFromInputs | app/Services/DataForSeoService.php:198-217 | every merged record is a record of one of the inputs |
| SeoMerge.PrimaryLastDuplicateWins | app/Services/DataForSeoService.php:203-206 | within `primary` the last duplicate of a key wins when `secondary` lacks the key |
| SeoMerge.PrimaryKeptUnlessStrictlyBeaten | app/Services/DataForSeoService.php:211-212 | a primary record survives unless a secondary record of its key has strictly higher volume |
| SeoMerge.MergedVolumeIsMaximal | app/Services/DataForSeoService.php:211-212 | a merged record's volume is at least that of every secondary record of its key |
| SeoMerge.IndexDistinctKeys | app/Services/DataForSeoService.php:203-206 | indexing a list whose keys are already distinct files each record under its own key, keys in list order |
| SeoMerge.IndexDistinctIsIdentity | app/Services/DataForSeoService.php:203-206 | indexing a list whose keys are already distinct returns it unchanged, in order |
| SeoMerge.MergeIdempotent | app/Services/DataForSeoService.php:198-217 | merging a merge result with nothing changes nothing |
| SeoMerge.MergeScenario | app/Services/DataForSeoService.php:209-214 | a higher-volume secondary duplicate replaces the primary record |
| SeoRelated.KeywordsAreRelated | app/Services/DataForSeoService.php:304-322 | a first keyword below the 0.3 threshold is related to nothing; the full characterisation is `SeoRelated.RelatedIffSharedWord` |
| SeoRelated.RelatedScenario | app/Services/DataForSeoService.php:304-322 | "xy z" is related to "xy" through their shared word "xy"; the worked records' keys are their own texts |
| SeoRelated.ScenarioWords | app/Services/DataForSeoService.php:312-313 | "xy" is a word of both "xy" and "xy z" |
| SeoRelated.IntersectMembers | app/Services/DataForSeoService.php:315 | `array_intersect` keeps exactly the words of the first list that also occur in the second |
| SeoRelated.WithoutMembers | app/Services/DataForSeoService.php:318-319 | `array_diff` keeps exactly the words that are not stop words |
| SeoRelated.RelatedIffSharedWord | app/Services/DataForSeoService.php:304-322 | two keywords are related exactly when the first meets the 0.3 threshold and they share a lower-cased word that is not a stop word |
| SeoRelated.RelatedSymmetric | app/Services/DataForSeoService.php:304-322 | once both meet the threshold, relatedness does not depend on argument order |
| SeoRelated.EmptyWordRelates | app/Services/DataForSeoService.php:312-321 | two keywords that both have an empty word (a doubled, leading or trailing space) are related |
| SeoCluster.FirstRelated | app/Services/DataForSeoService.php:250-258 | the cluster found is related to the keyword and no earlier cluster is; none found means no cluster is related |
| SeoCluster.JoinFirstRelated | app/Services/DataForSeoService.php:248-259 | the inner `foreach` with `break` adds the keyword to exactly the first related cluster, and reports whether it found one |
| SeoCluster.Group | app/Services/DataForSeoService.php:232-273 | the grouping loop, with its `continue` and nested search, computes the grouping pass |
| SeoCluster.ClusterKeywords | app/Services/DataForSeoService.php:223-298 | the method with its sorts and re-selection loop returns the clustering |
| SeoCluster.ReselectAll | app/Services/DataForSeoService.php:279-289 | re-selection keeps the number of clusters |
| SeoCluster.AssignTaken | app/Services/DataForSeoService.php:234-268 | the `$assigned` keys are exactly the keys of the clustered keywords |
| SeoCluster.StepAdds | app/Services/DataForSeoService.php:237-273 | one iteration adds a fresh strong keyword to one cluster, appends a fresh weak keyword to the orphans, and skips an assigned key |
| SeoCluster.AssignWithin | app/Services/DataForSeoService.php:237-273 | the grouping pass places only input keywords, each at most as often as it occurs |
| SeoCluster.AssignThresholds | app/Services/DataForSeoService.php:246-272 | clustered keywords meet the threshold and orphans do not |
| SeoCluster.AssignDistinct | app/Services/DataForSeoService.php:241-243 | no two clustered keywords share a lower-cased key |
| SeoCluster.AssignSkipsAssignedKey | app/Services/DataForSeoService.php:241-243 | a keyword whose key is already clustered changes nothing |
| SeoCluster.AssignCovers | app/Services/DataForSeoService.php:237-273 | on distinct keys, every input keyword ends up in exactly one cluster or among the orphans |
| SeoCluster.AssignOrphans | app/Services/DataForSeoService.php:269-272 | on strength-sorted input, orphans stay strength-sorted and their keys are never clustered |
| SeoCluster.ReselectMembers | app/Services/DataForSeoService.php:280-284 | re-selection neither loses nor adds members |
| SeoCluster.ReselectOrders | app/Services/DataForSeoService.php:281-287 | children end in non-increasing volume order, none above the new parent |
| SeoCluster.ReselectFirstMax | app/Services/DataForSeoService.php:280-283 | the new parent is the earliest member of maximal volume, the old parent counting first |
| SeoCluster.ReselectKeepsParent | app/Services/DataForSeoService.php:280-283 | a parent no child beats keeps its place, ties included |
| SeoCluster.FlattenReselectAll | app/Services/DataForSeoService.php:279-289 | re-selecting every cluster keeps the multiset of clustered keywords |
| SeoCluster.JoinIgnoresChildren | app/Services/DataForSeoService.php:250-258 | which cluster a keyword joins depends only on the parents, never on the children |
| SeoCluster.ClusteredMembers | app/Services/DataForSeoService.php:276-297 | the final sorts and re-selection keep the grouping pass's members and its orphans |
| SeoCluster.ClusteredWithin | app/Services/DataForSeoService.php:223-298 | empty input gives no clusters and no orphans; the output uses only input keywords; clustered keys are distinct |
| SeoCluster.ClusteredCovers | app/Services/DataForSeoService.php:223-298 | on distinct keys the clusters and orphans together are a permutation of the input |
| SeoCluster.ClusteredThresholds | app/Services/DataForSeoService.php:246-272 | every clustered keyword meets the threshold and no orphan does |
| SeoCluster.ClusteredPlacement | app/Services/DataForSeoService.php:246-272 | on distinct keys a keyword is clustered exactly when it meets the threshold, and is an orphan otherwise |
| SeoCluster.ClusteredOrphans | app/Services/DataForSeoService.php:230-272 | orphans come out in non-increasing strength order and never share a key with a clustered keyword; on distinct keys they are exactly the below-threshold keywords in the order of the stable strength sort |
| SeoCluster.AssignOrphansInOrder | app/Services/DataForSeoService.php:240-272 | on distinct keys the grouping pass's orphans are exactly its below-threshold input records, in input order |
| SeoCluster.ReplaceEach | app/Services/DataForSeoService.php:279-289 | the `foreach` by reference replaces every cluster by its update, in place, keeping the count |
| SeoCluster.GroupingScenario | app/Services/DataForSeoService.php:240-272 | on "xy" (0.9), "xy z" (0.8) and "q" (0.1): "xy" founds a cluster, "xy z" joins it, "q" is an orphan |
| SeoCluster.ScenarioFound | app/Services/DataForSeoService.php:260-266 | the first worked record, with no clusters yet, founds a cluster of its own |
| SeoCluster.ScenarioJoin | app/Services/DataForSeoService.php:246-258 | the second worked record joins the cluster of the first, whose parent shares a word with it |
| SeoCluster.AssignSnoc | app/Services/DataForSeoService.php:240-272 | one more input record is one more step of the grouping loop |
| SeoCluster.ClusteringScenario | app/Services/DataForSeoService.php:223-298 | the whole clusterer on those records returns one cluster, "xy" over "xy z", and the orphan "q" |
| SeoCluster.ScenarioSorted | app/Services/DataForSeoService.php:230 | the worked records are already in strength order |
| SeoCluster.ScenarioSettled | app/Services/DataForSeoService.php:279-287 | the worked cluster already has its largest-volume member as parent |
| SeoCluster.InReselectAll | app/Services/DataForSeoService.php:279-289 | each re-selected cluster is the re-selection of some grouped cluster |
| SeoCluster.SourceGroup | app/Services/DataForSeoService.php:276-292 | each final cluster is the re-selection of some cluster of the grouping pass |
| SeoCluster.ClusteredShape | app/Services/DataForSeoService.php:276-292 | final clusters are in non-increasing parent volume; each is a grouped cluster with its parent re-elected; children are sorted and none is above its parent |
| SeoCluster.ClusteredTies | app/Services/DataForSeoService.php:276-292 | clusters whose new parents tie in volume keep the order the first sort gave them |
| SeoService.GenerateTopicalMap | app/Services/DataForSeoService.php:99-115 | the map is the clustering of the merge of the parsed related keywords with the optional parsed suggestions |
| SeoService.TopicalMapCoversMerged | app/Services/DataForSeoService.php:99-115 | the map's clustered and orphan keywords are exactly the merged keywords |
| SeoService.TopicalMapFromResponses | app/Services/DataForSeoService.php:99-115 | every keyword of the map comes from one of the two responses and has a non-empty text |
| TopicalMapController.RowStore.Create | app/Http/Controllers/TopicalMapController.php:35-38 | `create` appends one row carrying the next id |
| TopicalMapController.RowStore.DeleteProject | app/Http/Controllers/TopicalMapController.php:31-32 | the project's rows go and every other project's rows stay, in order |
| TopicalMapController.OtherProjects | app/Http/Controllers/TopicalMapController.php:31-32 | the surviving rows are exactly those of other projects |
| TopicalMapController.ProjectRows | app/Http/Controllers/TopicalMapController.php:166-170 | `$project->keywords()` holds exactly the project's rows |
| TopicalMapController.OtherProjectsIncreasing | app/Http/Controllers/TopicalMapController.php:31-32 | deleting a project keeps ids increasing |
| TopicalMapController.RecordRows | app/Http/Controllers/TopicalMapController.php:67-74 | one row per keyword, each a non-seed row of the project under the given parent |
| TopicalMapController.ClustersRows | app/Http/Controllers/TopicalMapController.php:50-65 | the cluster rows number one per parent plus one per child |
| TopicalMapController.StoreCluster | app/Http/Controllers/TopicalMapController.php:51-64 | the parent row, then its children under the parent's new id |
| TopicalMapController.StoreTopLevel | app/Http/Controllers/TopicalMapController.php:68-74 | the orphan loop appends one top-level row per orphan, with consecutive ids |
| TopicalMapController.StoreClusters | app/Http/Controllers/TopicalMapController.php:50-65 | the nested cluster loop appends all cluster rows |
| TopicalMapController.ResetProject | app/Http/Controllers/TopicalMapController.php:31-38 | the project's rows are replaced by the seed row |
| TopicalMapController.StoreTopicalMap | app/Http/Controllers/TopicalMapController.php:46-74 | after the seed, the cluster rows and then the orphan rows |
| TopicalMapController.Generate | app/Http/Controllers/TopicalMapController.php:31-74 | the project ends as the seed row plus the rows of the generated map; other projects are untouched |
| TopicalMapController.RowCountIsMemberCount | app/Http/Controllers/TopicalMapController.php:50-65 | the cluster rows number exactly the clustered keywords |
| TopicalMapController.RowCountMonotone | app/Http/Controllers/TopicalMapController.php:50-65 | the rows of the first clusters never outnumber those of all clusters |
| TopicalMapController.ClustersRowsPrefix | app/Http/Controllers/TopicalMapController.php:50-65 | the rows stored for the first k clusters are exactly the first rows stored for all of them |
| TopicalMapController.ClusterSegment | app/Http/Controllers/TopicalMapController.php:50-65 | the k-th cluster's rows sit right after those of the clusters before it |
| TopicalMapController.ClusterRowsCarry | app/Http/Controllers/TopicalMapController.php:51-64 | each row of a cluster carries the corresponding member's text, volume and difficulty and a consecutive id |
| TopicalMapController.ClustersRowsCarry | app/Http/Controllers/TopicalMapController.php:50-65 | the same for all clusters against the flattened member list |
| TopicalMapController.GeneratedRowsCount | app/Http/Controllers/TopicalMapController.php:31-74 | `generate` creates 1 + Σ(1 + children) + orphans rows, the seed first |
| TopicalMapController.MapRowsCarry | app/Http/Controllers/TopicalMapController.php:50-74 | the map's rows carry the clustered keywords and then the orphans, in order, with consecutive ids |
| TopicalMapController.GeneratedRowsCarry | app/Http/Controllers/TopicalMapController.php:50-74 | after the seed, the rows carry the clustered keywords and then the orphans, in order, with consecutive ids |
| TopicalMapController.GeneratedOrphanRows | app/Http/Controllers/TopicalMapController.php:67-74 | the orphans' rows are the last rows, one per orphan in order, each a parentless non-seed row of the project |
| TopicalMapController.OrphanRowsPassClusterParentTest | app/Models/Keyword.php:53-56 | `isClusterParent` refuses the seed row but accepts every stored orphan row, so it cannot tell orphans from cluster parents |
| TopicalMapController.GeneratedSegment | app/Http/Controllers/TopicalMapController.php:50-65 | each cluster's rows form one block of the project's rows |
| TopicalMapController.GeneratedClusterRows | app/Http/Controllers/TopicalMapController.php:51-64 | each cluster parent becomes a cluster-parent row, and its children point to that row's id |
| TopicalMapController.SeedOf | app/Http/Controllers/TopicalMapController.php:159-164 | the seed found is a seed row of the project; none found means the project has none |
| TopicalMapController.FindRow | app/Http/Controllers/TopicalMapController.php:208-216 | the cluster found has the requested id; none found means no row has it |
| TopicalMapController.ChildrenOf | app/Http/Controllers/TopicalMapController.php:219-222 | `$cluster->children()` holds exactly the rows whose parent is the cluster |
| TopicalMapController.AppendUnseen | app/Http/Controllers/TopicalMapController.php:178-196 | the dedup loop creates exactly the accepted suggestions, in order, and counts them |
| TopicalMapController.Suggestions | app/Http/Controllers/TopicalMapController.php:159-202 | without a seed, an error and no change; otherwise the new top-level rows are the suggestions not yet in the project, and both counters equal their number |
| TopicalMapController.ClusterSuggestions | app/Http/Controllers/TopicalMapController.php:214-255 | a missing or foreign cluster is a 404 with no change; otherwise the new children are the suggestions absent from the cluster and its children |
| TopicalMapController.KeysOfSnoc | app/Http/Controllers/TopicalMapController.php:193 | pushing a keyword pushes its lower-cased text onto the seen list |
| TopicalMapController.KeysOfMembership | app/Http/Controllers/TopicalMapController.php:182 | a lower-cased text is on the seen list exactly when some accepted keyword has it |
| TopicalMapController.AcceptedSound | app/Http/Controllers/TopicalMapController.php:178-196 | every created suggestion comes from the input and is not among the existing keywords; created keywords are pairwise distinct |
| TopicalMapController.AcceptedComplete | app/Http/Controllers/TopicalMapController.php:178-196 | every suggestion's text ends up either existing or created |
| TopicalMapController.AcceptedIsFirstFresh | app/Http/Controllers/TopicalMapController.php:178-196 | a suggestion is created exactly when its text is not existing and is its first occurrence among the suggestions |
| TopicalMapController.LowerKeywordsMembership | app/Http/Controllers/TopicalMapController.php:167-170 | every project row's lower-cased text is on the existing list |
| TopicalMapController.SuggestionsAreNew | app/Http/Controllers/TopicalMapController.php:166-196 | `suggestions` never creates a text the project already has, nor the same text twice |
| TopicalMapController.ClusterSuggestionsAreNew | app/Http/Controllers/TopicalMapController.php:218-248 | `clusterSuggestions` never creates a child repeating the cluster's own text or a sibling's, nor the same text twice |
| KeywordTree.ChildrenIn | app/Http/Controllers/KeywordController.php:258-259 | a keyword is selected exactly when it is in the list and has the requested parent |
| KeywordTree.BuildTree | app/Http/Controllers/KeywordController.php:254-270 | a finished branch holds nodes for exactly the list's keywords with the requested parent, in list order; a call from the root always finishes (`KeywordTree.BuildTreeFromRootFinishes`) |
| KeywordTree.Branch | app/Http/Controllers/KeywordController.php:258-267 | the `foreach` over a suffix of the list yields nodes for exactly that suffix's keywords with the requested parent, in order |
| KeywordTree.SelfParentLeftOutOfTree | app/Http/Controllers/KeywordController.php:254-270 | a keyword that is its own parent is never reached from the root: the tree finishes without it or its children |
| KeywordTree.CycleLeftOutOfTree | app/Http/Controllers/KeywordController.php:254-270 | a 1 ↔ 2 parent cycle does not stop the tree from the root: it finishes with only the top-level keyword 3 |
| KeywordTree.ChildOffPath | app/Http/Controllers/KeywordController.php:258-260 | with distinct ids, a keyword whose parent ends a path descended from the root is not already on that path, and extends it |
| KeywordTree.UnvisitedShrinks | app/Http/Controllers/KeywordController.php:258-260 | each level of the descent leaves fewer rows unvisited |
| KeywordTree.BuildTreeAlongPathFinishes | app/Http/Controllers/KeywordController.php:254-270 | along a path from the root with distinct ids, fuel above the number of unvisited rows is enough for `buildTree` to finish |
| KeywordTree.BranchAlongPathFinishes | app/Http/Controllers/KeywordController.php:258-267 | the same for the `foreach` over any part of the list |
| KeywordTree.BuildTreeFromRootFinishes | app/Http/Controllers/KeywordController.php:48 | the call from `index` always finishes on rows with distinct ids, cycles or not, with one unit of fuel more than there are rows |
| KeywordTree.BuildTreeIsForest | app/Http/Controllers/KeywordController.php:254-270 | at every level the nodes are exactly the list's keywords with that parent, in list order; a node has `children` exactly when it has some |
| KeywordTree.BranchIsForest | app/Http/Controllers/KeywordController.php:258-267 | the `foreach` over a suffix of the list builds the nodes of that suffix with the requested parent, each well formed |
| KeywordTree.BuildTreeMoreFuel | app/Http/Controllers/KeywordController.php:254-270 | a finished tree does not depend on the fuel bound |
| KeywordTree.BranchMoreFuel | app/Http/Controllers/KeywordController.php:258-267 | the same for one branch |
| KeywordTree.AncestorsAreParentLinks | app/Http/Controllers/KeywordController.php:297-306 | the ids pushed for a keyword form its chain of parent links, ending at a root or at an id that is not found |
| KeywordTree.AncestorsFrame | app/Http/Controllers/KeywordController.php:297-306 | the walk depends only on the parent links it meets |
| KeywordTree.SelfParentWalkNeverEnds | app/Http/Controllers/KeywordController.php:280-288 | a keyword that is its own parent makes every walk from it loop forever |
| KeywordTree.DescendsIffOnChain | app/Http/Controllers/KeywordController.php:272-291 | `isDescendant` answers whether the keyword is on the candidate's chain of parents; a "no" always rests on a finished chain |
| KeywordTree.IsDescendant | app/Http/Controllers/KeywordController.php:272-291 | the `while` loop computes that answer; an id that is not found gives false |
| KeywordTree.Unique | app/Http/Controllers/KeywordController.php:308 | `unique()` keeps each id once and loses none |
| KeywordTree.AllAncestorsCollects | app/Http/Controllers/KeywordController.php:293-309 | the collected ids are exactly the ids on the listed keywords' chains, and the collection finishes exactly when every walk does |
| KeywordTree.GetAncestorIds | app/Http/Controllers/KeywordController.php:293-309 | the nested loops return those ids without duplicates |
| KeywordTree.AllAncestorsStaysNone | app/Http/Controllers/KeywordController.php:297-306 | one endless walk makes the whole collection endless |
| KeywordTree.LargestOf | app/Http/Controllers/KeywordController.php:78-80 | a non-empty set of positions has a largest one |
| KeywordTree.MaxOf | app/Http/Controllers/KeywordController.php:78-80 | `max('position')` is a sibling position no sibling exceeds |
| KeywordTree.NextPosition | app/Http/Controllers/KeywordController.php:77-92 | a new keyword's position is 0 without siblings, else one more than the largest sibling position |
| KeywordTree.StoreKeepsPositionsDistinct | app/Http/Controllers/KeywordController.php:77-93 | storing keeps siblings' positions distinct and non-negative |
| KeywordTree.ShiftDownAfter | app/Http/Controllers/KeywordController.php:210-213 | `decrement` keeps the same rows and changes nothing but positions; a position drops by one exactly for the rows of the group after the given position |
| KeywordTree.ShiftUpFrom | app/Http/Controllers/KeywordController.php:217-220 | `increment` keeps the same rows and changes nothing but positions; a position rises by one exactly for the rows of the group at or after the given position |
| KeywordTree.Moved | app/Http/Controllers/KeywordController.php:203-227 | the transaction neither adds nor removes rows |
| KeywordTree.MovedKeepsIds | app/Http/Controllers/KeywordController.php:203-227 | the transaction renumbers no row |
| KeywordTree.MovedRow | app/Http/Controllers/KeywordController.php:208-221 | another row moves up one if in the new group at or after the target; else down one if in the old group after the keyword and the parent changed; else not at all |
| KeywordTree.MovedKeyword | app/Http/Controllers/KeywordController.php:216-226 | the keyword ends under the requested parent, at the requested position, except that a move to its current parent and position leaves it one further, since `update` then finds nothing to write |
| KeywordTree.SamePlaceMoveBumps | app/Http/Controllers/KeywordController.php:216-226 | moving a lone top-level keyword at position 0 to top level, position 0, leaves it at position 1 |
| KeywordTree.MoveKeepsPositionsDistinct | app/Http/Controllers/KeywordController.php:203-227 | moving keeps siblings' positions distinct and non-negative |
| KeywordTree.MoveKeepsPositionsNatural | app/Http/Controllers/KeywordController.php:208-213 | moving leaves no negative position: only rows after the keyword's own position move down |
| KeywordTree.MovedApartFromKeyword | app/Http/Controllers/KeywordController.php:216-226 | after a move no other row of the new group shares the keyword's position |
| KeywordTree.MoveKeepsSiblingOrder | app/Http/Controllers/KeywordController.php:208-221 | two other siblings keep their relative order |
| KeywordTree.MoveCheckAsWritten | app/Http/Controllers/KeywordController.php:191-201 | a missing parent is reported exactly when a given parent id has no row; an accepted parent is in the keyword's project and its finished chain of parents does not contain the keyword |
| KeywordTree.MoveCheck | app/Http/Controllers/KeywordController.php:191-201 | the intended checks refuse the keyword as its own parent and otherwise accept only what the written checks accept |
| KeywordTree.SelfParentAccepted | app/Http/Controllers/KeywordController.php:191-201 | as written, the checks accept a move under the keyword itself; the keyword becomes its own parent and every walk from it loops; the intended checks refuse it |
| KeywordTree.MoveKeepsKeywordOffOwnChain | app/Http/Controllers/KeywordController.php:191-227 | with the intended checks, an accepted move leaves the keyword with a finite chain of parents that does not contain it |
| KeywordTree.KeywordTable.Store | app/Http/Controllers/KeywordController.php:69-93 | a missing parent or one from another project is refused without change; otherwise one row with the next id, the requested parent and the next position |
| KeywordTree.KeywordTable.Move | app/Http/Controllers/KeywordController.php:182-227 | the outcome is the intended checks' verdict; on success the table becomes the moved table (so a move to the keyword's current place leaves it one further), otherwise nothing changes |

## Left out

- HTTP transport (`request`, `getRelatedKeywords`, `getKeywordSuggestions`), logging and the provider's exceptions. Provider responses are parameters. A provider failure in `generate` would leave the project holding only the seed row; that path is not modelled.
- `strtolower` is ASCII-only here, and `connection_strength` is a `real`. Locale-dependent case mapping and floating-point behaviour are not modelled.
- TopicalMapController.Suggestions, TopicalMapController.ClusterSuggestions: `in_array` compares loosely, so two numeric strings such as `"10"` and `"1e1"` count as equal. The model compares the texts exactly.
- Controller plumbing: authorization, request validation, JSON responses, the `cluster_count`/`total_keywords` counts and `DB::transaction`. The `Keyword $cluster` and `Keyword $keyword` bindings are modelled as a lookup (`clusterSuggestions`) or as a precondition that the keyword exists (`move`).
- `index` filtering (SQL `where`/`like`), `show`, `update`, `destroy`, `reorder`, `clusters` and `showCluster`: query or CRUD wiring outside the modelled core.
- Columns other than those the modelled operations read. The controllers disagree on column names (`name`/`volume` against `keyword`/`search_volume`); `KeywordTree` keeps only id, project, parent and position. `Keyword::$fillable` (app/Models/Keyword.php:11-18) lists neither `position` nor `name`, and `Project` defines none of the `allKeywords`, `keywords`, `clusters` or `seedKeyword` relations the controllers call; the model assumes a fillable `position` and those relations, as the controllers evidently intend (with the classes as shown, `move`'s `update` would drop `position` and the relation calls would fail).
- KeywordTree.KeywordTable.Store, KeywordTree.KeywordTable.Move: `if ($request->parent_id)` is modelled as "a parent id is given". Ids start at 1, and `exists` validation refuses an id no row has, so a parent id of 0 is refused either way.
- KeywordTree.IsDescendant, KeywordTree.GetAncestorIds, KeywordTree.KeywordTable.Move: parent-chain walks take a fuel bound. `None` or `Diverges` stands for a walk that never ends (the source loops forever when the walk starts on a cycle). The model does not say how much fuel an acyclic table needs.
- KeywordTree.BuildTree: takes a fuel bound too. A call from the root, the only one the source makes, finishes with one unit of fuel more than there are rows (`KeywordTree.BuildTreeFromRootFinishes`); a call started below a keyword on a cycle would recurse forever in the source, and the model then returns `None`.
- Console command, migrations, seeders, `Project`, `KeywordCompetitor`, the other controllers and the front end are not part of this model.

## Findings

| source | as written | input that shows it | evidently intended | confidence | as-written member | corrected member |
|---|---|---|---|---|---|---|
| app/Http/Controllers/KeywordController.php:191-201 | `move` rejects a new parent only when the keyword is among that parent's ancestors; it never compares the parent itself with the keyword | table `{5: project 1, no parent, position 0}`, move keyword 5 under parent 5: accepted, keyword 5 becomes its own parent; later `isDescendant`/`getAncestorIds` walks from it never end, and `buildTree`, which starts at the root, finishes but silently leaves keyword 5 and its subtree out (`KeywordTree.SelfParentLeftOutOfTree`) | moving a keyword under itself is refused like moving it under a descendant | high (not executed) | KeywordTree.MoveCheckAsWritten (counterexample KeywordTree.SelfParentAccepted) | KeywordTree.MoveCheck (proved by KeywordTree.MoveKeepsKeywordOffOwnChain, used by KeywordTree.KeywordTable.Move) |
