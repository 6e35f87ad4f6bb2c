/**
 * `TopicalMapController`: `generate` turns a topical map into rows of the `keywords` table;
 * `suggestions` and `clusterSuggestions` append provider suggestions that are not already
 * present, compared case-insensitively.
 */
module TopicalMapController {
  import opened Util
  import opened Text
  import opened SeoRecords
  import opened SeoParse
  import opened SeoCluster
  import opened SeoService
  import opened KeywordModel

  /** Ids strictly increase along the table. */
  ghost predicate IncreasingIds(rows: seq<Row>) {
    forall i, j :: 0 <= i < j < |rows| ==> rows[i].id < rows[j].id
  }

  /** The `keywords` table: its rows in creation order and the next auto-increment id. */
  class RowStore {
    var rows: seq<Row>
    var nextId: nat

    ghost predicate Valid()
      reads this
    {
      IncreasingIds(rows) && (forall i :: 0 <= i < |rows| ==> rows[i].id < nextId)
    }

    constructor ()
      ensures Valid() && rows == [] && nextId == 1
    {
      rows := [];
      nextId := 1;
    }

    /** `create`: append a row carrying the next id. */
    method Create(projectId: nat, parentId: Option<nat>, keyword: string,
                  searchVolume: Option<int>, difficulty: Option<int>, isSeed: bool)
      returns (row: Row)
      requires Valid()
      modifies this
      ensures Valid()
      ensures row == Row(old(nextId), projectId, parentId, keyword, searchVolume, difficulty, isSeed)
      ensures rows == old(rows) + [row] && nextId == old(nextId) + 1
    {
      row := Row(nextId, projectId, parentId, keyword, searchVolume, difficulty, isSeed);
      rows := rows + [row];
      nextId := nextId + 1;
    }

    /** `$project->keywords()->delete()`: every row of the project goes; ids are not reused. */
    method DeleteProject(projectId: nat)
      requires Valid()
      modifies this
      ensures Valid()
      ensures rows == OtherProjects(old(rows), projectId) && nextId == old(nextId)
    {
      OtherProjectsIncreasing(rows, projectId);
      rows := OtherProjects(rows, projectId);
    }
  }

  function OtherProjects(rows: seq<Row>, p: nat): (r: seq<Row>)
    ensures forall x :: x in r <==> x in rows && x.projectId != p
  {
    if rows == [] then []
    else (if rows[0].projectId != p then [rows[0]] else []) + OtherProjects(rows[1..], p)
  }

  function ProjectRows(rows: seq<Row>, p: nat): (r: seq<Row>)
    ensures forall x :: x in r <==> x in rows && x.projectId == p
  {
    if rows == [] then []
    else (if rows[0].projectId == p then [rows[0]] else []) + ProjectRows(rows[1..], p)
  }

  lemma {:induction false} OtherProjectsIncreasing(rows: seq<Row>, p: nat)
    requires IncreasingIds(rows)
    ensures IncreasingIds(OtherProjects(rows, p))
  {
    if rows != [] {
      assert IncreasingIds(rows[1..]) by {
        forall i, j | 0 <= i < j < |rows[1..]| ensures rows[1..][i].id < rows[1..][j].id {
          assert rows[1..][i] == rows[i + 1] && rows[1..][j] == rows[j + 1];
        }
      }
      OtherProjectsIncreasing(rows[1..], p);
      var tail := OtherProjects(rows[1..], p);
      forall x | x in tail ensures rows[0].id < x.id {
        var k :| 0 <= k < |rows[1..]| && rows[1..][k] == x;
        assert x == rows[k + 1];
      }
    }
  }

  // ---------------------------------------------------------------------------
  // generate

  /** The row `generate` creates for a keyword record. */
  function RecordRow(id: nat, p: nat, parentId: Option<nat>, x: KeywordRecord): Row {
    Row(id, p, parentId, x.keyword, Some(x.searchVolume), Some(x.difficulty), false)
  }

  function SeedRow(id: nat, p: nat, seedKeyword: string): Row {
    Row(id, p, None, seedKeyword, None, None, true)
  }

  /** Rows for `xs`, numbered from `start`, all with the same parent. */
  function RecordRows(p: nat, parentId: Option<nat>, xs: seq<KeywordRecord>, start: nat): (r: seq<Row>)
    ensures |r| == |xs|
    ensures forall row :: row in r ==> row.parentId == parentId && row.projectId == p && !row.isSeed
  {
    seq(|xs|, i requires 0 <= i < |xs| => RecordRow(start + i, p, parentId, xs[i]))
  }

  /** The parent's row, then its children's rows pointing at it. */
  function ClusterRows(p: nat, c: Cluster, start: nat): seq<Row> {
    [RecordRow(start, p, None, c.parent)] + RecordRows(p, Some(start), c.children, start + 1)
  }

  /** Σ (1 + |children|): the number of rows the clusters take. */
  function RowCount(cs: seq<Cluster>): nat {
    if cs == [] then 0 else RowCount(cs[..|cs| - 1]) + 1 + |cs[|cs| - 1].children|
  }

  function ClustersRows(p: nat, cs: seq<Cluster>, start: nat): (r: seq<Row>)
    ensures |r| == RowCount(cs)
  {
    if cs == [] then []
    else
      var prefix := cs[..|cs| - 1];
      ClustersRows(p, prefix, start) + ClusterRows(p, cs[|cs| - 1], start + RowCount(prefix))
  }

  /** The rows of a topical map: the clusters, then the orphans. */
  function MapRows(p: nat, m: TopicalMap, start: nat): seq<Row> {
    ClustersRows(p, m.clusters, start) + RecordRows(p, None, m.orphans, start + RowCount(m.clusters))
  }

  /** The project's rows after `generate`: the seed, then the topical map. */
  function GeneratedRows(p: nat, seedKeyword: string, m: TopicalMap, start: nat): seq<Row> {
    [SeedRow(start, p, seedKeyword)] + MapRows(p, m, start + 1)
  }

  /** The inner loop of `generate`: a cluster's parent row, then one row per child. */
  method StoreCluster(store: RowStore, p: nat, c: Cluster)
    requires store.Valid()
    modifies store
    ensures store.Valid()
    ensures store.rows == old(store.rows) + ClusterRows(p, c, old(store.nextId))
    ensures store.nextId == old(store.nextId) + 1 + |c.children|
  {
    var parent := store.Create(p, None, c.parent.keyword, Some(c.parent.searchVolume), Some(c.parent.difficulty), false);
    ghost var before := store.rows;
    for k := 0 to |c.children|
      invariant store.Valid()
      invariant store.rows == before + RecordRows(p, Some(parent.id), c.children[..k], parent.id + 1)
      invariant store.nextId == parent.id + 1 + k
    {
      var child := c.children[k];
      var _ := store.Create(p, Some(parent.id), child.keyword, Some(child.searchVolume), Some(child.difficulty), false);
      assert RecordRows(p, Some(parent.id), c.children[..k + 1], parent.id + 1)
          == RecordRows(p, Some(parent.id), c.children[..k], parent.id + 1)
             + [RecordRow(parent.id + 1 + k, p, Some(parent.id), child)];
    }
    assert c.children[..|c.children|] == c.children;
  }

  /** Top-level rows for `xs`, one by one. */
  method StoreTopLevel(store: RowStore, p: nat, xs: seq<KeywordRecord>)
    requires store.Valid()
    modifies store
    ensures store.Valid()
    ensures store.rows == old(store.rows) + RecordRows(p, None, xs, old(store.nextId))
    ensures store.nextId == old(store.nextId) + |xs|
  {
    ghost var before := store.rows;
    ghost var start := store.nextId;
    for k := 0 to |xs|
      invariant store.Valid()
      invariant store.rows == before + RecordRows(p, None, xs[..k], start)
      invariant store.nextId == start + k
    {
      var _ := store.Create(p, None, xs[k].keyword, Some(xs[k].searchVolume), Some(xs[k].difficulty), false);
      assert RecordRows(p, None, xs[..k + 1], start)
          == RecordRows(p, None, xs[..k], start) + [RecordRow(start + k, p, None, xs[k])];
    }
    assert xs[..|xs|] == xs;
  }

  /** The outer loop of `generate` over the clusters. */
  method StoreClusters(store: RowStore, p: nat, cs: seq<Cluster>)
    requires store.Valid()
    modifies store
    ensures store.Valid()
    ensures store.rows == old(store.rows) + ClustersRows(p, cs, old(store.nextId))
    ensures store.nextId == old(store.nextId) + RowCount(cs)
  {
    ghost var before := store.rows;
    ghost var start := store.nextId;
    for i := 0 to |cs|
      invariant store.Valid()
      invariant store.rows == before + ClustersRows(p, cs[..i], start)
      invariant store.nextId == start + RowCount(cs[..i])
    {
      assert cs[..i + 1][..i] == cs[..i];
      StoreCluster(store, p, cs[i]);
    }
    assert cs[..|cs|] == cs;
  }

  /** The start of `generate`: clear the project's rows and create the seed row. */
  method ResetProject(store: RowStore, p: nat, seedKeyword: string) returns (seed: Row)
    requires store.Valid()
    modifies store
    ensures store.Valid()
    ensures seed == SeedRow(old(store.nextId), p, seedKeyword)
    ensures store.rows == OtherProjects(old(store.rows), p) + [seed]
    ensures store.nextId == old(store.nextId) + 1
  {
    store.DeleteProject(p);
    seed := store.Create(p, None, seedKeyword, None, None, true);
  }

  /**
   * The two storing loops of `generate`, every cluster and then every orphan, after the
   * seed row `base` ends with.
   */
  method StoreTopicalMap(store: RowStore, p: nat, seedKeyword: string, m: TopicalMap, ghost base: seq<Row>)
    requires store.Valid() && store.nextId >= 1
    requires store.rows == base + [SeedRow(store.nextId - 1, p, seedKeyword)]
    modifies store
    ensures store.Valid()
    ensures store.rows == base + GeneratedRows(p, seedKeyword, m, old(store.nextId) - 1)
    ensures store.nextId == old(store.nextId) - 1 + |GeneratedRows(p, seedKeyword, m, old(store.nextId) - 1)|
  {
    ghost var seed := SeedRow(store.nextId - 1, p, seedKeyword);
    ghost var start := store.nextId;
    StoreClusters(store, p, m.clusters);
    StoreTopLevel(store, p, m.orphans);
    GeneratedRowsSplit(base, seed, MapRows(p, m, start));
  }

  /**
   * `generate`: clear the project's rows, create the seed, build the topical map from the
   * provider's responses, and store its clusters and then its orphans.
   */
  method Generate(store: RowStore, p: nat, seedKeyword: string, related: Response, suggestions: Option<Response>)
    returns (m: TopicalMap)
    requires store.Valid()
    modifies store
    ensures m == TopicalMapOf(related, suggestions)
    ensures store.Valid()
    ensures store.rows == OtherProjects(old(store.rows), p) + GeneratedRows(p, seedKeyword, m, old(store.nextId))
    ensures store.nextId == old(store.nextId) + |GeneratedRows(p, seedKeyword, m, old(store.nextId))|
  {
    ghost var base := OtherProjects(store.rows, p);
    var seed := ResetProject(store, p, seedKeyword);
    m := GenerateTopicalMap(related, suggestions);
    StoreTopicalMap(store, p, seedKeyword, m, base);
  }

  lemma GeneratedRowsSplit(base: seq<Row>, seed: Row, rest: seq<Row>)
    ensures base + [seed] + rest == base + ([seed] + rest)
  {
  }

  // ---------------------------------------------------------------------------
  // The rows `generate` leaves behind

  lemma {:induction false} RowCountIsMemberCount(cs: seq<Cluster>)
    ensures RowCount(cs) == |Flatten(cs)|
  {
    if cs != [] {
      var prefix := cs[..|cs| - 1];
      SnocSplit(cs);
      RowCountIsMemberCount(prefix);
      FlattenSnoc(prefix, cs[|cs| - 1]);
    }
  }

  lemma {:induction false} RowCountMonotone(cs: seq<Cluster>, k: nat)
    requires k <= |cs|
    ensures RowCount(cs[..k]) <= RowCount(cs)
  {
    if k < |cs| {
      var prefix := cs[..|cs| - 1];
      assert prefix[..k] == cs[..k];
      RowCountMonotone(prefix, k);
    } else {
      assert cs[..k] == cs;
    }
  }

  /** The rows of the first `k` clusters are the first rows of all the clusters' rows. */
  lemma {:induction false} ClustersRowsPrefix(p: nat, cs: seq<Cluster>, start: nat, k: nat)
    requires k <= |cs|
    ensures RowCount(cs[..k]) <= RowCount(cs)
    ensures ClustersRows(p, cs[..k], start) == ClustersRows(p, cs, start)[..RowCount(cs[..k])]
  {
    if k == |cs| {
      assert cs[..k] == cs;
    } else {
      var prefix := cs[..|cs| - 1];
      assert prefix[..k] == cs[..k];
      ClustersRowsPrefix(p, prefix, start, k);
      var head := ClustersRows(p, prefix, start);
      var last := ClusterRows(p, cs[|cs| - 1], start + RowCount(prefix));
      assert ClustersRows(p, cs, start) == head + last;
      assert (head + last)[..RowCount(cs[..k])] == head[..RowCount(cs[..k])];
    }
  }

  /**
   * The rows of the `k`-th cluster sit together: its parent's row, then its children's rows,
   * at the offset given by the sizes of the clusters before it.
   */
  lemma ClusterSegment(p: nat, cs: seq<Cluster>, start: nat, k: nat)
    requires k < |cs|
    ensures RowCount(cs[..k]) + 1 + |cs[k].children| == RowCount(cs[..k + 1]) <= RowCount(cs)
    ensures ClustersRows(p, cs, start)[RowCount(cs[..k])..RowCount(cs[..k + 1])]
         == ClusterRows(p, cs[k], start + RowCount(cs[..k]))
  {
    var upto := cs[..k + 1];
    assert upto[..k] == cs[..k] && upto[k] == cs[k];
    var a := RowCount(cs[..k]);
    var head := ClustersRows(p, cs[..k], start);
    var seg := ClusterRows(p, cs[k], start + a);
    assert ClustersRows(p, upto, start) == head + seg;
    ClustersRowsPrefix(p, cs, start, k + 1);
    var rows := ClustersRows(p, cs, start);
    var b := RowCount(upto);
    assert rows[..b] == head + seg;
    assert rows[a..b] == (head + seg)[a..];
  }

  /** `r` is the non-seed row numbered `id` that `generate` stores for `x` in project `p`. */
  ghost predicate Carries(r: Row, id: nat, p: nat, x: KeywordRecord) {
    r.id == id && r.projectId == p && !r.isSeed
    && r.keyword == x.keyword && r.searchVolume == Some(x.searchVolume) && r.difficulty == Some(x.difficulty)
  }

  /** `rows` numbered from `start` carry `xs`, row by row. */
  ghost predicate CarriesAll(rows: seq<Row>, start: nat, p: nat, xs: seq<KeywordRecord>) {
    |rows| == |xs| && forall i :: 0 <= i < |rows| ==> Carries(rows[i], start + i, p, xs[i])
  }

  lemma CarriesConcat(a: seq<Row>, xa: seq<KeywordRecord>, b: seq<Row>, xb: seq<KeywordRecord>, start: nat, p: nat)
    requires CarriesAll(a, start, p, xa) && CarriesAll(b, start + |a|, p, xb)
    ensures CarriesAll(a + b, start, p, xa + xb)
  {
    forall i | 0 <= i < |a + b| ensures Carries((a + b)[i], start + i, p, (xa + xb)[i]) {
      if i >= |a| {
        assert (a + b)[i] == b[i - |a|] && (xa + xb)[i] == xb[i - |a|];
      }
    }
  }

  lemma RecordRowsCarry(p: nat, parentId: Option<nat>, xs: seq<KeywordRecord>, start: nat)
    ensures CarriesAll(RecordRows(p, parentId, xs, start), start, p, xs)
  {
  }

  lemma ClusterRowsCarry(p: nat, c: Cluster, start: nat)
    ensures CarriesAll(ClusterRows(p, c, start), start, p, Members(c))
  {
    RecordRowsCarry(p, Some(start), c.children, start + 1);
    CarriesConcat([RecordRow(start, p, None, c.parent)], [c.parent],
      RecordRows(p, Some(start), c.children, start + 1), c.children, start, p);
  }

  /** The row at position `i` of the cluster rows is the row of the `i`-th member. */
  lemma {:induction false} ClustersRowsCarry(p: nat, cs: seq<Cluster>, start: nat)
    ensures CarriesAll(ClustersRows(p, cs, start), start, p, Flatten(cs))
  {
    if cs != [] {
      var prefix := cs[..|cs| - 1];
      var c := cs[|cs| - 1];
      var head := ClustersRows(p, prefix, start);
      var last := ClusterRows(p, c, start + |head|);
      SnocSplit(cs);
      ClustersRowsCarry(p, prefix, start);
      ClusterRowsCarry(p, c, start + |head|);
      FlattenSnoc(prefix, c);
      CarriesConcat(head, Flatten(prefix), last, Members(c), start, p);
      assert ClustersRows(p, cs, start) == head + last;
    }
  }

  /**
   * After `generate` the project holds the seed row, then one row per cluster member (a
   * parent followed by its children, cluster by cluster), then one row per orphan:
   * 1 + Σ(1 + |children|) + |orphans| rows in all, numbered consecutively.
   */
  lemma GeneratedRowsCount(p: nat, seedKeyword: string, m: TopicalMap, start: nat)
    ensures |GeneratedRows(p, seedKeyword, m, start)| == 1 + RowCount(m.clusters) + |m.orphans|
    ensures |GeneratedRows(p, seedKeyword, m, start)| == 1 + |Flatten(m.clusters)| + |m.orphans|
    ensures GeneratedRows(p, seedKeyword, m, start)[0] == SeedRow(start, p, seedKeyword)
  {
    RowCountIsMemberCount(m.clusters);
  }

  /** The rows of a topical map carry the cluster members and then the orphans. */
  lemma MapRowsCarry(p: nat, m: TopicalMap, start: nat)
    ensures CarriesAll(MapRows(p, m, start), start, p, Flatten(m.clusters) + m.orphans)
  {
    var cr := ClustersRows(p, m.clusters, start);
    var orphanRows := RecordRows(p, None, m.orphans, start + RowCount(m.clusters));
    ClustersRowsCarry(p, m.clusters, start);
    RecordRowsCarry(p, None, m.orphans, start + |cr|);
    CarriesConcat(cr, Flatten(m.clusters), orphanRows, m.orphans, start, p);
    assert MapRows(p, m, start) == cr + orphanRows;
  }

  /** Every row after the seed is a non-seed row of the project carrying the next member or orphan. */
  lemma GeneratedRowsCarry(p: nat, seedKeyword: string, m: TopicalMap, start: nat)
    ensures |GeneratedRows(p, seedKeyword, m, start)| >= 1
    ensures CarriesAll(GeneratedRows(p, seedKeyword, m, start)[1..], start + 1, p, Flatten(m.clusters) + m.orphans)
  {
    MapRowsCarry(p, m, start + 1);
    assert GeneratedRows(p, seedKeyword, m, start)[1..] == MapRows(p, m, start + 1);
  }

  /** The orphans' rows come last, after all cluster rows, and are all top-level. */
  lemma GeneratedOrphanRows(p: nat, seedKeyword: string, m: TopicalMap, start: nat)
    ensures |GeneratedRows(p, seedKeyword, m, start)| == 1 + RowCount(m.clusters) + |m.orphans|
    ensures GeneratedRows(p, seedKeyword, m, start)[1 + RowCount(m.clusters)..]
         == RecordRows(p, None, m.orphans, start + 1 + RowCount(m.clusters))
    ensures forall r :: r in GeneratedRows(p, seedKeyword, m, start)[1 + RowCount(m.clusters)..] ==>
      r.parentId == None && !r.isSeed && r.projectId == p
  {
    var rows := GeneratedRows(p, seedKeyword, m, start);
    var n := RowCount(m.clusters);
    var orphanRows := RecordRows(p, None, m.orphans, start + 1 + n);
    var head := [SeedRow(start, p, seedKeyword)] + ClustersRows(p, m.clusters, start + 1);
    assert |head| == 1 + n;
    assert MapRows(p, m, start + 1) == ClustersRows(p, m.clusters, start + 1) + orphanRows;
    assert rows == head + orphanRows;
    assert rows[1 + n..] == orphanRows;
  }

  /**
   * `isClusterParent` refuses the seed row but accepts every orphan row: orphans are
   * stored top-level and are not the seed, so the test cannot tell them from parents.
   */
  lemma OrphanRowsPassClusterParentTest(p: nat, seedKeyword: string, m: TopicalMap, start: nat)
    ensures !IsClusterParent(GeneratedRows(p, seedKeyword, m, start)[0])
    ensures forall i :: 1 + RowCount(m.clusters) <= i < |GeneratedRows(p, seedKeyword, m, start)| ==>
      IsClusterParent(GeneratedRows(p, seedKeyword, m, start)[i])
  {
    var rows := GeneratedRows(p, seedKeyword, m, start);
    var n := RowCount(m.clusters);
    GeneratedRowsCount(p, seedKeyword, m, start);
    GeneratedOrphanRows(p, seedKeyword, m, start);
    forall i | 1 + n <= i < |rows| ensures IsClusterParent(rows[i]) {
      assert rows[i] == rows[1 + n..][i - 1 - n];
    }
  }

  /** The `k`-th cluster's rows appear in the generated table right after the earlier clusters' rows. */
  lemma GeneratedSegment(p: nat, seedKeyword: string, m: TopicalMap, start: nat, k: nat)
    requires k < |m.clusters|
    ensures var a := RowCount(m.clusters[..k]);
      var seg := ClusterRows(p, m.clusters[k], start + 1 + a);
      && 1 + a + |seg| <= |GeneratedRows(p, seedKeyword, m, start)|
      && forall i :: 0 <= i < |seg| ==> GeneratedRows(p, seedKeyword, m, start)[1 + a + i] == seg[i]
  {
    var rows := GeneratedRows(p, seedKeyword, m, start);
    var cr := ClustersRows(p, m.clusters, start + 1);
    ClusterSegment(p, m.clusters, start + 1, k);
    var a := RowCount(m.clusters[..k]);
    var b := RowCount(m.clusters[..k + 1]);
    var seg := ClusterRows(p, m.clusters[k], start + 1 + a);
    var orphanRows := RecordRows(p, None, m.orphans, start + 1 + RowCount(m.clusters));
    assert MapRows(p, m, start + 1) == cr + orphanRows;
    assert cr[a..b] == seg;
    InnerSlice(rows, SeedRow(start, p, seedKeyword), cr, orphanRows, a, b);
  }

  /**
   * The `k`-th cluster's rows in the generated table: its parent as a cluster parent at
   * offset 1 + Σ over earlier clusters, and each child right after it with `parent_id` set
   * to the parent row's id.
   */
  lemma GeneratedClusterRows(p: nat, seedKeyword: string, m: TopicalMap, start: nat, k: nat)
    requires k < |m.clusters|
    ensures var rows := GeneratedRows(p, seedKeyword, m, start);
      var c := m.clusters[k];
      var o := 1 + RowCount(m.clusters[..k]);
      && o + |c.children| < |rows|
      && rows[o] == RecordRow(start + o, p, None, c.parent)
      && IsClusterParent(rows[o])
      && (forall j :: 0 <= j < |c.children| ==>
            rows[o + 1 + j] == RecordRow(start + o + 1 + j, p, Some(start + o), c.children[j]))
  {
    var rows := GeneratedRows(p, seedKeyword, m, start);
    var a := RowCount(m.clusters[..k]);
    var c := m.clusters[k];
    var seg := ClusterRows(p, c, start + 1 + a);
    GeneratedSegment(p, seedKeyword, m, start, k);
    assert rows[1 + a + 0] == seg[0];
    forall j | 0 <= j < |c.children|
      ensures rows[1 + a + 1 + j] == RecordRow(start + 1 + a + 1 + j, p, Some(start + 1 + a), c.children[j])
    {
      assert rows[1 + a + (1 + j)] == seg[1 + j];
      assert seg[1 + j] == RecordRows(p, Some(start + 1 + a), c.children, start + 1 + a + 1)[j];
    }
  }

  // ---------------------------------------------------------------------------
  // suggestions and clusterSuggestions

  /** The lower-cased keywords of some rows: `->pluck('keyword')->map(strtolower)`. */
  function LowerKeywords(rows: seq<Row>): seq<string> {
    seq(|rows|, i requires 0 <= i < |rows| => Lower(rows[i].keyword))
  }

  /** The lower-cased keywords of some records. */
  function KeysOf(xs: seq<KeywordRecord>): seq<string> {
    seq(|xs|, i requires 0 <= i < |xs| => Key(xs[i]))
  }

  /**
   * The suggestions the dedup loop creates: each one whose lower-cased keyword is neither
   * among `existing` nor among the keywords created before it in the same loop.
   */
  function Accepted(existing: seq<string>, s: seq<KeywordRecord>): seq<KeywordRecord> {
    if s == [] then []
    else
      var kept := Accepted(existing, s[..|s| - 1]);
      var x := s[|s| - 1];
      if Key(x) in existing + KeysOf(kept) then kept else kept + [x]
  }

  /** `$project->seedKeyword`: the project's first seed row, if any. */
  function SeedOf(rows: seq<Row>, p: nat): (r: Option<Row>)
    ensures r.Some? ==> r.value in rows && r.value.projectId == p && r.value.isSeed
    ensures r.None? ==> forall x :: x in rows ==> !(x.projectId == p && x.isSeed)
  {
    if rows == [] then None
    else if rows[0].projectId == p && rows[0].isSeed then Some(rows[0])
    else SeedOf(rows[1..], p)
  }

  /** `Keyword::find`: the row with id `id`, if any. */
  function FindRow(rows: seq<Row>, id: nat): (r: Option<Row>)
    ensures r.Some? ==> r.value in rows && r.value.id == id
    ensures r.None? ==> forall x :: x in rows ==> x.id != id
  {
    if rows == [] then None
    else if rows[0].id == id then Some(rows[0])
    else FindRow(rows[1..], id)
  }

  /** `$cluster->children()`: the rows whose parent is `id`. */
  function ChildrenOf(rows: seq<Row>, id: nat): (r: seq<Row>)
    ensures forall x :: x in r <==> x in rows && x.parentId == Some(id)
  {
    if rows == [] then []
    else (if rows[0].parentId == Some(id) then [rows[0]] else []) + ChildrenOf(rows[1..], id)
  }

  /**
   * The dedup-and-append loop shared by both actions: create a row under `parentId` for
   * every suggestion whose lower-cased keyword is not yet in the running list, and add it
   * to the list.
   */
  method AppendUnseen(store: RowStore, p: nat, parentId: Option<nat>, existing: seq<string>,
                      suggestions: seq<KeywordRecord>)
    returns (keywordsAdded: nat)
    requires store.Valid()
    modifies store
    ensures store.Valid()
    ensures keywordsAdded == |Accepted(existing, suggestions)|
    ensures store.rows == old(store.rows) + RecordRows(p, parentId, Accepted(existing, suggestions), old(store.nextId))
    ensures store.nextId == old(store.nextId) + keywordsAdded
  {
    ghost var before := store.rows;
    ghost var start := store.nextId;
    var existingKeywords := existing;
    keywordsAdded := 0;
    for i := 0 to |suggestions|
      invariant store.Valid()
      invariant existingKeywords == existing + KeysOf(Accepted(existing, suggestions[..i]))
      invariant keywordsAdded == |Accepted(existing, suggestions[..i])|
      invariant store.rows == before + RecordRows(p, parentId, Accepted(existing, suggestions[..i]), start)
      invariant store.nextId == start + keywordsAdded
    {
      var suggestion := suggestions[i];
      var keywordLower := Lower(suggestion.keyword);
      ghost var kept := Accepted(existing, suggestions[..i]);
      assert suggestions[..i + 1][..i] == suggestions[..i];
      if keywordLower in existingKeywords {
        continue;
      }
      var _ := store.Create(p, parentId, suggestion.keyword, Some(suggestion.searchVolume), Some(suggestion.difficulty), false);
      existingKeywords := existingKeywords + [keywordLower];
      keywordsAdded := keywordsAdded + 1;
      assert KeysOf(kept + [suggestion]) == KeysOf(kept) + [keywordLower];
      assert RecordRows(p, parentId, kept + [suggestion], start)
          == RecordRows(p, parentId, kept, start) + [RecordRow(start + |kept|, p, parentId, suggestion)];
    }
    assert suggestions[..|suggestions|] == suggestions;
  }

  datatype SuggestionsResult =
    | NoTopicalMap                                          // HTTP 400: the project has no seed
    | SuggestionsAdded(keywordsAdded: nat, newClusters: nat)

  /**
   * `suggestions`: without a seed, a 400 error and no change; otherwise every suggestion for
   * the seed keyword that is not yet in the project becomes a new top-level row.
   */
  method Suggestions(store: RowStore, p: nat, suggestions: seq<KeywordRecord>) returns (result: SuggestionsResult)
    requires store.Valid()
    modifies store
    ensures store.Valid()
    ensures SeedOf(old(store.rows), p).None? ==>
      result == NoTopicalMap && store.rows == old(store.rows) && store.nextId == old(store.nextId)
    ensures SeedOf(old(store.rows), p).Some? ==>
      var added := Accepted(LowerKeywords(ProjectRows(old(store.rows), p)), suggestions);
      && result == SuggestionsAdded(|added|, |added|)
      && store.rows == old(store.rows) + RecordRows(p, None, added, old(store.nextId))
      && store.nextId == old(store.nextId) + |added|
  {
    var seed := SeedOf(store.rows, p);
    if seed.None? {
      return NoTopicalMap;
    }
    var existingKeywords := LowerKeywords(ProjectRows(store.rows, p));
    var keywordsAdded := AppendUnseen(store, p, None, existingKeywords, suggestions);
    var newClusters := keywordsAdded;
    result := SuggestionsAdded(keywordsAdded, newClusters);
  }

  datatype ClusterSuggestionsResult =
    | ClusterNotFound                                       // HTTP 404
    | ClusterSuggestionsAdded(clusterId: nat, keywordsAdded: nat)

  /** The lower-cased keywords `clusterSuggestions` skips: the cluster's children and the cluster itself. */
  function ClusterExclusions(rows: seq<Row>, cluster: Row): seq<string> {
    LowerKeywords(ChildrenOf(rows, cluster.id)) + [Lower(cluster.keyword)]
  }

  /**
   * `clusterSuggestions`: a 404 unless the cluster row exists in the project; otherwise
   * every suggestion for the cluster's keyword not yet among its children or the cluster
   * itself becomes a child of the cluster.
   */
  method ClusterSuggestions(store: RowStore, p: nat, clusterId: nat, suggestions: seq<KeywordRecord>)
    returns (result: ClusterSuggestionsResult)
    requires store.Valid()
    modifies store
    ensures store.Valid()
    ensures (FindRow(old(store.rows), clusterId).None? || FindRow(old(store.rows), clusterId).value.projectId != p) ==>
      result == ClusterNotFound && store.rows == old(store.rows) && store.nextId == old(store.nextId)
    ensures FindRow(old(store.rows), clusterId).Some? && FindRow(old(store.rows), clusterId).value.projectId == p ==>
      var added := Accepted(ClusterExclusions(old(store.rows), FindRow(old(store.rows), clusterId).value), suggestions);
      && result == ClusterSuggestionsAdded(clusterId, |added|)
      && store.rows == old(store.rows) + RecordRows(p, Some(clusterId), added, old(store.nextId))
      && store.nextId == old(store.nextId) + |added|
  {
    var cluster := FindRow(store.rows, clusterId);
    if cluster.None? || cluster.value.projectId != p {
      return ClusterNotFound;
    }
    var existingKeywords := ClusterExclusions(store.rows, cluster.value);
    var keywordsAdded := AppendUnseen(store, p, Some(cluster.value.id), existingKeywords, suggestions);
    result := ClusterSuggestionsAdded(cluster.value.id, keywordsAdded);
  }

  // ---------------------------------------------------------------------------
  // What the dedup loop keeps

  lemma KeysOfSnoc(xs: seq<KeywordRecord>, x: KeywordRecord)
    ensures KeysOf(xs + [x]) == KeysOf(xs) + [Key(x)]
  {
  }

  lemma KeysOfMembership(xs: seq<KeywordRecord>, k: string)
    ensures k in KeysOf(xs) <==> exists x :: x in xs && Key(x) == k
  {
    if k in KeysOf(xs) {
      var i :| 0 <= i < |xs| && KeysOf(xs)[i] == k;
      assert xs[i] in xs;
    }
    if exists x :: x in xs && Key(x) == k {
      var x :| x in xs && Key(x) == k;
      var i :| 0 <= i < |xs| && xs[i] == x;
      assert KeysOf(xs)[i] == k;
    }
  }

  /**
   * Every created suggestion comes from the input, is new with respect to `existing`, and
   * no two created suggestions share a lower-cased keyword.
   */
  lemma {:induction false} AcceptedSound(existing: seq<string>, s: seq<KeywordRecord>)
    ensures forall x :: x in Accepted(existing, s) ==> x in s && Key(x) !in existing
    ensures DistinctKeys(Accepted(existing, s))
  {
    if s != [] {
      var prefix := s[..|s| - 1];
      var kept := Accepted(existing, prefix);
      var x := s[|s| - 1];
      AcceptedSound(existing, prefix);
      assert forall y :: y in prefix ==> y in s;
      if Key(x) !in existing + KeysOf(kept) {
        forall y | y in kept ensures Key(y) != Key(x) {
          KeysOfMembership(kept, Key(y));
        }
        var r := kept + [x];
        forall i, j | 0 <= i < j < |r| ensures Key(r[i]) != Key(r[j]) {
          if j == |kept| {
            assert r[i] in kept;
          } else {
            assert r[i] == kept[i] && r[j] == kept[j];
          }
        }
      }
    }
  }

  /** Nothing is lost: every suggestion's keyword ends up either existing or created. */
  lemma {:induction false} AcceptedComplete(existing: seq<string>, s: seq<KeywordRecord>)
    ensures forall x :: x in s ==> Key(x) in existing || Key(x) in KeysOf(Accepted(existing, s))
  {
    if s != [] {
      var prefix := s[..|s| - 1];
      var kept := Accepted(existing, prefix);
      var x := s[|s| - 1];
      AcceptedComplete(existing, prefix);
      SnocSplit(s);
      if Key(x) !in existing + KeysOf(kept) {
        KeysOfSnoc(kept, x);
        assert forall k :: k in KeysOf(kept) ==> k in KeysOf(kept + [x]);
      }
    }
  }

  /**
   * A reference description of the dedup: keep exactly the suggestions whose keyword is
   * not in `existing` and is the first occurrence of that keyword among the suggestions.
   */
  function FirstFresh(existing: seq<string>, s: seq<KeywordRecord>): seq<KeywordRecord> {
    if s == [] then []
    else
      var prefix := s[..|s| - 1];
      var x := s[|s| - 1];
      FirstFresh(existing, prefix)
        + (if Key(x) !in existing && Key(x) !in KeysOf(prefix) then [x] else [])
  }

  /** The loop's running list agrees with the reference description. */
  lemma {:induction false} AcceptedIsFirstFresh(existing: seq<string>, s: seq<KeywordRecord>)
    ensures Accepted(existing, s) == FirstFresh(existing, s)
  {
    if s != [] {
      var prefix := s[..|s| - 1];
      var kept := Accepted(existing, prefix);
      var x := s[|s| - 1];
      AcceptedIsFirstFresh(existing, prefix);
      AcceptedSound(existing, prefix);
      AcceptedComplete(existing, prefix);
      KeysOfMembership(kept, Key(x));
      KeysOfMembership(prefix, Key(x));
      assert Key(x) in existing + KeysOf(kept) <==> Key(x) in existing || Key(x) in KeysOf(prefix);
    }
  }

  lemma LowerKeywordsMembership(rows: seq<Row>, r: Row)
    requires r in rows
    ensures Lower(r.keyword) in LowerKeywords(rows)
  {
    var i :| 0 <= i < |rows| && rows[i] == r;
    assert LowerKeywords(rows)[i] == Lower(r.keyword);
  }

  /**
   * `suggestions` never creates a keyword the project already has (compared lower-cased),
   * and creates no duplicate among its own rows.
   */
  lemma SuggestionsAreNew(rows: seq<Row>, p: nat, s: seq<KeywordRecord>)
    ensures forall x, r :: x in Accepted(LowerKeywords(ProjectRows(rows, p)), s) && r in rows && r.projectId == p
              ==> Key(x) != Lower(r.keyword)
    ensures DistinctKeys(Accepted(LowerKeywords(ProjectRows(rows, p)), s))
  {
    var existing := LowerKeywords(ProjectRows(rows, p));
    AcceptedSound(existing, s);
    forall x, r | x in Accepted(existing, s) && r in rows && r.projectId == p
      ensures Key(x) != Lower(r.keyword)
    {
      LowerKeywordsMembership(ProjectRows(rows, p), r);
    }
  }

  /**
   * `clusterSuggestions` never creates a child with the cluster's own keyword or with the
   * keyword of one of its existing children, nor two children with the same keyword.
   */
  lemma ClusterSuggestionsAreNew(rows: seq<Row>, cluster: Row, s: seq<KeywordRecord>)
    ensures forall x :: x in Accepted(ClusterExclusions(rows, cluster), s) ==> Key(x) != Lower(cluster.keyword)
    ensures forall x, r :: x in Accepted(ClusterExclusions(rows, cluster), s) && r in rows && r.parentId == Some(cluster.id)
              ==> Key(x) != Lower(r.keyword)
    ensures DistinctKeys(Accepted(ClusterExclusions(rows, cluster), s))
  {
    var existing := ClusterExclusions(rows, cluster);
    AcceptedSound(existing, s);
    forall x, r | x in Accepted(existing, s) && r in rows && r.parentId == Some(cluster.id)
      ensures Key(x) != Lower(r.keyword)
    {
      LowerKeywordsMembership(ChildrenOf(rows, cluster.id), r);
    }
  }
}
