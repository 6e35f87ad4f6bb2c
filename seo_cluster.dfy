/**
 * `clusterKeywords`: group merged keyword records into clusters (a parent and its
 * children) and orphans, then make each cluster's highest-volume member its parent.
 */
module SeoCluster {
  import opened Util
  import opened Sorting
  import opened SeoRecords
  import opened SeoRelated

  datatype Cluster = Cluster(parent: KeywordRecord, children: seq<KeywordRecord>)

  /** The array `['clusters' => ..., 'orphans' => ...]` that the clusterer returns. */
  datatype TopicalMap = TopicalMap(clusters: seq<Cluster>, orphans: seq<KeywordRecord>)

  /** The loop state of the grouping pass: `$clusters`, `$orphans` and the keys of `$assigned`. */
  datatype Assignment = Assignment(clusters: seq<Cluster>, orphans: seq<KeywordRecord>, taken: set<string>)

  /** A cluster's members, parent first. */
  function Members(c: Cluster): seq<KeywordRecord> {
    [c.parent] + c.children
  }

  /** Every member of every cluster, cluster by cluster. */
  function Flatten(cs: seq<Cluster>): seq<KeywordRecord> {
    if cs == [] then [] else Members(cs[0]) + Flatten(cs[1..])
  }

  function ParentVolume(c: Cluster): real {
    c.parent.searchVolume as real
  }

  function KeySet(s: seq<KeywordRecord>): set<string> {
    set x | x in s :: Key(x)
  }

  function AddChild(c: Cluster, kw: KeywordRecord): Cluster {
    Cluster(c.parent, c.children + [kw])
  }

  /**
   * The index of the first cluster whose PARENT is related to `kw`; children are never
   * consulted.
   */
  function FirstRelated(cs: seq<Cluster>, kw: KeywordRecord): (r: Option<nat>)
    ensures r.Some? ==> r.value < |cs| && KeywordsAreRelated(kw, cs[r.value].parent)
    ensures r.Some? ==> forall m :: 0 <= m < r.value ==> !KeywordsAreRelated(kw, cs[m].parent)
    ensures r.None? ==> forall m :: 0 <= m < |cs| ==> !KeywordsAreRelated(kw, cs[m].parent)
  {
    if cs == [] then None
    else if KeywordsAreRelated(kw, cs[0].parent) then Some(0)
    else
      match FirstRelated(cs[1..], kw)
      case Some(j) => Some(j + 1)
      case None => None
  }

  /** One iteration of the grouping loop. */
  function Step(st: Assignment, kw: KeywordRecord): Assignment {
    var key := Key(kw);
    if key in st.taken then st
    else if kw.connectionStrength >= Threshold then
      match FirstRelated(st.clusters, kw)
      case Some(j) => Assignment(st.clusters[j := AddChild(st.clusters[j], kw)], st.orphans, st.taken + {key})
      case None => Assignment(st.clusters + [Cluster(kw, [])], st.orphans, st.taken + {key})
    else
      Assignment(st.clusters, st.orphans + [kw], st.taken)
  }

  /** The records of `s` below the threshold, in the order of `s`. */
  function BelowThreshold(s: seq<KeywordRecord>): seq<KeywordRecord> {
    if s == [] then []
    else BelowThreshold(s[..|s| - 1]) + (if s[|s| - 1].connectionStrength < Threshold then [s[|s| - 1]] else [])
  }

  /** The grouping loop run over `s`. */
  function Assign(s: seq<KeywordRecord>): Assignment {
    if s == [] then Assignment([], [], {})
    else Step(Assign(s[..|s| - 1]), s[|s| - 1])
  }

  /**
   * Re-selection of a cluster's parent: stably sort parent-then-children by volume, take
   * the head as parent and the rest, sorted once more, as children.
   */
  function Reselect(c: Cluster): Cluster {
    var all := SortDesc(Members(c), Volume);
    Cluster(all[0], SortDesc(all[1..], Volume))
  }

  function ReselectAll(cs: seq<Cluster>): (r: seq<Cluster>)
    ensures |r| == |cs|
  {
    seq(|cs|, i requires 0 <= i < |cs| => Reselect(cs[i]))
  }

  /**
   * What `clusterKeywords` returns: sort by connection strength, group, sort clusters by
   * parent volume, re-select parents, and sort clusters by the new parent volume.
   */
  function Clustered(keywords: seq<KeywordRecord>): TopicalMap {
    if keywords == [] then TopicalMap([], [])
    else
      var st := Grouped(keywords);
      TopicalMap(SortDesc(ReselectAll(SortDesc(st.clusters, ParentVolume)), ParentVolume), st.orphans)
  }

  /** The state after the grouping loop, before any re-selection. */
  function Grouped(keywords: seq<KeywordRecord>): Assignment {
    Assign(SortDesc(keywords, Strength))
  }

  /**
   * The inner search of the grouping loop: add `kw` as a child of the first cluster whose
   * parent is related to it, reporting whether one was found.
   */
  method JoinFirstRelated(clusters: seq<Cluster>, kw: KeywordRecord) returns (out: seq<Cluster>, found: bool)
    ensures found <==> FirstRelated(clusters, kw).Some?
    ensures found ==> out == clusters[FirstRelated(clusters, kw).value := AddChild(clusters[FirstRelated(clusters, kw).value], kw)]
    ensures !found ==> out == clusters
  {
    out := clusters;
    found := false;
    var j := 0;
    while j < |out|
      invariant 0 <= j <= |out|
      invariant !found && out == clusters
      invariant forall m :: 0 <= m < j ==> !KeywordsAreRelated(kw, out[m].parent)
    {
      if KeywordsAreRelated(kw, out[j].parent) {
        out := out[j := AddChild(out[j], kw)];
        found := true;
        assert FirstRelated(clusters, kw) == Some(j);
        return;
      }
      j := j + 1;
    }
  }

  /** The grouping loop over the records sorted by connection strength. */
  method Group(sorted: seq<KeywordRecord>) returns (st: Assignment)
    ensures st == Assign(sorted)
  {
    var clusters: seq<Cluster> := [];
    var orphans: seq<KeywordRecord> := [];
    var taken: set<string> := {};
    for i := 0 to |sorted|
      invariant Assignment(clusters, orphans, taken) == Assign(sorted[..i])
    {
      assert sorted[..i + 1][..i] == sorted[..i];
      var kw := sorted[i];
      var key := Key(kw);
      if key in taken {
        continue;
      }
      if kw.connectionStrength >= Threshold {
        var found;
        clusters, found := JoinFirstRelated(clusters, kw);
        if !found {
          clusters := clusters + [Cluster(kw, [])];
        }
        taken := taken + {key};
      } else {
        orphans := orphans + [kw];
      }
    }
    assert sorted[..|sorted|] == sorted;
    st := Assignment(clusters, orphans, taken);
  }

  method ClusterKeywords(keywords: seq<KeywordRecord>) returns (result: TopicalMap)
    ensures result == Clustered(keywords)
  {
    if keywords == [] {
      return TopicalMap([], []);
    }
    var sorted := SortDesc(keywords, Strength);
    var st := Group(sorted);
    var clusters := SortDesc(st.clusters, ParentVolume);
    ghost var byVolume := clusters;
    clusters := ReplaceEach(clusters, Reselect);
    ReselectAllPointwise(byVolume, clusters);
    clusters := SortDesc(clusters, ParentVolume);
    result := TopicalMap(clusters, st.orphans);
  }

  /**
   * The `foreach ($clusters as &$cluster)` loop: every cluster is replaced in place by
   * `update` of itself.
   */
  method ReplaceEach(cs: seq<Cluster>, update: Cluster -> Cluster) returns (out: seq<Cluster>)
    ensures |out| == |cs|
    ensures forall m :: 0 <= m < |cs| ==> out[m] == update(cs[m])
  {
    out := cs;
    for i := 0 to |out|
      invariant |out| == |cs|
      invariant forall m :: 0 <= m < i ==> out[m] == update(cs[m])
      invariant forall m :: i <= m < |out| ==> out[m] == cs[m]
    {
      out := out[i := update(out[i])];
    }
  }

  /** A list that holds the re-selection of each cluster, index by index, is `ReselectAll`. */
  lemma ReselectAllPointwise(cs: seq<Cluster>, out: seq<Cluster>)
    requires |out| == |cs|
    requires forall m :: 0 <= m < |cs| ==> out[m] == Reselect(cs[m])
    ensures out == ReselectAll(cs)
  {
  }

  // ---------------------------------------------------------------------------
  // Bookkeeping about cluster members

  lemma {:induction false} FlattenConcat(a: seq<Cluster>, b: seq<Cluster>)
    ensures Flatten(a + b) == Flatten(a) + Flatten(b)
  {
    if a == [] {
      assert a + b == b;
    } else {
      assert (a + b)[1..] == a[1..] + b;
      FlattenConcat(a[1..], b);
    }
  }

  lemma FlattenSnoc(cs: seq<Cluster>, c: Cluster)
    ensures Flatten(cs + [c]) == Flatten(cs) + Members(c)
  {
    FlattenConcat(cs, [c]);
    assert [c][1..] == [];
  }

  lemma FlattenCons(c: Cluster, cs: seq<Cluster>)
    ensures Flatten([c] + cs) == Members(c) + Flatten(cs)
  {
    assert ([c] + cs)[1..] == cs;
  }

  /** Adding a child adds exactly that record to the members. */
  lemma FlattenAddChild(cs: seq<Cluster>, j: nat, kw: KeywordRecord)
    requires j < |cs|
    ensures multiset(Flatten(cs[j := AddChild(cs[j], kw)])) == multiset(Flatten(cs)) + multiset{kw}
  {
    var c' := AddChild(cs[j], kw);
    assert cs == cs[..j] + ([cs[j]] + cs[j + 1..]);
    assert cs[j := c'] == cs[..j] + ([c'] + cs[j + 1..]);
    FlattenConcat(cs[..j], [cs[j]] + cs[j + 1..]);
    FlattenConcat(cs[..j], [c'] + cs[j + 1..]);
    FlattenCons(cs[j], cs[j + 1..]);
    FlattenCons(c', cs[j + 1..]);
    assert Members(c') == Members(cs[j]) + [kw];
  }

  /** Reordering the clusters does not change the multiset of their members. */
  lemma {:induction false} FlattenPermutation(a: seq<Cluster>, b: seq<Cluster>)
    requires multiset(a) == multiset(b)
    ensures multiset(Flatten(a)) == multiset(Flatten(b))
  {
    if a == [] {
      assert |b| == |multiset(b)| == 0;
    } else {
      assert a[0] in multiset(b);
      var k :| 0 <= k < |b| && b[k] == a[0];
      var rest := b[..k] + b[k + 1..];
      RemoveAtMultiset(b, k);
      assert a == [a[0]] + a[1..];
      assert multiset(a[1..]) == multiset(a) - multiset{a[0]};
      FlattenPermutation(a[1..], rest);
      FlattenRemoveAt(b, k);
      FlattenCons(a[0], a[1..]);
    }
  }

  lemma RemoveAtMultiset(b: seq<Cluster>, k: nat)
    requires k < |b|
    ensures multiset(b[..k] + b[k + 1..]) == multiset(b) - multiset{b[k]}
  {
    SplitAt(b, k);
  }

  /** Taking out the `k`-th cluster takes out exactly its members. */
  lemma FlattenRemoveAt(b: seq<Cluster>, k: nat)
    requires k < |b|
    ensures multiset(Flatten(b)) == multiset(Members(b[k])) + multiset(Flatten(b[..k] + b[k + 1..]))
  {
    var left := b[..k];
    var right := b[k + 1..];
    SplitAt(b, k);
    FlattenConcat(left, [b[k]] + right);
    FlattenCons(b[k], right);
    FlattenConcat(left, right);
    calc {
      multiset(Flatten(b));
      multiset(Flatten(left) + (Members(b[k]) + Flatten(right)));
      multiset(Flatten(left)) + multiset(Members(b[k])) + multiset(Flatten(right));
      multiset(Members(b[k])) + multiset(Flatten(left) + Flatten(right));
      multiset(Members(b[k])) + multiset(Flatten(left + right));
    }
  }

  lemma KeySetOfSum(a: seq<KeywordRecord>, b: seq<KeywordRecord>, kw: KeywordRecord)
    requires multiset(a) == multiset(b) + multiset{kw}
    ensures KeySet(a) == KeySet(b) + {Key(kw)}
  {
    forall k | k in KeySet(a) ensures k in KeySet(b) + {Key(kw)} {
      var x :| x in a && Key(x) == k;
      assert x in multiset(a);
    }
    forall k | k in KeySet(b) + {Key(kw)} ensures k in KeySet(a) {
      if k == Key(kw) {
        assert kw in multiset(a);
      } else {
        var x :| x in b && Key(x) == k;
        assert x in multiset(a);
      }
    }
  }

  lemma KeySetOfPermutation(a: seq<KeywordRecord>, b: seq<KeywordRecord>)
    requires multiset(a) == multiset(b)
    ensures KeySet(a) == KeySet(b)
  {
    forall k | k in KeySet(a) ensures k in KeySet(b) {
      var x :| x in a && Key(x) == k;
      assert x in multiset(b);
    }
    forall k | k in KeySet(b) ensures k in KeySet(a) {
      var x :| x in b && Key(x) == k;
      assert x in multiset(a);
    }
  }

  /** Taking one element out of `b` at `k` leaves the rest of its multiset. */
  lemma RemoveAt<T>(b: seq<T>, k: nat)
    requires k < |b|
    ensures b == b[..k] + [b[k]] + b[k + 1..]
    ensures multiset(b[..k] + b[k + 1..]) == multiset(b) - multiset{b[k]}
  {
    assert b == b[..k] + [b[k]] + b[k + 1..];
    assert multiset(b) == multiset(b[..k]) + multiset{b[k]} + multiset(b[k + 1..]);
  }

  lemma DistinctKeysTail(a: seq<KeywordRecord>)
    requires a != [] && DistinctKeys(a)
    ensures DistinctKeys(a[1..]) && Key(a[0]) !in KeySet(a[1..])
  {
    forall i, j | 0 <= i < j < |a[1..]| ensures Key(a[1..][i]) != Key(a[1..][j]) {
      assert a[1..][i] == a[i + 1] && a[1..][j] == a[j + 1];
    }
    forall x | x in a[1..] ensures Key(x) != Key(a[0]) {
      var m :| 0 <= m < |a[1..]| && a[1..][m] == x;
      assert a[m + 1] == x;
    }
  }

  lemma DistinctKeysInsertAt(rest: seq<KeywordRecord>, k: nat, x: KeywordRecord)
    requires k <= |rest| && DistinctKeys(rest) && Key(x) !in KeySet(rest)
    ensures DistinctKeys(rest[..k] + [x] + rest[k..])
  {
    var b := rest[..k] + [x] + rest[k..];
    forall i, j | 0 <= i < j < |b| ensures Key(b[i]) != Key(b[j]) {
      if i == k {
        assert b[j] == rest[j - 1];
      } else if j == k {
        assert b[i] == rest[i];
      } else {
        var i' := if i < k then i else i - 1;
        var j' := if j < k then j else j - 1;
        assert b[i] == rest[i'] && b[j] == rest[j'];
      }
    }
  }

  /** Distinctness of lower-cased keys survives any reordering. */
  lemma {:induction false} DistinctKeysPermutation(a: seq<KeywordRecord>, b: seq<KeywordRecord>)
    requires multiset(a) == multiset(b)
    requires DistinctKeys(a)
    ensures DistinctKeys(b)
  {
    if a == [] {
      assert |b| == |multiset(b)| == 0;
    } else {
      assert a[0] in multiset(b);
      var k :| 0 <= k < |b| && b[k] == a[0];
      var rest := b[..k] + b[k + 1..];
      RemoveAt(b, k);
      assert a == [a[0]] + a[1..];
      assert multiset(a[1..]) == multiset(a) - multiset{a[0]};
      DistinctKeysTail(a);
      DistinctKeysPermutation(a[1..], rest);
      KeySetOfPermutation(a[1..], rest);
      assert rest[..k] == b[..k] && rest[k..] == b[k + 1..];
      DistinctKeysInsertAt(rest, k, a[0]);
    }
  }

  lemma DistinctKeysSnoc(s: seq<KeywordRecord>, kw: KeywordRecord)
    requires DistinctKeys(s) && Key(kw) !in KeySet(s)
    ensures DistinctKeys(s + [kw])
  {
    forall i, j | 0 <= i < j < |s + [kw]| ensures Key((s + [kw])[i]) != Key((s + [kw])[j]) {
      if j == |s| {
        assert (s + [kw])[i] == s[i];
        assert Key(s[i]) in KeySet(s);
      }
    }
  }

  // ---------------------------------------------------------------------------
  // The grouping pass

  /**
   * `$assigned` holds exactly the lower-cased keys of cluster members: a record is marked
   * when it becomes a parent or a child, and orphans are never marked.
   */
  lemma {:induction false} AssignTaken(s: seq<KeywordRecord>)
    ensures Assign(s).taken == KeySet(Flatten(Assign(s).clusters))
  {
    if s != [] {
      var p := s[..|s| - 1];
      var kw := s[|s| - 1];
      var st := Assign(p);
      AssignTaken(p);
      if Key(kw) !in st.taken && kw.connectionStrength >= Threshold {
        match FirstRelated(st.clusters, kw)
        case Some(j) =>
          FlattenAddChild(st.clusters, j, kw);
          KeySetOfSum(Flatten(st.clusters[j := AddChild(st.clusters[j], kw)]), Flatten(st.clusters), kw);
        case None =>
          FlattenSnoc(st.clusters, Cluster(kw, []));
          assert Members(Cluster(kw, [])) == [kw];
          KeySetOfSum(Flatten(st.clusters) + [kw], Flatten(st.clusters), kw);
      }
    }
  }

  /** One step adds its record to the clusters, to the orphans, or nowhere. */
  lemma StepAdds(st: Assignment, kw: KeywordRecord)
    ensures Key(kw) !in st.taken && kw.connectionStrength >= Threshold ==>
      multiset(Flatten(Step(st, kw).clusters)) == multiset(Flatten(st.clusters)) + multiset{kw}
      && Step(st, kw).orphans == st.orphans
    ensures Key(kw) !in st.taken && kw.connectionStrength < Threshold ==>
      Step(st, kw).clusters == st.clusters && Step(st, kw).orphans == st.orphans + [kw]
    ensures Key(kw) in st.taken ==> Step(st, kw) == st
  {
    if Key(kw) !in st.taken && kw.connectionStrength >= Threshold {
      match FirstRelated(st.clusters, kw)
      case Some(j) =>
        FlattenAddChild(st.clusters, j, kw);
      case None =>
        FlattenSnoc(st.clusters, Cluster(kw, []));
        assert Members(Cluster(kw, [])) == [kw];
    }
  }

  /** Every record placed comes from the input, and no more often than it occurs there. */
  lemma {:induction false} AssignWithin(s: seq<KeywordRecord>)
    ensures multiset(Flatten(Assign(s).clusters)) + multiset(Assign(s).orphans) <= multiset(s)
  {
    if s != [] {
      var p := s[..|s| - 1];
      var kw := s[|s| - 1];
      AssignWithin(p);
      StepAdds(Assign(p), kw);
      SnocSplit(s);
      assert multiset(s) == multiset(p) + multiset{kw};
    }
  }

  /** Cluster members are at or above the threshold, orphans below it. */
  lemma {:induction false} AssignThresholds(s: seq<KeywordRecord>)
    ensures forall x :: x in Flatten(Assign(s).clusters) ==> x.connectionStrength >= Threshold
    ensures forall o :: o in Assign(s).orphans ==> o.connectionStrength < Threshold
  {
    if s != [] {
      var p := s[..|s| - 1];
      var kw := s[|s| - 1];
      AssignThresholds(p);
      StepAdds(Assign(p), kw);
      forall x | x in Flatten(Assign(s).clusters) ensures x.connectionStrength >= Threshold {
        assert x in multiset(Flatten(Assign(s).clusters));
      }
    }
  }

  /** No two cluster members, in the same cluster or not, share a lower-cased key. */
  lemma {:induction false} AssignDistinct(s: seq<KeywordRecord>)
    ensures DistinctKeys(Flatten(Assign(s).clusters))
  {
    if s != [] {
      var p := s[..|s| - 1];
      var kw := s[|s| - 1];
      var st := Assign(p);
      AssignDistinct(p);
      AssignTaken(p);
      StepAdds(st, kw);
      if Key(kw) !in st.taken && kw.connectionStrength >= Threshold {
        DistinctKeysSnoc(Flatten(st.clusters), kw);
        DistinctKeysPermutation(Flatten(st.clusters) + [kw], Flatten(Assign(s).clusters));
      }
    }
  }

  /** A record whose lower-cased key already belongs to a cluster member is skipped. */
  lemma AssignSkipsAssignedKey(s: seq<KeywordRecord>)
    requires s != [] && Key(s[|s| - 1]) in KeySet(Flatten(Assign(s[..|s| - 1]).clusters))
    ensures Assign(s) == Assign(s[..|s| - 1])
  {
    AssignTaken(s[..|s| - 1]);
  }

  lemma DistinctKeysPrefix(s: seq<KeywordRecord>, n: nat)
    requires n <= |s| && DistinctKeys(s)
    ensures DistinctKeys(s[..n])
  {
    forall i, j | 0 <= i < j < n ensures Key(s[..n][i]) != Key(s[..n][j]) {
      assert s[..n][i] == s[i] && s[..n][j] == s[j];
    }
  }

  /** With distinct keys, the record being placed has not been assigned yet. */
  lemma LastKeyNotTaken(s: seq<KeywordRecord>)
    requires s != [] && DistinctKeys(s)
    ensures Key(s[|s| - 1]) !in Assign(s[..|s| - 1]).taken
  {
    var p := s[..|s| - 1];
    AssignTaken(p);
    AssignWithin(p);
    forall y | y in Flatten(Assign(p).clusters) ensures Key(y) != Key(s[|s| - 1]) {
      assert y in multiset(p);
      var i :| 0 <= i < |p| && p[i] == y;
      assert s[i] == y;
    }
  }

  /**
   * Coverage: when the lower-cased keys of the input are distinct, every record is placed
   * exactly once, as a parent, a child or an orphan.
   */
  lemma {:induction false} AssignCovers(s: seq<KeywordRecord>)
    requires DistinctKeys(s)
    ensures multiset(Flatten(Assign(s).clusters)) + multiset(Assign(s).orphans) == multiset(s)
  {
    if s != [] {
      var p := s[..|s| - 1];
      var kw := s[|s| - 1];
      DistinctKeysPrefix(s, |s| - 1);
      AssignCovers(p);
      LastKeyNotTaken(s);
      StepAdds(Assign(p), kw);
      SnocSplit(s);
      assert multiset(s) == multiset(p) + multiset{kw};
    }
  }

  /**
   * On input sorted by connection strength, orphans stay in that order, and no orphan's
   * key is ever marked as assigned.
   */
  lemma {:induction false} AssignOrphans(s: seq<KeywordRecord>)
    requires SortedDesc(s, Strength)
    ensures SortedDesc(Assign(s).orphans, Strength)
    ensures forall o :: o in Assign(s).orphans ==> Key(o) !in Assign(s).taken
  {
    if s != [] {
      var p := s[..|s| - 1];
      var kw := s[|s| - 1];
      var st := Assign(p);
      SortedPrefix(s);
      AssignOrphans(p);
      AssignThresholds(p);
      StepAdds(st, kw);
      OrphansAtLeastLast(s);
      OrphansOnlyBeforeWeak(st.orphans, kw);
      if Key(kw) !in st.taken && kw.connectionStrength < Threshold {
        SortedSnoc(st.orphans, kw);
      }
    }
  }

  /** With distinct keys, the orphans are exactly the below-threshold records, in input order. */
  lemma {:induction false} AssignOrphansInOrder(s: seq<KeywordRecord>)
    requires DistinctKeys(s)
    ensures Assign(s).orphans == BelowThreshold(s)
  {
    if s != [] {
      var p := s[..|s| - 1];
      DistinctKeysPrefix(s, |s| - 1);
      AssignOrphansInOrder(p);
      LastKeyNotTaken(s);
      StepAdds(Assign(p), s[|s| - 1]);
    }
  }

  lemma SortedPrefix(s: seq<KeywordRecord>)
    requires s != [] && SortedDesc(s, Strength)
    ensures SortedDesc(s[..|s| - 1], Strength)
  {
    var p := s[..|s| - 1];
    forall i, j | 0 <= i < j < |p| ensures Strength(p[i]) >= Strength(p[j]) {
      assert p[i] == s[i] && p[j] == s[j];
    }
  }

  /** A record no stronger than the sorted orphans may follow them. */
  lemma SortedSnoc(os: seq<KeywordRecord>, kw: KeywordRecord)
    requires SortedDesc(os, Strength)
    requires forall o :: o in os ==> Strength(o) >= Strength(kw)
    ensures SortedDesc(os + [kw], Strength)
  {
    var t := os + [kw];
    forall i, j | 0 <= i < j < |t| ensures Strength(t[i]) >= Strength(t[j]) {
      assert t[i] == os[i];
      if j < |os| {
        assert t[j] == os[j];
      } else {
        assert os[i] in os;
      }
    }
  }

  /** Below-threshold records at least as strong as `kw` exist only when `kw` is below it too. */
  lemma OrphansOnlyBeforeWeak(os: seq<KeywordRecord>, kw: KeywordRecord)
    requires forall o :: o in os ==> Strength(o) >= Strength(kw)
    requires forall o :: o in os ==> o.connectionStrength < Threshold
    ensures os == [] || kw.connectionStrength < Threshold
  {
    if os != [] {
      assert os[0] in os;
    }
  }

  /** On sorted input, the orphans so far are at least as strong as the record being placed. */
  lemma OrphansAtLeastLast(s: seq<KeywordRecord>)
    requires s != [] && SortedDesc(s, Strength)
    ensures forall o :: o in Assign(s[..|s| - 1]).orphans ==> Strength(o) >= Strength(s[|s| - 1])
  {
    var p := s[..|s| - 1];
    AssignWithin(p);
    forall o | o in Assign(p).orphans ensures Strength(o) >= Strength(s[|s| - 1]) {
      assert o in multiset(p);
      var i :| 0 <= i < |p| && p[i] == o;
      assert s[i] == o;
    }
  }

  // ---------------------------------------------------------------------------
  // Re-selection of parents

  /** Re-selection keeps the cluster's members, only rearranging them. */
  lemma ReselectMembers(c: Cluster)
    ensures multiset(Members(Reselect(c))) == multiset(Members(c))
  {
    var all := SortDesc(Members(c), Volume);
    assert all == [all[0]] + all[1..];
    assert Members(Reselect(c)) == [all[0]] + SortDesc(all[1..], Volume);
  }

  /** After re-selection the parent has the largest volume and the children come by volume. */
  lemma ReselectOrders(c: Cluster)
    ensures SortedDesc(Reselect(c).children, Volume)
    ensures forall ch :: ch in Reselect(c).children ==> Volume(ch) <= Volume(Reselect(c).parent)
  {
    var all := SortDesc(Members(c), Volume);
    forall ch | ch in Reselect(c).children ensures Volume(ch) <= Volume(Reselect(c).parent) {
      assert ch in multiset(all[1..]);
      var i :| 0 <= i < |all[1..]| && all[1..][i] == ch;
      assert all[i + 1] == ch;
    }
  }

  /**
   * The new parent is the FIRST member of largest volume, counting the old parent as the
   * first member.
   */
  lemma ReselectFirstMax(c: Cluster)
    ensures exists i :: 0 <= i < |Members(c)| && Members(c)[i] == Reselect(c).parent
              && (forall j :: 0 <= j < i ==> Volume(Members(c)[j]) < Volume(Members(c)[i]))
              && (forall j :: 0 <= j < |Members(c)| ==> Volume(Members(c)[j]) <= Volume(Members(c)[i]))
  {
    SortDescHeadIsFirstMaximum(Members(c), Volume);
  }

  /** On a volume tie with a child, the old parent stays the parent. */
  lemma ReselectKeepsParent(c: Cluster)
    requires forall ch :: ch in c.children ==> Volume(ch) <= Volume(c.parent)
    ensures Reselect(c).parent == c.parent
  {
    var m := Members(c);
    forall j | 0 <= j < |m| ensures Volume(m[j]) <= Volume(m[0]) {
      if j > 0 {
        assert m[j] == c.children[j - 1];
      }
    }
    SortDescKeepsLeadingMaximum(m, Volume);
  }

  lemma {:induction false} FlattenReselectAll(cs: seq<Cluster>)
    ensures multiset(Flatten(ReselectAll(cs))) == multiset(Flatten(cs))
  {
    if cs != [] {
      var c := cs[0];
      var rest := cs[1..];
      var all := ReselectAll(cs);
      assert all[1..] == ReselectAll(rest);
      assert Flatten(all) == Members(Reselect(c)) + Flatten(ReselectAll(rest));
      assert Flatten(cs) == Members(c) + Flatten(rest);
      FlattenReselectAll(rest);
      ReselectMembers(c);
      calc {
        multiset(Flatten(all));
        multiset(Members(Reselect(c))) + multiset(Flatten(ReselectAll(rest)));
        multiset(Members(c)) + multiset(Flatten(rest));
        multiset(Flatten(cs));
      }
    }
  }

  /** The join search looks only at parents: clusters with the same parents give the same answer. */
  lemma {:induction false} JoinIgnoresChildren(a: seq<Cluster>, b: seq<Cluster>, kw: KeywordRecord)
    requires |a| == |b| && forall i :: 0 <= i < |a| ==> a[i].parent == b[i].parent
    ensures FirstRelated(a, kw) == FirstRelated(b, kw)
  {
    if a != [] {
      JoinIgnoresChildren(a[1..], b[1..], kw);
    }
  }

  // ---------------------------------------------------------------------------
  // What `clusterKeywords` returns

  /** The returned clusters hold the grouped members, rearranged; orphans are passed through. */
  lemma ClusteredMembers(keywords: seq<KeywordRecord>)
    requires keywords != []
    ensures multiset(Flatten(Clustered(keywords).clusters)) == multiset(Flatten(Grouped(keywords).clusters))
    ensures Clustered(keywords).orphans == Grouped(keywords).orphans
  {
    var byVolume := SortDesc(Grouped(keywords).clusters, ParentVolume);
    FlattenPermutation(Grouped(keywords).clusters, byVolume);
    FlattenReselectAll(byVolume);
    FlattenPermutation(ReselectAll(byVolume), Clustered(keywords).clusters);
  }

  /**
   * Empty input gives an empty map; otherwise every record placed comes from the input, and
   * no two cluster members share a lower-cased key.
   */
  lemma ClusteredWithin(keywords: seq<KeywordRecord>)
    ensures keywords == [] ==> Clustered(keywords) == TopicalMap([], [])
    ensures multiset(Flatten(Clustered(keywords).clusters)) + multiset(Clustered(keywords).orphans)
            <= multiset(keywords)
    ensures DistinctKeys(Flatten(Clustered(keywords).clusters))
  {
    if keywords != [] {
      ClusteredMembers(keywords);
      AssignWithin(SortDesc(keywords, Strength));
      AssignDistinct(SortDesc(keywords, Strength));
      DistinctKeysPermutation(Flatten(Grouped(keywords).clusters), Flatten(Clustered(keywords).clusters));
    }
  }

  /** With distinct lower-cased input keys, each record appears exactly once in the result. */
  lemma ClusteredCovers(keywords: seq<KeywordRecord>)
    requires DistinctKeys(keywords)
    ensures multiset(Flatten(Clustered(keywords).clusters)) + multiset(Clustered(keywords).orphans)
            == multiset(keywords)
  {
    if keywords != [] {
      ClusteredMembers(keywords);
      DistinctKeysPermutation(keywords, SortDesc(keywords, Strength));
      AssignCovers(SortDesc(keywords, Strength));
    }
  }

  /** Cluster members have connection strength at least 0.3, orphans below it. */
  lemma ClusteredThresholds(keywords: seq<KeywordRecord>)
    ensures forall x :: x in Flatten(Clustered(keywords).clusters) ==> x.connectionStrength >= Threshold
    ensures forall o :: o in Clustered(keywords).orphans ==> o.connectionStrength < Threshold
  {
    if keywords != [] {
      ClusteredMembers(keywords);
      AssignThresholds(SortDesc(keywords, Strength));
      forall x | x in Flatten(Clustered(keywords).clusters) ensures x.connectionStrength >= Threshold {
        assert x in multiset(Flatten(Grouped(keywords).clusters));
      }
    }
  }

  /**
   * With distinct lower-cased input keys, a record at or above the threshold ends up in a
   * cluster and a record below it among the orphans.
   */
  lemma ClusteredPlacement(keywords: seq<KeywordRecord>)
    requires DistinctKeys(keywords)
    ensures forall x :: x in keywords && x.connectionStrength >= Threshold ==>
      x in Flatten(Clustered(keywords).clusters) && x !in Clustered(keywords).orphans
    ensures forall x :: x in keywords && x.connectionStrength < Threshold ==>
      x in Clustered(keywords).orphans && x !in Flatten(Clustered(keywords).clusters)
  {
    ClusteredCovers(keywords);
    ClusteredThresholds(keywords);
    forall x | x in keywords
      ensures x in Flatten(Clustered(keywords).clusters) || x in Clustered(keywords).orphans
    {
      assert x in multiset(keywords);
    }
  }

  /**
   * Orphans come in non-increasing connection strength, and no orphan shares a lower-cased
   * key with a cluster member. With distinct keys they are exactly the below-threshold
   * records in the order of the stable strength sort, so equal strengths keep input order.
   */
  lemma ClusteredOrphans(keywords: seq<KeywordRecord>)
    ensures SortedDesc(Clustered(keywords).orphans, Strength)
    ensures forall o :: o in Clustered(keywords).orphans ==> Key(o) !in KeySet(Flatten(Clustered(keywords).clusters))
    ensures DistinctKeys(keywords) ==>
      Clustered(keywords).orphans == BelowThreshold(SortDesc(keywords, Strength))
  {
    if keywords != [] {
      ClusteredMembers(keywords);
      AssignOrphans(SortDesc(keywords, Strength));
      AssignTaken(SortDesc(keywords, Strength));
      KeySetOfPermutation(Flatten(Grouped(keywords).clusters), Flatten(Clustered(keywords).clusters));
      if DistinctKeys(keywords) {
        DistinctKeysPermutation(keywords, SortDesc(keywords, Strength));
        AssignOrphansInOrder(SortDesc(keywords, Strength));
      }
    } else {
      assert SortDesc(keywords, Strength) == [];
    }
  }

  lemma InReselectAll(cs: seq<Cluster>, c: Cluster) returns (g: Cluster)
    requires c in ReselectAll(cs)
    ensures g in cs && c == Reselect(g)
  {
    var i :| 0 <= i < |cs| && ReselectAll(cs)[i] == c;
    g := cs[i];
  }

  /** The grouped cluster that a returned cluster was re-selected from. */
  lemma SourceGroup(groups: seq<Cluster>, c: Cluster) returns (g: Cluster)
    requires c in SortDesc(ReselectAll(SortDesc(groups, ParentVolume)), ParentVolume)
    ensures g in groups && c == Reselect(g)
  {
    InSorted(ReselectAll(SortDesc(groups, ParentVolume)), ParentVolume, c);
    g := InReselectAll(SortDesc(groups, ParentVolume), c);
    InSorted(groups, ParentVolume, g);
  }

  /**
   * Each returned cluster is a grouped cluster after re-selection; clusters come in
   * non-increasing parent volume, and in each cluster the parent has the largest volume and
   * the children come in non-increasing volume.
   */
  lemma ClusteredShape(keywords: seq<KeywordRecord>)
    ensures SortedDesc(Clustered(keywords).clusters, ParentVolume)
    ensures forall c :: c in Clustered(keywords).clusters ==>
      exists g :: g in Grouped(keywords).clusters && c == Reselect(g)
    ensures forall c :: c in Clustered(keywords).clusters ==>
      SortedDesc(c.children, Volume) && forall ch :: ch in c.children ==> Volume(ch) <= Volume(c.parent)
  {
    if keywords != [] {
      forall c | c in Clustered(keywords).clusters
        ensures exists g :: g in Grouped(keywords).clusters && c == Reselect(g)
        ensures SortedDesc(c.children, Volume) && forall ch :: ch in c.children ==> Volume(ch) <= Volume(c.parent)
      {
        var g := SourceGroup(Grouped(keywords).clusters, c);
        ReselectOrders(g);
      }
    }
  }

  /**
   * The final sort is stable: clusters of equal parent volume keep the order they had after
   * the sort that precedes re-selection.
   */
  lemma ClusteredTies(keywords: seq<KeywordRecord>, v: real)
    requires keywords != []
    ensures WithKey(Clustered(keywords).clusters, ParentVolume, v)
         == WithKey(ReselectAll(SortDesc(Grouped(keywords).clusters, ParentVolume)), ParentVolume, v)
  {
    SortDescStable(ReselectAll(SortDesc(Grouped(keywords).clusters, ParentVolume)), ParentVolume, v);
  }

  /** The first step of the worked grouping: "xy" founds a cluster. */
  lemma ScenarioFound(a: KeywordRecord)
    requires a == KeywordRecord("xy", 10, 0, 0.9)
    ensures Assign([a]) == Assignment([Cluster(a, [])], [], {"xy"})
  {
    RelatedScenario(a, KeywordRecord("xy z", 5, 0, 0.8), KeywordRecord("q", 1, 0, 0.1));
    assert [a][..0] == [];
  }

  /** The second step of the worked grouping: "xy z" joins the cluster founded by "xy". */
  lemma ScenarioJoin(a: KeywordRecord, b: KeywordRecord)
    requires a == KeywordRecord("xy", 10, 0, 0.9)
    requires b == KeywordRecord("xy z", 5, 0, 0.8)
    ensures Assign([a, b]) == Assignment([Cluster(a, [b])], [], {"xy", "xy z"})
  {
    RelatedScenario(a, b, KeywordRecord("q", 1, 0, 0.1));
    ScenarioFound(a);
    var st1 := Assignment([Cluster(a, [])], [], {"xy"});
    assert [a, b][..1] == [a];
    assert FirstRelated(st1.clusters, b) == Some(0);
    assert AddChild(st1.clusters[0], b) == Cluster(a, [b]);
    assert st1.clusters[0 := Cluster(a, [b])] == [Cluster(a, [b])];
    assert st1.taken + {Key(b)} == {"xy", "xy z"};
  }

  /**
   * A worked grouping: "xy" founds a cluster, "xy z" shares the word "xy" with its parent
   * and joins it, and the weak "q" becomes an orphan.
   */
  lemma GroupingScenario()
    ensures var a := KeywordRecord("xy", 10, 0, 0.9);
      var b := KeywordRecord("xy z", 5, 0, 0.8);
      var c := KeywordRecord("q", 1, 0, 0.1);
      Assign([a, b, c]) == Assignment([Cluster(a, [b])], [c], {"xy", "xy z"})
  {
    var a := KeywordRecord("xy", 10, 0, 0.9);
    var b := KeywordRecord("xy z", 5, 0, 0.8);
    var c := KeywordRecord("q", 1, 0, 0.1);
    var st2 := Assignment([Cluster(a, [b])], [], {"xy", "xy z"});
    RelatedScenario(a, b, c);
    ScenarioJoin(a, b);
    assert Key(c) !in st2.taken;
    StepAdds(st2, c);
    AssignSnoc([a, b], c);
    assert [a, b] + [c] == [a, b, c];
  }

  /** The grouping loop runs one more step for one more record. */
  lemma AssignSnoc(p: seq<KeywordRecord>, kw: KeywordRecord)
    ensures Assign(p + [kw]) == Step(Assign(p), kw)
  {
    assert (p + [kw])[..|p|] == p;
  }

  /** The worked records are already in strength order. */
  lemma ScenarioSorted(a: KeywordRecord, b: KeywordRecord, c: KeywordRecord)
    requires a == KeywordRecord("xy", 10, 0, 0.9)
    requires b == KeywordRecord("xy z", 5, 0, 0.8)
    requires c == KeywordRecord("q", 1, 0, 0.1)
    ensures SortDesc([a, b, c], Strength) == [a, b, c]
  {
    assert [a, b, c][1..] == [b, c];
    assert [b, c][1..] == [c];
    assert SortDesc([c], Strength) == [c];
    assert SortDesc([b, c], Strength) == [b, c];
  }

  /** The worked cluster already has its largest-volume member as parent. */
  lemma ScenarioSettled(a: KeywordRecord, b: KeywordRecord)
    requires a == KeywordRecord("xy", 10, 0, 0.9)
    requires b == KeywordRecord("xy z", 5, 0, 0.8)
    ensures Reselect(Cluster(a, [b])) == Cluster(a, [b])
  {
    assert Members(Cluster(a, [b])) == [a, b];
    assert [a, b][1..] == [b];
    assert SortDesc([b], Volume) == [b];
    assert SortDesc([a, b], Volume) == [a, b];
  }

  /**
   * The whole clusterer on the worked records: one cluster with "xy" as parent and
   * "xy z" as child, and "q" as the only orphan.
   */
  lemma ClusteringScenario()
    ensures var a := KeywordRecord("xy", 10, 0, 0.9);
      var b := KeywordRecord("xy z", 5, 0, 0.8);
      var c := KeywordRecord("q", 1, 0, 0.1);
      Clustered([a, b, c]) == TopicalMap([Cluster(a, [b])], [c])
  {
    var a := KeywordRecord("xy", 10, 0, 0.9);
    var b := KeywordRecord("xy z", 5, 0, 0.8);
    var c := KeywordRecord("q", 1, 0, 0.1);
    var g := Cluster(a, [b]);
    ScenarioSorted(a, b, c);
    ScenarioSettled(a, b);
    GroupingScenario();
    assert Grouped([a, b, c]) == Assignment([g], [c], {"xy", "xy z"});
    SettledCluster(g);
  }

  /** A lone cluster whose parent already has the largest volume comes out unchanged. */
  lemma SettledCluster(g: Cluster)
    requires Reselect(g) == g
    ensures SortDesc(ReselectAll(SortDesc([g], ParentVolume)), ParentVolume) == [g]
  {
    assert SortDesc([g], ParentVolume) == [g];
    assert ReselectAll([g]) == [g];
  }
}
