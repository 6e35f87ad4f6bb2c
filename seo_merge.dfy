/**
 * `mergeAndDeduplicate`: combine two keyword lists into one, keyed by lower-cased text.
 * The PHP array `$merged` is an insertion-ordered dictionary; `Dict` keeps its key order
 * (`keys`) beside its contents (`vals`), so that `array_values` can be modelled exactly.
 */
module SeoMerge {
  import opened Util
  import opened Text
  import opened SeoRecords

  datatype Dict = Dict(keys: seq<string>, vals: map<string, KeywordRecord>)

  /** The shape every `$merged` has: keys listed once each, and each entry filed under its own key. */
  ghost predicate ValidDict(d: Dict) {
    && (forall i, j :: 0 <= i < j < |d.keys| ==> d.keys[i] != d.keys[j])
    && (forall k :: k in d.vals <==> k in d.keys)
    && (forall k :: k in d.vals ==> Key(d.vals[k]) == k)
  }

  /** `$merged[$key] = $kw`: a new key goes to the end, an existing key keeps its place. */
  function Put(d: Dict, kw: KeywordRecord): (r: Dict)
    requires ValidDict(d)
    ensures ValidDict(r)
  {
    var k := Key(kw);
    if k in d.vals then Dict(d.keys, d.vals[k := kw])
    else Dict(d.keys + [k], d.vals[k := kw])
  }

  /** The first loop: every primary record is stored, a later duplicate overwriting an earlier one. */
  function IndexPrimary(primary: seq<KeywordRecord>): (r: Dict)
    ensures ValidDict(r)
  {
    if primary == [] then Dict([], map[])
    else Put(IndexPrimary(primary[..|primary| - 1]), primary[|primary| - 1])
  }

  /** One step of the second loop: store when the key is new or the volume strictly larger. */
  function Offer(d: Dict, kw: KeywordRecord): (r: Dict)
    requires ValidDict(d)
    ensures ValidDict(r)
  {
    var k := Key(kw);
    if k !in d.vals || kw.searchVolume > d.vals[k].searchVolume then Put(d, kw) else d
  }

  function OfferAll(d: Dict, secondary: seq<KeywordRecord>): (r: Dict)
    requires ValidDict(d)
    ensures ValidDict(r)
  {
    if secondary == [] then d
    else Offer(OfferAll(d, secondary[..|secondary| - 1]), secondary[|secondary| - 1])
  }

  /** `array_values`: the entries in key order. */
  function Values(d: Dict): (r: seq<KeywordRecord>)
    requires ValidDict(d)
    ensures |r| == |d.keys|
  {
    seq(|d.keys|, i requires 0 <= i < |d.keys| => d.vals[d.keys[i]])
  }

  /** The result of `mergeAndDeduplicate($primary, $secondary)`. */
  function Merged(primary: seq<KeywordRecord>, secondary: seq<KeywordRecord>): seq<KeywordRecord> {
    Values(OfferAll(IndexPrimary(primary), secondary))
  }

  method MergeAndDeduplicate(primary: seq<KeywordRecord>, secondary: seq<KeywordRecord>)
    returns (merged: seq<KeywordRecord>)
    ensures merged == Merged(primary, secondary)
    ensures DistinctKeys(merged)
  {
    var keys: seq<string> := [];
    var vals: map<string, KeywordRecord> := map[];
    for i := 0 to |primary|
      invariant Dict(keys, vals) == IndexPrimary(primary[..i])
    {
      IndexPrimaryStep(primary, i);
      var kw := primary[i];
      var key := Key(kw);
      if key !in vals {
        keys := keys + [key];
      }
      vals := vals[key := kw];
    }
    assert primary[..|primary|] == primary;
    ghost var indexed := Dict(keys, vals);
    for i := 0 to |secondary|
      invariant Dict(keys, vals) == OfferAll(indexed, secondary[..i])
    {
      OfferAllStep(indexed, secondary, i);
      var kw := secondary[i];
      var key := Key(kw);
      if key !in vals || kw.searchVolume > vals[key].searchVolume {
        if key !in vals {
          keys := keys + [key];
        }
        vals := vals[key := kw];
      }
    }
    assert secondary[..|secondary|] == secondary;
    merged := Values(Dict(keys, vals));
    MergedDistinctKeys(primary, secondary);
  }

  lemma IndexPrimaryStep(primary: seq<KeywordRecord>, i: nat)
    requires i < |primary|
    ensures IndexPrimary(primary[..i + 1]) == Put(IndexPrimary(primary[..i]), primary[i])
  {
    assert primary[..i + 1][..i] == primary[..i];
  }

  lemma OfferAllStep(d: Dict, secondary: seq<KeywordRecord>, i: nat)
    requires ValidDict(d) && i < |secondary|
    ensures OfferAll(d, secondary[..i + 1]) == Offer(OfferAll(d, secondary[..i]), secondary[i])
  {
    assert secondary[..i + 1][..i] == secondary[..i];
  }

  // ---------------------------------------------------------------------------
  // What the merge computes, key by key

  /** The last primary record with key `k`: the one the first loop leaves in place. */
  function LastWithKey(s: seq<KeywordRecord>, k: string): (r: Option<KeywordRecord>)
    ensures r.Some? ==> r.value in s && Key(r.value) == k
    ensures r.None? ==> forall x :: x in s ==> Key(x) != k
  {
    if s == [] then None
    else if Key(s[|s| - 1]) == k then Some(s[|s| - 1])
    else LastWithKey(s[..|s| - 1], k)
  }

  /** The records of `s` with key `k`, in order. */
  function OfKey(s: seq<KeywordRecord>, k: string): (r: seq<KeywordRecord>)
    ensures forall x :: x in r <==> x in s && Key(x) == k
  {
    if s == [] then []
    else OfKey(s[..|s| - 1], k) + (if Key(s[|s| - 1]) == k then [s[|s| - 1]] else [])
  }

  /** The contenders for key `k`: the surviving primary record first, then the secondary ones. */
  function Candidates(primary: seq<KeywordRecord>, secondary: seq<KeywordRecord>, k: string): seq<KeywordRecord> {
    (match LastWithKey(primary, k) case Some(x) => [x] case None => []) + OfKey(secondary, k)
  }

  /** `w` is the earliest element of `c` with the largest search volume. */
  ghost predicate IsFirstMax(c: seq<KeywordRecord>, w: KeywordRecord) {
    exists i :: 0 <= i < |c| && c[i] == w
      && (forall j :: 0 <= j < |c| ==> c[j].searchVolume <= w.searchVolume)
      && (forall j :: 0 <= j < i ==> c[j].searchVolume < w.searchVolume)
  }

  lemma {:induction false} IndexPrimaryLookup(primary: seq<KeywordRecord>, k: string)
    ensures k in IndexPrimary(primary).vals <==> LastWithKey(primary, k).Some?
    ensures k in IndexPrimary(primary).vals ==> IndexPrimary(primary).vals[k] == LastWithKey(primary, k).value
  {
    if primary != [] {
      IndexPrimaryLookup(primary[..|primary| - 1], k);
    }
  }

  lemma FirstMaxOfOne(x: KeywordRecord)
    ensures IsFirstMax([x], x)
  {
    assert [x][0] == x;
  }

  /** A strictly larger newcomer becomes the first maximum. */
  lemma FirstMaxAppendLarger(c: seq<KeywordRecord>, w: KeywordRecord, x: KeywordRecord)
    requires IsFirstMax(c, w) && x.searchVolume > w.searchVolume
    ensures IsFirstMax(c + [x], x)
  {
    var c' := c + [x];
    assert c'[|c|] == x;
    forall j | 0 <= j < |c'| ensures c'[j].searchVolume <= x.searchVolume {
      if j < |c| { assert c'[j] == c[j]; }
    }
  }

  /** A newcomer that is not strictly larger leaves the first maximum in place. */
  lemma FirstMaxAppendSmaller(c: seq<KeywordRecord>, w: KeywordRecord, x: KeywordRecord)
    requires IsFirstMax(c, w) && x.searchVolume <= w.searchVolume
    ensures IsFirstMax(c + [x], w)
  {
    var i :| 0 <= i < |c| && c[i] == w
      && (forall j :: 0 <= j < |c| ==> c[j].searchVolume <= w.searchVolume)
      && (forall j :: 0 <= j < i ==> c[j].searchVolume < w.searchVolume);
    var c' := c + [x];
    assert c'[i] == w;
    forall j | 0 <= j < |c'| ensures c'[j].searchVolume <= w.searchVolume {
      if j < |c| { assert c'[j] == c[j]; }
    }
    forall j | 0 <= j < i ensures c'[j].searchVolume < w.searchVolume {
      assert c'[j] == c[j];
    }
  }

  lemma {:induction false} OfferAllLookup(primary: seq<KeywordRecord>, secondary: seq<KeywordRecord>, k: string)
    ensures var d := OfferAll(IndexPrimary(primary), secondary);
      && (k in d.vals <==> Candidates(primary, secondary, k) != [])
      && (k in d.vals ==> IsFirstMax(Candidates(primary, secondary, k), d.vals[k]))
  {
    if secondary == [] {
      OfferNoneLookup(primary, k);
    } else {
      var n := |secondary| - 1;
      var prev := secondary[..n];
      var x := secondary[n];
      SnocSplit(secondary);
      OfferAllLookup(primary, prev, k);
      OfferStep(primary, prev, x, k);
    }
  }

  /** With no secondary records the only contender is the surviving primary record. */
  lemma OfferNoneLookup(primary: seq<KeywordRecord>, k: string)
    ensures var d := OfferAll(IndexPrimary(primary), []);
      && (k in d.vals <==> Candidates(primary, [], k) != [])
      && (k in d.vals ==> IsFirstMax(Candidates(primary, [], k), d.vals[k]))
  {
    var d0 := IndexPrimary(primary);
    assert OfferAll(d0, []) == d0;
    assert OfKey([], k) == [];
    IndexPrimaryLookup(primary, k);
    if k in d0.vals {
      assert Candidates(primary, [], k) == [d0.vals[k]];
      FirstMaxOfOne(d0.vals[k]);
    } else {
      assert Candidates(primary, [], k) == [];
    }
  }

  lemma CandidatesSnoc(primary: seq<KeywordRecord>, prev: seq<KeywordRecord>, x: KeywordRecord, k: string)
    ensures Candidates(primary, prev + [x], k)
         == Candidates(primary, prev, k) + (if Key(x) == k then [x] else [])
  {
    var secondary := prev + [x];
    assert secondary[..|secondary| - 1] == prev;
    var lead := match LastWithKey(primary, k) case Some(y) => [y] case None => [];
    var tail := if Key(x) == k then [x] else [];
    assert OfKey(secondary, k) == OfKey(prev, k) + tail;
    assert lead + (OfKey(prev, k) + tail) == (lead + OfKey(prev, k)) + tail;
  }

  /** What one offer does to the entry for key `k`. */
  lemma OfferAt(dp: Dict, x: KeywordRecord, k: string)
    requires ValidDict(dp)
    ensures Key(x) != k ==> (k in Offer(dp, x).vals <==> k in dp.vals)
    ensures Key(x) != k && k in dp.vals ==> Offer(dp, x).vals[k] == dp.vals[k]
    ensures Key(x) == k ==> k in Offer(dp, x).vals
    ensures Key(x) == k ==>
      Offer(dp, x).vals[k]
        == (if k !in dp.vals || x.searchVolume > dp.vals[k].searchVolume then x else dp.vals[k])
  {
  }

  lemma OfferStep(primary: seq<KeywordRecord>, prev: seq<KeywordRecord>, x: KeywordRecord, k: string)
    requires var dp := OfferAll(IndexPrimary(primary), prev);
      && (k in dp.vals <==> Candidates(primary, prev, k) != [])
      && (k in dp.vals ==> IsFirstMax(Candidates(primary, prev, k), dp.vals[k]))
    ensures var d := OfferAll(IndexPrimary(primary), prev + [x]);
      && (k in d.vals <==> Candidates(primary, prev + [x], k) != [])
      && (k in d.vals ==> IsFirstMax(Candidates(primary, prev + [x], k), d.vals[k]))
  {
    var secondary := prev + [x];
    assert secondary[..|secondary| - 1] == prev;
    var dp := OfferAll(IndexPrimary(primary), prev);
    var d := OfferAll(IndexPrimary(primary), secondary);
    assert d == Offer(dp, x);
    OfferAt(dp, x, k);
    var cp := Candidates(primary, prev, k);
    var c := Candidates(primary, secondary, k);
    CandidatesSnoc(primary, prev, x, k);
    if Key(x) == k {
      if k !in dp.vals {
        assert c == [x];
        FirstMaxOfOne(x);
      } else if x.searchVolume > dp.vals[k].searchVolume {
        FirstMaxAppendLarger(cp, dp.vals[k], x);
      } else {
        FirstMaxAppendSmaller(cp, dp.vals[k], x);
      }
    } else {
      assert c == cp;
    }
  }

  lemma ValuesMembership(d: Dict, x: KeywordRecord)
    requires ValidDict(d)
    ensures x in Values(d) <==> Key(x) in d.vals && d.vals[Key(x)] == x
  {
    if Key(x) in d.vals && d.vals[Key(x)] == x {
      var i :| 0 <= i < |d.keys| && d.keys[i] == Key(x);
      assert Values(d)[i] == x;
    }
  }

  /** No two merged records share a lower-cased keyword. */
  lemma MergedDistinctKeys(primary: seq<KeywordRecord>, secondary: seq<KeywordRecord>)
    ensures DistinctKeys(Merged(primary, secondary))
  {
    var d := OfferAll(IndexPrimary(primary), secondary);
    var r := Values(d);
    forall i, j | 0 <= i < j < |r| ensures Key(r[i]) != Key(r[j]) {
      assert Key(r[i]) == d.keys[i] && Key(r[j]) == d.keys[j];
    }
  }

  /**
   * The merge, key by key: a key has a record in the result exactly when it occurs in
   * `primary` or `secondary`, and that record is the earliest of largest volume among the
   * last primary record with the key followed by the secondary records with the key.
   */
  lemma MergedByKey(primary: seq<KeywordRecord>, secondary: seq<KeywordRecord>, k: string)
    ensures (exists x :: x in Merged(primary, secondary) && Key(x) == k)
        <==> (exists y :: y in primary + secondary && Key(y) == k)
    ensures forall x :: x in Merged(primary, secondary) && Key(x) == k ==>
              IsFirstMax(Candidates(primary, secondary, k), x)
  {
    MergedKeyIsFirstMax(primary, secondary, k);
    if exists y :: y in primary + secondary && Key(y) == k {
      var y :| y in primary + secondary && Key(y) == k;
      MergedKeyPresent(primary, secondary, y);
    }
    if exists x :: x in Merged(primary, secondary) && Key(x) == k {
      var x :| x in Merged(primary, secondary) && Key(x) == k;
      MergedKeyOrigin(primary, secondary, x);
    }
  }

  lemma MergedKeyIsFirstMax(primary: seq<KeywordRecord>, secondary: seq<KeywordRecord>, k: string)
    ensures forall x :: x in Merged(primary, secondary) && Key(x) == k ==>
              IsFirstMax(Candidates(primary, secondary, k), x)
  {
    var d := OfferAll(IndexPrimary(primary), secondary);
    OfferAllLookup(primary, secondary, k);
    forall x | x in Merged(primary, secondary) && Key(x) == k
      ensures IsFirstMax(Candidates(primary, secondary, k), x)
    {
      ValuesMembership(d, x);
    }
  }

  /** The contenders for a key are the input records with that key, and there is one when the key occurs. */
  lemma CandidatesOfInputs(primary: seq<KeywordRecord>, secondary: seq<KeywordRecord>, k: string)
    ensures forall z :: z in Candidates(primary, secondary, k) ==> z in primary + secondary && Key(z) == k
    ensures (exists y :: y in primary + secondary && Key(y) == k) ==> Candidates(primary, secondary, k) != []
  {
    var lead := match LastWithKey(primary, k) case Some(z) => [z] case None => [];
    var tail := OfKey(secondary, k);
    assert Candidates(primary, secondary, k) == lead + tail;
    if exists y :: y in primary + secondary && Key(y) == k {
      var y :| y in primary + secondary && Key(y) == k;
      if y in secondary {
        assert y in tail;
      } else {
        assert LastWithKey(primary, k).Some?;
      }
    }
  }

  /** A key that occurs in either input has a record in the merge. */
  lemma MergedKeyPresent(primary: seq<KeywordRecord>, secondary: seq<KeywordRecord>, y: KeywordRecord)
    requires y in primary + secondary
    ensures exists x :: x in Merged(primary, secondary) && Key(x) == Key(y)
  {
    var k := Key(y);
    var d := OfferAll(IndexPrimary(primary), secondary);
    CandidatesOfInputs(primary, secondary, k);
    OfferAllLookup(primary, secondary, k);
    assert k in d.vals;
    ValuesMembership(d, d.vals[k]);
    assert d.vals[k] in Merged(primary, secondary);
  }

  /** A record in the merge has its key somewhere in the inputs. */
  lemma MergedKeyOrigin(primary: seq<KeywordRecord>, secondary: seq<KeywordRecord>, x: KeywordRecord)
    requires x in Merged(primary, secondary)
    ensures exists y :: y in primary + secondary && Key(y) == Key(x)
  {
    var k := Key(x);
    var d := OfferAll(IndexPrimary(primary), secondary);
    ValuesMembership(d, x);
    OfferAllLookup(primary, secondary, k);
    CandidatesOfInputs(primary, secondary, k);
    var c := Candidates(primary, secondary, k);
    assert c[0] in c;
  }

  /** The merge invents nothing: every output record is one of the input records. */
  lemma MergedFromInputs(primary: seq<KeywordRecord>, secondary: seq<KeywordRecord>, x: KeywordRecord)
    requires x in Merged(primary, secondary)
    ensures x in primary + secondary
  {
    var k := Key(x);
    MergedByKey(primary, secondary, k);
    var c := Candidates(primary, secondary, k);
    var i :| 0 <= i < |c| && c[i] == x;
    if LastWithKey(primary, k).Some? && i == 0 {
      assert x == LastWithKey(primary, k).value;
    } else {
      assert x in OfKey(secondary, k);
    }
  }

  /** Within `primary` the last duplicate wins when `secondary` does not mention the key. */
  lemma PrimaryLastDuplicateWins(primary: seq<KeywordRecord>, secondary: seq<KeywordRecord>, i: nat)
    requires i < |primary|
    requires forall j :: i < j < |primary| ==> Key(primary[j]) != Key(primary[i])
    requires forall y :: y in secondary ==> Key(y) != Key(primary[i])
    ensures primary[i] in Merged(primary, secondary)
  {
    var k := Key(primary[i]);
    LastIsLast(primary, i);
    if OfKey(secondary, k) != [] {
      assert OfKey(secondary, k)[0] in OfKey(secondary, k);
    }
    var c := Candidates(primary, secondary, k);
    assert c == [primary[i]];
    MergedByKey(primary, secondary, k);
    assert primary[i] in primary + secondary;
    var x :| x in Merged(primary, secondary) && Key(x) == k;
    var m :| 0 <= m < |c| && c[m] == x;
  }

  lemma {:induction false} LastIsLast(s: seq<KeywordRecord>, i: nat)
    requires i < |s|
    requires forall j :: i < j < |s| ==> Key(s[j]) != Key(s[i])
    ensures LastWithKey(s, Key(s[i])) == Some(s[i])
  {
    if i < |s| - 1 {
      LastIsLast(s[..|s| - 1], i);
    }
  }

  /**
   * A secondary record never displaces the surviving primary record unless its volume is
   * strictly greater: on equal volume the primary version is kept.
   */
  lemma PrimaryKeptUnlessStrictlyBeaten(primary: seq<KeywordRecord>, secondary: seq<KeywordRecord>, i: nat)
    requires i < |primary|
    requires forall j :: i < j < |primary| ==> Key(primary[j]) != Key(primary[i])
    requires forall y :: y in secondary && Key(y) == Key(primary[i]) ==> y.searchVolume <= primary[i].searchVolume
    ensures primary[i] in Merged(primary, secondary)
  {
    var k := Key(primary[i]);
    LastIsLast(primary, i);
    var c := Candidates(primary, secondary, k);
    assert c[0] == primary[i];
    MergedByKey(primary, secondary, k);
    assert primary[i] in primary + secondary;
    var x :| x in Merged(primary, secondary) && Key(x) == k;
    var m :| 0 <= m < |c| && c[m] == x
      && (forall j :: 0 <= j < |c| ==> c[j].searchVolume <= x.searchVolume)
      && (forall j :: 0 <= j < m ==> c[j].searchVolume < x.searchVolume);
  }

  /** Whatever the sources, the merged record for a key has at least the volume of every contender. */
  lemma MergedVolumeIsMaximal(primary: seq<KeywordRecord>, secondary: seq<KeywordRecord>, x: KeywordRecord, y: KeywordRecord)
    requires x in Merged(primary, secondary)
    requires y in secondary && Key(y) == Key(x)
    ensures x.searchVolume >= y.searchVolume
  {
    var k := Key(x);
    MergedByKey(primary, secondary, k);
    var c := Candidates(primary, secondary, k);
    assert y in OfKey(secondary, k);
    var j :| 0 <= j < |OfKey(secondary, k)| && OfKey(secondary, k)[j] == y;
    var off := |c| - |OfKey(secondary, k)|;
    assert c[off + j] == y;
  }

  /** Indexing a list with distinct keys files each record under a new key, in list order. */
  lemma {:induction false} IndexDistinctKeys(s: seq<KeywordRecord>)
    requires DistinctKeys(s)
    ensures |IndexPrimary(s).keys| == |s|
    ensures forall i :: 0 <= i < |s| ==> IndexPrimary(s).keys[i] == Key(s[i])
    ensures forall i :: 0 <= i < |s| ==> IndexPrimary(s).vals[Key(s[i])] == s[i]
  {
    if s != [] {
      var n := |s| - 1;
      var t := s[..n];
      var x := s[n];
      assert DistinctKeys(t) by {
        forall i, j | 0 <= i < j < |t| ensures Key(t[i]) != Key(t[j]) {
          assert t[i] == s[i] && t[j] == s[j];
        }
      }
      IndexDistinctKeys(t);
      var d := IndexPrimary(t);
      assert Key(x) !in d.keys by {
        forall i | 0 <= i < |d.keys| ensures d.keys[i] != Key(x) {
          assert d.keys[i] == Key(t[i]) && t[i] == s[i];
        }
      }
      assert Key(x) !in d.vals;
      assert IndexPrimary(s) == Put(d, x) by { assert s[..|s| - 1] == t; }
      var e := IndexPrimary(s);
      assert e.keys == d.keys + [Key(x)];
      assert e.vals == d.vals[Key(x) := x];
      forall i | 0 <= i < |s| ensures e.keys[i] == Key(s[i]) && e.vals[Key(s[i])] == s[i] {
        if i < n {
          assert e.keys[i] == d.keys[i] && t[i] == s[i];
          assert Key(s[i]) != Key(x);
        }
      }
    }
  }

  /** Merging a list that already has distinct keys with nothing gives the list back. */
  lemma IndexDistinctIsIdentity(s: seq<KeywordRecord>)
    requires DistinctKeys(s)
    ensures Values(IndexPrimary(s)) == s
  {
    IndexDistinctKeys(s);
    var r := Values(IndexPrimary(s));
    forall i | 0 <= i < |s| ensures r[i] == s[i] {
      assert r[i] == IndexPrimary(s).vals[IndexPrimary(s).keys[i]];
    }
  }

  /** Idempotence: merging the merged list once more, with an empty second source, changes nothing. */
  lemma MergeIdempotent(a: seq<KeywordRecord>, b: seq<KeywordRecord>)
    ensures Merged(Merged(a, b), []) == Merged(a, b)
  {
    MergedDistinctKeys(a, b);
    IndexDistinctIsIdentity(Merged(a, b));
  }

  /** Two sources report "seo" at 100 and 300: the merge keeps the 300 record. */
  lemma MergeScenario()
    ensures Merged([KeywordRecord("seo", 100, 0, 0.0)], [KeywordRecord("seo", 300, 0, 0.5)])
         == [KeywordRecord("seo", 300, 0, 0.5)]
  {
    var p := [KeywordRecord("seo", 100, 0, 0.0)];
    var s := [KeywordRecord("seo", 300, 0, 0.5)];
    LowerOfLowercase("seo");
    assert p[..0] == [] && s[..0] == [];
    assert IndexPrimary(p) == Dict(["seo"], map["seo" := p[0]]);
  }
}
