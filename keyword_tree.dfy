/**
 * The keyword hierarchy of `KeywordController`: building the nested tree from a flat list,
 * walking parent chains (`isDescendant`, `getAncestorIds`), and the sibling positions kept
 * by `store` and `move`.
 *
 * The `keywords` table is a finite map from id to row. Only the columns the hierarchy uses
 * are kept. The source does not guard against cyclic parent links, so every walk takes a
 * `fuel` bound: `None` means the walk would still be going after `fuel` steps.
 */
module KeywordTree {
  import opened Util

  datatype Keyword = Keyword(id: nat, projectId: nat, parentId: Option<nat>, position: int)

  /** The `keywords` table, by id; `Keyword::find(id)` is a lookup. */
  type Table = map<nat, Keyword>

  // ---------------------------------------------------------------------------
  // buildTree

  /** One node of the JSON tree: the row, and a `children` entry only when it has any. */
  datatype TreeNode = TreeNode(keyword: Keyword, children: ChildrenEntry)

  /** The `children` key of a node's array: absent, or present with the sub-branch. */
  datatype ChildrenEntry = Absent | Present(nodes: seq<TreeNode>)

  /** The keywords of `ks` whose parent is `parentId`, in list order. */
  function ChildrenIn(ks: seq<Keyword>, parentId: Option<nat>): (r: seq<Keyword>)
    ensures forall k :: k in r ==> k in ks && k.parentId == parentId
    ensures forall k :: k in ks && k.parentId == parentId ==> k in r
  {
    if ks == [] then []
    else (if ks[0].parentId == parentId then [ks[0]] else []) + ChildrenIn(ks[1..], parentId)
  }

  function KeywordsOf(b: seq<TreeNode>): seq<Keyword> {
    if b == [] then [] else [b[0].keyword] + KeywordsOf(b[1..])
  }

  /** `buildTree($keywords, $parentId)`: the branch of the forest under `parentId`. */
  function BuildTree(keywords: seq<Keyword>, parentId: Option<nat>, fuel: nat): (r: Option<seq<TreeNode>>)
    ensures r.Some? ==> KeywordsOf(r.value) == ChildrenIn(keywords, parentId)
    decreases fuel, 0
  {
    if fuel == 0 then None else Branch(keywords, keywords, parentId, fuel - 1)
  }

  /** The `foreach` of `buildTree` over the not yet visited suffix `rest` of the list. */
  function Branch(keywords: seq<Keyword>, rest: seq<Keyword>, parentId: Option<nat>, fuel: nat)
    : (r: Option<seq<TreeNode>>)
    ensures r.Some? ==> KeywordsOf(r.value) == ChildrenIn(rest, parentId)
    decreases fuel, |rest| + 1
  {
    if rest == [] then Some([])
    else
      var tail := Branch(keywords, rest[1..], parentId, fuel);
      if rest[0].parentId != parentId then tail
      else
        match BuildTree(keywords, Some(rest[0].id), fuel)
        case None => None
        case Some(children) =>
          match tail
          case None => None
          case Some(t) =>
            var b := [TreeNode(rest[0], if children == [] then Absent else Present(children))] + t;
            assert b[1..] == t;
            Some(b)
  }

  /**
   * The shape `buildTree` promises at every level: the nodes under `parentId` are exactly
   * the list's keywords with that parent, in list order, and every node is well formed.
   */
  ghost predicate Forest(ks: seq<Keyword>, parentId: Option<nat>, b: seq<TreeNode>) {
    KeywordsOf(b) == ChildrenIn(ks, parentId) && forall i :: 0 <= i < |b| ==> NodeOk(ks, b[i])
  }

  /**
   * A node carries `children` exactly when the list has keywords under it; they are those
   * keywords, in list order, and are well formed in turn.
   */
  ghost predicate NodeOk(ks: seq<Keyword>, n: TreeNode)
    decreases n
  {
    match n.children
    case Absent => ChildrenIn(ks, Some(n.keyword.id)) == []
    case Present(c) =>
      && c != []
      && KeywordsOf(c) == ChildrenIn(ks, Some(n.keyword.id))
      && forall j :: 0 <= j < |c| ==> NodeOk(ks, c[j])
  }

  lemma {:induction false} BuildTreeIsForest(ks: seq<Keyword>, parentId: Option<nat>, fuel: nat)
    ensures BuildTree(ks, parentId, fuel).Some? ==> Forest(ks, parentId, BuildTree(ks, parentId, fuel).value)
    decreases fuel, 0
  {
    if fuel > 0 && BuildTree(ks, parentId, fuel).Some? {
      BranchIsForest(ks, ks, parentId, fuel - 1);
      var b := Branch(ks, ks, parentId, fuel - 1).value;
      assert forall i :: 0 <= i < |b| ==> NodeOk(ks, b[i]);
    }
  }

  lemma {:induction false} BranchIsForest(ks: seq<Keyword>, rest: seq<Keyword>, parentId: Option<nat>, fuel: nat)
    ensures Branch(ks, rest, parentId, fuel).Some? ==>
      var b := Branch(ks, rest, parentId, fuel).value;
      KeywordsOf(b) == ChildrenIn(rest, parentId) && forall i :: 0 <= i < |b| ==> NodeOk(ks, b[i])
    decreases fuel, |rest| + 1
  {
    if rest != [] && Branch(ks, rest, parentId, fuel).Some? {
      BranchIsForest(ks, rest[1..], parentId, fuel);
      if rest[0].parentId == parentId {
        var children := BuildTree(ks, Some(rest[0].id), fuel).value;
        BuildTreeIsForest(ks, Some(rest[0].id), fuel);
        var t := Branch(ks, rest[1..], parentId, fuel).value;
        var node := TreeNode(rest[0], if children == [] then Absent else Present(children));
        assert NodeOk(ks, node);
        assert ([node] + t)[1..] == t;
      }
    }
  }

  /**
   * A keyword that is its own parent is never reached from the root: the tree finishes
   * and leaves it, and everything under it, out.
   */
  lemma SelfParentLeftOutOfTree()
    ensures BuildTree([Keyword(5, 1, Some(5), 0), Keyword(6, 1, Some(5), 0)], None, 1) == Some([])
  {
  }

  /** A 1 ↔ 2 parent cycle does not stop the tree from the root; it only leaves the cycle out. */
  lemma CycleLeftOutOfTree()
    ensures BuildTree([Keyword(1, 1, Some(2), 0), Keyword(2, 1, Some(1), 0), Keyword(3, 1, None, 0)], None, 2)
      == Some([TreeNode(Keyword(3, 1, None, 0), Absent)])
  {
    var k1, k2, k3 := Keyword(1, 1, Some(2), 0), Keyword(2, 1, Some(1), 0), Keyword(3, 1, None, 0);
    var ks := [k1, k2, k3];
    var node := TreeNode(k3, Absent);
    assert BuildTree(ks, Some(3), 1) == Some([]) by {
      assert Branch(ks, ks[2..], Some(3), 0) == Some([]);
      assert Branch(ks, ks[1..], Some(3), 0) == Some([]);
    }
    assert [k3][1..] == [] && [node] + [] == [node];
    assert Branch(ks, [k3], None, 1) == Some([node]);
    assert ks[1..] == [k2, k3] && [k2, k3][1..] == [k3];
    assert Branch(ks, [k2, k3], None, 1) == Some([node]);
  }

  /** No two rows of the list share an id, as for rows of one table. */
  ghost predicate DistinctIds(ks: seq<Keyword>) {
    forall i, j :: 0 <= i < j < |ks| ==> ks[i].id != ks[j].id
  }

  /**
   * The keywords `buildTree` has descended through from the root: each is a row of the list,
   * the first has no parent, each later one is a child of the one before, and no id repeats.
   */
  ghost predicate RootPath(ks: seq<Keyword>, path: seq<Keyword>) {
    && (forall i :: 0 <= i < |path| ==> path[i] in ks)
    && (path != [] ==> path[0].parentId.None?)
    && (forall i :: 0 < i < |path| ==> path[i].parentId == Some(path[i - 1].id))
    && (forall i, j :: 0 <= i < j < |path| ==> path[i].id != path[j].id)
  }

  /** The `$parentId` of the call reached along `path`. */
  function PathEnd(path: seq<Keyword>): Option<nat> {
    if path == [] then None else Some(path[|path| - 1].id)
  }

  /** The ids on `path`. */
  ghost function PathIds(path: seq<Keyword>): set<nat> {
    set k | k in path :: k.id
  }

  /** How many rows of the list have an id outside `ids`. */
  function Unvisited(ks: seq<Keyword>, ids: set<nat>): (r: nat)
    ensures r <= |ks|
  {
    if ks == [] then 0 else (if ks[0].id in ids then 0 else 1) + Unvisited(ks[1..], ids)
  }

  lemma {:induction false} UnvisitedNoGrow(ks: seq<Keyword>, ids: set<nat>, x: nat)
    ensures Unvisited(ks, ids + {x}) <= Unvisited(ks, ids)
  {
    if ks != [] {
      UnvisitedNoGrow(ks[1..], ids, x);
    }
  }

  /** Marking the id of a row not yet visited leaves fewer rows unvisited. */
  lemma {:induction false} UnvisitedShrinks(ks: seq<Keyword>, ids: set<nat>, c: Keyword)
    requires c in ks && c.id !in ids
    ensures Unvisited(ks, ids + {c.id}) < Unvisited(ks, ids)
  {
    if ks[0] == c {
      UnvisitedNoGrow(ks[1..], ids, c.id);
    } else {
      UnvisitedShrinks(ks[1..], ids, c);
    }
  }

  lemma DistinctRowsDistinctIds(ks: seq<Keyword>, x: Keyword, y: Keyword)
    requires DistinctIds(ks) && x in ks && y in ks && x != y
    ensures x.id != y.id
  {
    var a :| 0 <= a < |ks| && ks[a] == x;
    var b :| 0 <= b < |ks| && ks[b] == y;
    assert a != b;
  }

  /** A child of the keyword at the end of a root path is not on the path. */
  lemma ChildOffPath(ks: seq<Keyword>, path: seq<Keyword>, c: Keyword)
    requires DistinctIds(ks) && RootPath(ks, path)
    requires c in ks && c.parentId == PathEnd(path)
    ensures c.id !in PathIds(path)
    ensures RootPath(ks, path + [c]) && PathIds(path + [c]) == PathIds(path) + {c.id}
  {
    forall j | 0 <= j < |path| ensures path[j].id != c.id {
      assert PathEnd(path) == Some(path[|path| - 1].id);
      if j > 0 {
        assert path[j - 1].id != path[|path| - 1].id;
      }
      assert path[j] != c;
      DistinctRowsDistinctIds(ks, path[j], c);
    }
    var p := path + [c];
    assert forall i :: 0 <= i < |path| ==> p[i] == path[i];
    forall i | 0 < i < |p| ensures p[i].parentId == Some(p[i - 1].id) {
      if i == |path| {
        assert p[i] == c && p[i - 1] == path[|path| - 1];
      }
    }
    assert forall i :: 0 <= i < |path| ==> path[i].id in PathIds(path);
    assert PathIds(p) == PathIds(path) + {c.id} by {
      assert forall k :: k in p <==> k in path || k == c;
    }
  }

  /**
   * Along a root path of distinct ids, fuel above the number of rows not yet on the path is
   * enough for `buildTree` to finish.
   */
  lemma {:induction false} BuildTreeAlongPathFinishes(ks: seq<Keyword>, path: seq<Keyword>, fuel: nat)
    requires DistinctIds(ks) && RootPath(ks, path)
    requires fuel > Unvisited(ks, PathIds(path))
    ensures BuildTree(ks, PathEnd(path), fuel).Some?
    decreases fuel, 0
  {
    BranchAlongPathFinishes(ks, ks, path, fuel - 1);
  }

  lemma {:induction false} BranchAlongPathFinishes(ks: seq<Keyword>, rest: seq<Keyword>, path: seq<Keyword>, fuel: nat)
    requires DistinctIds(ks) && RootPath(ks, path)
    requires forall k :: k in rest ==> k in ks
    requires fuel >= Unvisited(ks, PathIds(path))
    ensures Branch(ks, rest, PathEnd(path), fuel).Some?
    decreases fuel, |rest| + 1
  {
    if rest != [] {
      assert forall k :: k in rest[1..] ==> k in rest;
      BranchAlongPathFinishes(ks, rest[1..], path, fuel);
      var c := rest[0];
      if c.parentId == PathEnd(path) {
        ChildOffPath(ks, path, c);
        UnvisitedShrinks(ks, PathIds(path), c);
        assert PathEnd(path + [c]) == Some(c.id);
        BuildTreeAlongPathFinishes(ks, path + [c], fuel);
      }
    }
  }

  /**
   * `index` calls `buildTree($keywords)` from the root, and from there it always finishes on a
   * list of distinct ids, cycles or not: a keyword on a cycle has its parent on the cycle, so
   * the descent from the root never reaches it, and no id repeats on the way down.
   */
  lemma BuildTreeFromRootFinishes(ks: seq<Keyword>)
    requires forall i, j :: 0 <= i < j < |ks| ==> ks[i].id != ks[j].id
    ensures BuildTree(ks, None, |ks| + 1).Some?
  {
    assert PathIds([]) == {};
    BuildTreeAlongPathFinishes(ks, [], |ks| + 1);
  }

  /** More fuel never changes a finished tree: the fuel bound only cuts off cyclic lists. */
  lemma {:induction false} BuildTreeMoreFuel(ks: seq<Keyword>, parentId: Option<nat>, fuel: nat)
    requires BuildTree(ks, parentId, fuel).Some?
    ensures BuildTree(ks, parentId, fuel + 1) == BuildTree(ks, parentId, fuel)
    decreases fuel, 0
  {
    BranchMoreFuel(ks, ks, parentId, fuel - 1);
  }

  lemma {:induction false} BranchMoreFuel(ks: seq<Keyword>, rest: seq<Keyword>, parentId: Option<nat>, fuel: nat)
    requires Branch(ks, rest, parentId, fuel).Some?
    ensures Branch(ks, rest, parentId, fuel + 1) == Branch(ks, rest, parentId, fuel)
    decreases fuel, |rest| + 1
  {
    if rest != [] {
      BranchMoreFuel(ks, rest[1..], parentId, fuel);
      if rest[0].parentId == parentId {
        BuildTreeMoreFuel(ks, Some(rest[0].id), fuel);
      }
    }
  }

  // ---------------------------------------------------------------------------
  // Parent chains

  /**
   * The `parent_id`s the inner loop of `getAncestorIds` pushes, starting from `current`:
   * each step pushes the parent id, then looks it up and stops when the lookup fails.
   */
  function Ancestors(table: Table, current: Keyword, fuel: nat): Option<seq<nat>>
    decreases fuel
  {
    match current.parentId
    case None => Some([])
    case Some(p) =>
      if fuel == 0 then None
      else if p !in table then Some([p])
      else
        match Ancestors(table, table[p], fuel - 1)
        case None => None
        case Some(rest) => Some([p] + rest)
  }

  /**
   * A finished walk is the chain of parent links: it starts at `current`'s parent, each id
   * on it is the parent of the one before, and it ends at a root or at an id not in the
   * table.
   */
  lemma {:induction false} AncestorsAreParentLinks(table: Table, current: Keyword, fuel: nat)
    requires Ancestors(table, current, fuel).Some?
    ensures var ch := Ancestors(table, current, fuel).value;
      && (current.parentId.None? <==> ch == [])
      && (ch != [] ==> current.parentId == Some(ch[0]))
      && (forall i :: 0 <= i < |ch| - 1 ==> ch[i] in table && table[ch[i]].parentId == Some(ch[i + 1]))
      && (ch != [] ==> ch[|ch| - 1] !in table || table[ch[|ch| - 1]].parentId.None?)
    decreases fuel
  {
    if current.parentId.Some? && current.parentId.value in table {
      var p := current.parentId.value;
      AncestorsAreParentLinks(table, table[p], fuel - 1);
      var rest := Ancestors(table, table[p], fuel - 1).value;
      var ch := [p] + rest;
      forall i | 0 <= i < |ch| - 1 ensures ch[i] in table && table[ch[i]].parentId == Some(ch[i + 1]) {
        if i > 0 {
          assert ch[i] == rest[i - 1] && ch[i + 1] == rest[i];
        }
      }
    }
  }

  /** Walks that only see the same parent links give the same chain. */
  lemma {:induction false} AncestorsFrame(t1: Table, t2: Table, c1: Keyword, c2: Keyword, fuel: nat)
    requires c1.parentId == c2.parentId
    requires Ancestors(t1, c1, fuel).Some?
    requires forall id :: id in Ancestors(t1, c1, fuel).value ==>
               (id in t1 <==> id in t2) && (id in t1 ==> t1[id].parentId == t2[id].parentId)
    ensures Ancestors(t2, c2, fuel) == Ancestors(t1, c1, fuel)
    decreases fuel
  {
    if c1.parentId.Some? && c1.parentId.value in t1 {
      var p := c1.parentId.value;
      AncestorsFrame(t1, t2, t1[p], t2[p], fuel - 1);
    }
  }

  /** A keyword that is its own parent sends every walk from it round forever. */
  lemma {:induction false} SelfParentWalkNeverEnds(table: Table, k: nat, fuel: nat)
    requires k in table && table[k].parentId == Some(k)
    ensures Ancestors(table, table[k], fuel) == None
    decreases fuel
  {
    if fuel > 0 {
      SelfParentWalkNeverEnds(table, k, fuel - 1);
    }
  }

  /** The `while` loop of `isDescendant`, from `current`, looking for `keywordId`. */
  function Descends(table: Table, keywordId: nat, current: Keyword, fuel: nat): Option<bool>
    decreases fuel
  {
    match current.parentId
    case None => Some(false)
    case Some(p) =>
      if p == keywordId then Some(true)
      else if fuel == 0 then None
      else if p !in table then Some(false)
      else Descends(table, keywordId, table[p], fuel - 1)
  }

  /** `isDescendant($keyword, $potentialAncestorId)`. */
  function IsDescendantOf(table: Table, keyword: Keyword, potentialAncestorId: nat, fuel: nat): Option<bool> {
    if potentialAncestorId !in table then Some(false)
    else Descends(table, keyword.id, table[potentialAncestorId], fuel)
  }

  /**
   * `isDescendant` answers whether `keywordId` is on the parent chain: whenever the chain
   * walk finishes, the answer is membership in it; and a "no" always comes from a finished
   * chain that does not contain it.
   */
  lemma {:induction false} DescendsIffOnChain(table: Table, keywordId: nat, current: Keyword, fuel: nat)
    ensures Ancestors(table, current, fuel).Some? ==>
              Descends(table, keywordId, current, fuel) == Some(keywordId in Ancestors(table, current, fuel).value)
    ensures Descends(table, keywordId, current, fuel) == Some(false) ==>
              Ancestors(table, current, fuel).Some? && keywordId !in Ancestors(table, current, fuel).value
    decreases fuel
  {
    if current.parentId.Some? && fuel > 0 && current.parentId.value in table {
      DescendsIffOnChain(table, keywordId, table[current.parentId.value], fuel - 1);
    }
  }

  /** `isDescendant` as the controller runs it: a `while` loop over `Keyword::find`. */
  method IsDescendant(table: Table, keyword: Keyword, potentialAncestorId: nat, fuel: nat) returns (r: Option<bool>)
    ensures r == IsDescendantOf(table, keyword, potentialAncestorId, fuel)
  {
    if potentialAncestorId !in table {
      return Some(false);
    }
    var current := table[potentialAncestorId];
    var steps := fuel;
    while current.parentId.Some?
      invariant Descends(table, keyword.id, current, steps) == IsDescendantOf(table, keyword, potentialAncestorId, fuel)
      decreases steps
    {
      if current.parentId.value == keyword.id {
        return Some(true);
      }
      if steps == 0 {
        return None;
      }
      if current.parentId.value !in table {
        break;
      }
      current := table[current.parentId.value];
      steps := steps - 1;
    }
    return Some(false);
  }

  /** The pushes of `getAncestorIds` for every keyword of the list, in order. */
  function AllAncestors(table: Table, ks: seq<Keyword>, fuel: nat): Option<seq<nat>> {
    if ks == [] then Some([])
    else
      match AllAncestors(table, ks[..|ks| - 1], fuel)
      case None => None
      case Some(before) => Prepend(before, Ancestors(table, ks[|ks| - 1], fuel))
  }

  function Prepend(prefix: seq<nat>, o: Option<seq<nat>>): Option<seq<nat>> {
    match o
    case None => None
    case Some(s) => Some(prefix + s)
  }

  /** `Collection::unique`: the first occurrence of each value, in order. */
  function Unique(s: seq<nat>): (r: seq<nat>)
    ensures forall x :: x in r <==> x in s
    ensures forall i, j :: 0 <= i < j < |r| ==> r[i] != r[j]
  {
    if s == [] then []
    else
      var u := Unique(s[..|s| - 1]);
      assert forall x :: x in s[..|s| - 1] ==> x in s;
      assert s == s[..|s| - 1] + [s[|s| - 1]];
      if s[|s| - 1] in u then u else u + [s[|s| - 1]]
  }

  /**
   * The collected ids are exactly the parent ids on the chains of the listed keywords, and
   * the collection finishes exactly when every one of those walks does.
   */
  lemma {:induction false} AllAncestorsCollects(table: Table, ks: seq<Keyword>, fuel: nat)
    ensures AllAncestors(table, ks, fuel).Some? <==>
              forall i :: 0 <= i < |ks| ==> Ancestors(table, ks[i], fuel).Some?
    ensures AllAncestors(table, ks, fuel).Some? ==>
              forall x :: x in AllAncestors(table, ks, fuel).value <==>
                exists i :: 0 <= i < |ks| && Ancestors(table, ks[i], fuel).Some? && x in Ancestors(table, ks[i], fuel).value
  {
    if ks != [] {
      var prefix := ks[..|ks| - 1];
      AllAncestorsCollects(table, prefix, fuel);
      assert forall i :: 0 <= i < |prefix| ==> prefix[i] == ks[i];
      if AllAncestors(table, ks, fuel).Some? {
        var before := AllAncestors(table, prefix, fuel).value;
        var last := Ancestors(table, ks[|ks| - 1], fuel).value;
        forall x | x in before + last
          ensures exists i :: 0 <= i < |ks| && Ancestors(table, ks[i], fuel).Some? && x in Ancestors(table, ks[i], fuel).value
        {
          if x in before {
            var i :| 0 <= i < |prefix| && Ancestors(table, prefix[i], fuel).Some? && x in Ancestors(table, prefix[i], fuel).value;
            assert prefix[i] == ks[i];
          }
        }
      }
    }
  }

  /** `getAncestorIds` as the controller runs it: a `foreach` around a `while` loop. */
  method GetAncestorIds(table: Table, keywords: seq<Keyword>, fuel: nat) returns (r: Option<seq<nat>>)
    ensures r == (match AllAncestors(table, keywords, fuel)
                  case None => None
                  case Some(ids) => Some(Unique(ids)))
  {
    var ancestorIds: seq<nat> := [];
    for i := 0 to |keywords|
      invariant AllAncestors(table, keywords[..i], fuel) == Some(ancestorIds)
    {
      assert keywords[..i + 1][..i] == keywords[..i];
      var current := keywords[i];
      var steps := fuel;
      while current.parentId.Some?
        invariant Prepend(ancestorIds, Ancestors(table, current, steps)) == AllAncestors(table, keywords[..i + 1], fuel)
        decreases steps
      {
        if steps == 0 {
          assert AllAncestors(table, keywords[..i + 1], fuel) == None;
          AllAncestorsStaysNone(table, keywords, i + 1, fuel);
          assert keywords[..|keywords|] == keywords;
          return None;
        }
        var p := current.parentId.value;
        if p !in table {
          assert Ancestors(table, current, steps) == Some([p]);
          ancestorIds := ancestorIds + [p];
          break;
        }
        ghost var further := Ancestors(table, table[p], steps - 1);
        assert further.Some? ==> Ancestors(table, current, steps) == Some([p] + further.value);
        assert further.Some? ==> ancestorIds + ([p] + further.value) == (ancestorIds + [p]) + further.value;
        ancestorIds := ancestorIds + [p];
        current := table[p];
        steps := steps - 1;
      }
      assert current.parentId.None? ==> ancestorIds + [] == ancestorIds;
    }
    assert keywords[..|keywords|] == keywords;
    r := Some(Unique(ancestorIds));
  }

  /** Once one walk runs out of fuel, so does the whole collection. */
  lemma {:induction false} AllAncestorsStaysNone(table: Table, ks: seq<Keyword>, n: nat, fuel: nat)
    requires n <= |ks|
    requires AllAncestors(table, ks[..n], fuel) == None
    ensures AllAncestors(table, ks, fuel) == None
    decreases |ks| - n
  {
    if n < |ks| {
      assert ks[..n + 1][..n] == ks[..n];
      AllAncestorsStaysNone(table, ks, n + 1, fuel);
    } else {
      assert ks[..n] == ks;
    }
  }

  // ---------------------------------------------------------------------------
  // Sibling positions: store and move

  /** The positions used under `parentId` in project `projectId`. */
  function SiblingPositions(rows: Table, projectId: nat, parentId: Option<nat>): set<int> {
    set id | id in rows && rows[id].projectId == projectId && rows[id].parentId == parentId :: rows[id].position
  }

  /** A finite non-empty set of integers has a largest element. */
  lemma {:induction false} LargestOf(s: set<int>) returns (m: int)
    requires s != {}
    ensures m in s && forall x :: x in s ==> x <= m
    decreases |s|
  {
    assert exists y :: y in s by {
      if forall y :: y !in s {
        assert false;
      }
    }
    var y :| y in s;
    var rest := s - {y};
    if rest == {} {
      m := y;
      forall x | x in s ensures x <= m {
        assert x !in rest;
      }
    } else {
      var n := LargestOf(rest);
      m := if y > n then y else n;
      forall x | x in s ensures x <= m {
        if x != y {
          assert x in rest;
        }
      }
    }
  }

  function MaxOf(s: set<int>): (m: int)
    requires s != {}
    ensures m in s && forall x :: x in s ==> x <= m
  {
    assert exists m :: m in s && forall x :: x in s ==> x <= m by {
      var n := LargestOf(s);
    }
    var m :| m in s && forall x :: x in s ==> x <= m;
    m
  }

  /** The position `store` gives a new keyword: `max('position') ?? -1`, plus one. */
  function NextPosition(rows: Table, projectId: nat, parentId: Option<nat>): (r: int)
    ensures SiblingPositions(rows, projectId, parentId) == {} ==> r == 0
    ensures SiblingPositions(rows, projectId, parentId) != {} ==>
              r - 1 in SiblingPositions(rows, projectId, parentId)
              && forall x :: x in SiblingPositions(rows, projectId, parentId) ==> x < r
  {
    var positions := SiblingPositions(rows, projectId, parentId);
    if positions == {} then 0 else MaxOf(positions) + 1
  }

  /** Rows of one project under one parent, other than the row itself, hold distinct positions. */
  ghost predicate PositionsDistinct(rows: Table) {
    forall a, b :: a in rows && b in rows && a != b
      && rows[a].projectId == rows[b].projectId && rows[a].parentId == rows[b].parentId
      ==> rows[a].position != rows[b].position
  }

  /** Every position is at least zero, as the request validation demands. */
  ghost predicate PositionsNatural(rows: Table) {
    forall id :: id in rows ==> rows[id].position >= 0
  }

  /** A keyword appended by `store` takes a position no sibling holds. */
  lemma StoreKeepsPositionsDistinct(rows: Table, id: nat, projectId: nat, parentId: Option<nat>)
    requires id !in rows
    requires PositionsDistinct(rows) && PositionsNatural(rows)
    ensures var stored := rows[id := Keyword(id, projectId, parentId, NextPosition(rows, projectId, parentId))];
      PositionsDistinct(stored) && PositionsNatural(stored)
  {
    var stored := rows[id := Keyword(id, projectId, parentId, NextPosition(rows, projectId, parentId))];
    forall a | a in rows && rows[a].projectId == projectId && rows[a].parentId == parentId
      ensures rows[a].position < NextPosition(rows, projectId, parentId)
    {
      assert rows[a].position in SiblingPositions(rows, projectId, parentId);
    }
    if SiblingPositions(rows, projectId, parentId) != {} {
      var x :| x in SiblingPositions(rows, projectId, parentId);
      var a :| a in rows && rows[a].projectId == projectId && rows[a].parentId == parentId && rows[a].position == x;
      assert 0 <= x < NextPosition(rows, projectId, parentId);
    }
  }

  /** `decrement('position')` on the rows of the group after position `after`. */
  function ShiftDownAfter(rows: Table, projectId: nat, parentId: Option<nat>, after: int): (r: Table)
    ensures r.Keys == rows.Keys
    ensures forall id :: id in rows ==> r[id].(position := rows[id].position) == rows[id]
    ensures forall id :: id in rows ==> rows[id].position - 1 <= r[id].position <= rows[id].position
    ensures forall id :: id in rows ==>
      (r[id].position != rows[id].position
       <==> rows[id].projectId == projectId && rows[id].parentId == parentId && rows[id].position > after)
  {
    map id | id in rows ::
      if rows[id].projectId == projectId && rows[id].parentId == parentId && rows[id].position > after
      then rows[id].(position := rows[id].position - 1)
      else rows[id]
  }

  /** `increment('position')` on the rows of the group from position `from` on. */
  function ShiftUpFrom(rows: Table, projectId: nat, parentId: Option<nat>, from: int): (r: Table)
    ensures r.Keys == rows.Keys
    ensures forall id :: id in rows ==> r[id].(position := rows[id].position) == rows[id]
    ensures forall id :: id in rows ==> rows[id].position <= r[id].position <= rows[id].position + 1
    ensures forall id :: id in rows ==>
      (r[id].position != rows[id].position
       <==> rows[id].projectId == projectId && rows[id].parentId == parentId && rows[id].position >= from)
  {
    map id | id in rows ::
      if rows[id].projectId == projectId && rows[id].parentId == parentId && rows[id].position >= from
      then rows[id].(position := rows[id].position + 1)
      else rows[id]
  }

  /** A move that asks for the keyword's current parent and position. */
  predicate SamePlace(keyword: Keyword, newParentId: Option<nat>, newPosition: int) {
    keyword.parentId == newParentId && keyword.position == newPosition
  }

  /**
   * The table after the transaction of `move`. The final `update` writes only the
   * attributes that differ from the keyword as it was loaded, so a move to the keyword's
   * current place writes nothing and leaves the increment of the shift on the keyword too.
   */
  function Moved(rows: Table, keywordId: nat, newParentId: Option<nat>, newPosition: int): (r: Table)
    requires keywordId in rows
    ensures r.Keys == rows.Keys
  {
    var keyword := rows[keywordId];
    var left := if keyword.parentId != newParentId
                then ShiftDownAfter(rows, keyword.projectId, keyword.parentId, keyword.position)
                else rows;
    var shifted := ShiftUpFrom(left, keyword.projectId, newParentId, newPosition);
    if SamePlace(keyword, newParentId, newPosition) then shifted
    else shifted[keywordId := keyword.(parentId := newParentId, position := newPosition)]
  }

  /**
   * What `move` does to one other row: it opens room in the new group from the target
   * position on; it closes the gap in the old group only when the parent changes; nothing
   * else moves, and no parent link but the keyword's own changes.
   */
  lemma MovedRow(rows: Table, keywordId: nat, newParentId: Option<nat>, newPosition: int, id: nat)
    requires keywordId in rows && id in rows && id != keywordId
    ensures var k := rows[keywordId];
      var x := rows[id];
      Moved(rows, keywordId, newParentId, newPosition)[id] ==
        if x.projectId == k.projectId && x.parentId == newParentId && x.position >= newPosition
        then x.(position := x.position + 1)
        else if x.projectId == k.projectId && x.parentId == k.parentId && k.parentId != newParentId && x.position > k.position
        then x.(position := x.position - 1)
        else x
  {
  }

  /**
   * The moved keyword ends under the requested parent, at the requested position unless
   * that is the place it already held: then the shift pushes it one further and nothing
   * writes it back.
   */
  lemma MovedKeyword(rows: Table, keywordId: nat, newParentId: Option<nat>, newPosition: int)
    requires keywordId in rows
    ensures Moved(rows, keywordId, newParentId, newPosition)[keywordId]
         == rows[keywordId].(parentId := newParentId,
                             position := if SamePlace(rows[keywordId], newParentId, newPosition)
                                         then newPosition + 1 else newPosition)
  {
  }

  /** Moving a lone top-level keyword to where it already is leaves it at position 1. */
  lemma SamePlaceMoveBumps()
    ensures var rows := map[5 := Keyword(5, 1, None, 0)];
      Moved(rows, 5, None, 0) == map[5 := Keyword(5, 1, None, 1)]
  {
    var rows := map[5 := Keyword(5, 1, None, 0)];
    assert ShiftUpFrom(rows, 1, None, 0)[5] == Keyword(5, 1, None, 1);
  }

  /** `move` renumbers no row. */
  lemma MovedKeepsIds(rows: Table, keywordId: nat, newParentId: Option<nat>, newPosition: int)
    requires keywordId in rows
    ensures forall id :: id in rows ==> Moved(rows, keywordId, newParentId, newPosition)[id].id == rows[id].id
  {
    MovedKeyword(rows, keywordId, newParentId, newPosition);
    forall id | id in rows && id != keywordId
      ensures Moved(rows, keywordId, newParentId, newPosition)[id].id == rows[id].id
    {
      MovedRow(rows, keywordId, newParentId, newPosition, id);
    }
  }

  /** `move` keeps sibling positions distinct and natural. */
  lemma MoveKeepsPositionsDistinct(rows: Table, keywordId: nat, newParentId: Option<nat>, newPosition: nat)
    requires keywordId in rows
    requires PositionsDistinct(rows) && PositionsNatural(rows)
    ensures PositionsDistinct(Moved(rows, keywordId, newParentId, newPosition))
    ensures PositionsNatural(Moved(rows, keywordId, newParentId, newPosition))
  {
    var r := Moved(rows, keywordId, newParentId, newPosition);
    MoveKeepsPositionsNatural(rows, keywordId, newParentId, newPosition);
    forall a, b | a in r && b in r && a != b && r[a].projectId == r[b].projectId && r[a].parentId == r[b].parentId
      ensures r[a].position != r[b].position
    {
      if a == keywordId {
        MovedApartFromKeyword(rows, keywordId, newParentId, newPosition, b);
      } else if b == keywordId {
        MovedApartFromKeyword(rows, keywordId, newParentId, newPosition, a);
      } else {
        MovedRow(rows, keywordId, newParentId, newPosition, a);
        MovedRow(rows, keywordId, newParentId, newPosition, b);
        assert rows[a].position != rows[b].position;
      }
    }
  }

  lemma MoveKeepsPositionsNatural(rows: Table, keywordId: nat, newParentId: Option<nat>, newPosition: nat)
    requires keywordId in rows && PositionsNatural(rows)
    ensures PositionsNatural(Moved(rows, keywordId, newParentId, newPosition))
  {
    var r := Moved(rows, keywordId, newParentId, newPosition);
    var k := rows[keywordId];
    MovedKeyword(rows, keywordId, newParentId, newPosition);
    forall a | a in r ensures r[a].position >= 0 {
      if a != keywordId {
        MovedRow(rows, keywordId, newParentId, newPosition, a);
        if r[a].position < rows[a].position {
          assert rows[a].position > k.position >= 0;
        }
      }
    }
  }

  /** After a move, no other row of the keyword's new group shares its position. */
  lemma MovedApartFromKeyword(rows: Table, keywordId: nat, newParentId: Option<nat>, newPosition: nat, b: nat)
    requires keywordId in rows && b in rows && b != keywordId
    requires PositionsDistinct(rows)
    requires rows[b].projectId == rows[keywordId].projectId && rows[b].parentId == newParentId
    ensures Moved(rows, keywordId, newParentId, newPosition)[b].position
         != Moved(rows, keywordId, newParentId, newPosition)[keywordId].position
  {
    MovedKeyword(rows, keywordId, newParentId, newPosition);
    MovedRow(rows, keywordId, newParentId, newPosition, b);
    if SamePlace(rows[keywordId], newParentId, newPosition) {
      assert rows[b].position != rows[keywordId].position;
    }
  }

  /** Sibling order is kept: two other rows of one group keep their relative order. */
  lemma MoveKeepsSiblingOrder(rows: Table, keywordId: nat, newParentId: Option<nat>, newPosition: int, a: nat, b: nat)
    requires keywordId in rows && a in rows && b in rows && a != keywordId && b != keywordId
    requires rows[a].projectId == rows[b].projectId && rows[a].parentId == rows[b].parentId
    requires PositionsDistinct(rows)
    requires rows[a].position < rows[b].position
    ensures Moved(rows, keywordId, newParentId, newPosition)[a].position
          < Moved(rows, keywordId, newParentId, newPosition)[b].position
  {
    MovedRow(rows, keywordId, newParentId, newPosition, a);
    MovedRow(rows, keywordId, newParentId, newPosition, b);
    var k := rows[keywordId];
    if rows[a].projectId == k.projectId && rows[a].parentId == k.parentId && k.parentId != newParentId {
      assert rows[a].position != k.position && rows[b].position != k.position;
    }
  }

  /** The outcome of a `store` or `move` request. */
  datatype Outcome =
    | Done
    | ParentMissing          // the `exists` validation or `findOrFail`
    | ParentInOtherProject   // HTTP 422
    | IntoOwnSubtree         // HTTP 422
    | Diverges               // the request would never finish: the parent chain loops

  /** The checks `move` makes before its transaction, as written. */
  function MoveCheckAsWritten(rows: Table, keywordId: nat, parentId: Option<nat>, fuel: nat): (r: Outcome)
    requires keywordId in rows
    ensures r == ParentMissing <==> parentId.Some? && parentId.value !in rows
    ensures r == Done && parentId.Some? ==>
      && parentId.value in rows
      && rows[parentId.value].projectId == rows[keywordId].projectId
      && Ancestors(rows, rows[parentId.value], fuel).Some?
      && rows[keywordId].id !in Ancestors(rows, rows[parentId.value], fuel).value
  {
    match parentId
    case None => Done
    case Some(p) =>
      if p !in rows then ParentMissing
      else if rows[p].projectId != rows[keywordId].projectId then ParentInOtherProject
      else
        match IsDescendantOf(rows, rows[keywordId], p, fuel)
        case None => Diverges
        case Some(true) => IntoOwnSubtree
        case Some(false) =>
          DescendsIffOnChain(rows, rows[keywordId].id, rows[p], fuel);
          Done
  }

  /** The checks as intended: a keyword may not become its own parent either. */
  function MoveCheck(rows: Table, keywordId: nat, parentId: Option<nat>, fuel: nat): (r: Outcome)
    requires keywordId in rows
    ensures parentId == Some(keywordId) ==> r == IntoOwnSubtree
    ensures r == Done ==> parentId != Some(keywordId) && MoveCheckAsWritten(rows, keywordId, parentId, fuel) == Done
  {
    if parentId == Some(keywordId) then IntoOwnSubtree else MoveCheckAsWritten(rows, keywordId, parentId, fuel)
  }

  /**
   * The checks as written let a keyword become its own parent: `isDescendant` compares only
   * the parent ids on the new parent's chain with the keyword, never the new parent itself.
   * After that move every walk from the keyword loops forever.
   */
  lemma SelfParentAccepted(fuel: nat)
    ensures var rows := map[5 := Keyword(5, 1, None, 0)];
      && MoveCheckAsWritten(rows, 5, Some(5), fuel) == Done
      && Moved(rows, 5, Some(5), 0)[5].parentId == Some(5)
      && Ancestors(Moved(rows, 5, Some(5), 0), Moved(rows, 5, Some(5), 0)[5], fuel) == None
      && MoveCheck(rows, 5, Some(5), fuel) == IntoOwnSubtree
  {
    var rows := map[5 := Keyword(5, 1, None, 0)];
    assert IsDescendantOf(rows, rows[5], 5, fuel) == Some(false);
    SelfParentWalkNeverEnds(Moved(rows, 5, Some(5), 0), 5, fuel);
  }

  /**
   * With the intended checks, a move under a parent never puts the keyword on its own
   * parent chain: the keyword's new chain is finite and does not contain it.
   */
  lemma MoveKeepsKeywordOffOwnChain(rows: Table, keywordId: nat, p: nat, newPosition: int, fuel: nat)
    requires keywordId in rows && rows[keywordId].id == keywordId
    requires MoveCheck(rows, keywordId, Some(p), fuel) == Done
    ensures var moved := Moved(rows, keywordId, Some(p), newPosition);
      && Ancestors(moved, moved[keywordId], fuel + 1).Some?
      && keywordId !in Ancestors(moved, moved[keywordId], fuel + 1).value
  {
    var moved := Moved(rows, keywordId, Some(p), newPosition);
    assert p != keywordId && p in rows;
    assert Descends(rows, keywordId, rows[p], fuel) == Some(false);
    DescendsIffOnChain(rows, keywordId, rows[p], fuel);
    var ch := Ancestors(rows, rows[p], fuel).value;
    assert keywordId !in ch;
    forall id | id in ch
      ensures (id in rows <==> id in moved) && (id in rows ==> rows[id].parentId == moved[id].parentId)
    {
      if id in rows {
        MovedRow(rows, keywordId, Some(p), newPosition, id);
      }
    }
    MovedRow(rows, keywordId, Some(p), newPosition, p);
    AncestorsFrame(rows, moved, rows[p], moved[p], fuel);
  }

  /** The `keywords` table, updated in place by `store` and `move`. */
  class KeywordTable {
    var rows: Table
    var nextId: nat

    ghost predicate Valid()
      reads this
    {
      && nextId > 0
      && forall id :: id in rows ==> rows[id].id == id && 0 < id < nextId
    }

    constructor ()
      ensures Valid() && rows == map[] && nextId == 1
    {
      rows := map[];
      nextId := 1;
    }

    /**
     * `store`: a parent, when given, must exist and belong to the project; the new keyword
     * goes after its last sibling.
     */
    method Store(projectId: nat, parentId: Option<nat>) returns (outcome: Outcome)
      requires Valid()
      modifies this
      ensures Valid()
      ensures parentId.Some? && parentId.value !in old(rows) ==>
                outcome == ParentMissing && rows == old(rows) && nextId == old(nextId)
      ensures parentId.Some? && parentId.value in old(rows) && old(rows)[parentId.value].projectId != projectId ==>
                outcome == ParentInOtherProject && rows == old(rows) && nextId == old(nextId)
      ensures (parentId.None? || (parentId.value in old(rows) && old(rows)[parentId.value].projectId == projectId)) ==>
                && outcome == Done
                && old(nextId) !in old(rows)
                && rows == old(rows)[old(nextId) := Keyword(old(nextId), projectId, parentId, NextPosition(old(rows), projectId, parentId))]
                && nextId == old(nextId) + 1
    {
      if parentId.Some? {
        if parentId.value !in rows {
          return ParentMissing;
        }
        if rows[parentId.value].projectId != projectId {
          return ParentInOtherProject;
        }
      }
      var position := NextPosition(rows, projectId, parentId);
      rows := rows[nextId := Keyword(nextId, projectId, parentId, position)];
      nextId := nextId + 1;
      outcome := Done;
    }

    /**
     * `move`: the parent, when given, must exist, belong to the keyword's project and not
     * lie in the keyword's subtree (nor be the keyword); then the positions shift and the
     * keyword takes its new place.
     */
    method Move(keywordId: nat, parentId: Option<nat>, position: nat, fuel: nat) returns (outcome: Outcome)
      requires Valid() && keywordId in rows
      modifies this
      ensures Valid()
      ensures outcome == MoveCheck(old(rows), keywordId, parentId, fuel)
      ensures outcome == Done ==> rows == Moved(old(rows), keywordId, parentId, position)
      ensures outcome != Done ==> rows == old(rows)
      ensures nextId == old(nextId)
    {
      var keyword := rows[keywordId];
      if parentId.Some? {
        var p := parentId.value;
        if p !in rows {
          return ParentMissing;
        }
        if rows[p].projectId != keyword.projectId {
          return ParentInOtherProject;
        }
        if p == keywordId {
          return IntoOwnSubtree;
        }
        var descendant := IsDescendant(rows, keyword, p, fuel);
        if descendant.None? {
          return Diverges;
        }
        if descendant.value {
          return IntoOwnSubtree;
        }
      }
      ghost var before := rows;
      var oldParentId := keyword.parentId;
      if oldParentId != parentId {
        rows := ShiftDownAfter(rows, keyword.projectId, oldParentId, keyword.position);
      }
      rows := ShiftUpFrom(rows, keyword.projectId, parentId, position);
      if !SamePlace(keyword, parentId, position) {
        rows := rows[keywordId := keyword.(parentId := parentId, position := position)];
      }
      outcome := Done;
      assert rows == Moved(before, keywordId, parentId, position);
      MovedKeepsIds(before, keywordId, parentId, position);
    }
  }
}
