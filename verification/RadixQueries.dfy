/** Range queries and trimming, on the value of a tree. */
module RadixQueries {
  import opened Bytes
  import opened Slots
  import opened RadixSpec
  import opened RadixOrder

  // ---- Ranges ---------------------------------------------------------------------------------

  /** The bounds of a range: each one inclusive or exclusive. */
  datatype Bounds = Bounds(start: bytes, end: bytes, fromStart: bool, toEnd: bool) {
    predicate Contains(id: bytes) {
      (if fromStart then AtMost(start, id) else Less(start, id)) && (if toEnd then AtMost(id, end) else Less(id, end))
    }
  }

  /** "(" makes a bound exclusive, "-" and "+" stand for the smallest and for the byte 255. */
  function BoundsOf(startId: bytes, endId: bytes): Bounds {
    var (s, inclusiveStart) := if startId != [] && startId[0] == 40 then (startId[1..], false) else (startId, true);
    var (e, inclusiveEnd) := if endId != [] && endId[0] == 40 then (endId[1..], false) else (endId, true);
    Bounds(if s == [45] then [] else s, if e == [43] then [255] else e, inclusiveStart, inclusiveEnd)
  }

  /** "-" to "+" is everything, as long as IDs do not start with the byte 255. */
  lemma FullRange(id: bytes)
    requires id != [] && id[0] < 255
    ensures BoundsOf([45], [43]).Contains(id)
  {
    LessAsymmetric(id, [255]);
  }

  /** From an ID to itself is that ID; with either bound exclusive it is nothing. No command gets to an exclusive
      bound, since the stream validates its bounds first and no valid ID starts with a parenthesis. */
  lemma PointRange(id: bytes, x: bytes)
    requires id != [] && id[0] != 40 && id != [45] && id != [43]
    ensures BoundsOf(id, id).Contains(x) <==> x == id
    ensures !BoundsOf([40] + id, id).Contains(x) && !BoundsOf(id, [40] + id).Contains(x)
  {
    hide Less;
    LessTrichotomy(id, x);
    LessIrreflexive(id);
    if Less(id, x) {
      LessAsymmetric(id, x);
    }
    assert ([40] + id)[1..] == id;
  }

  function Within(es: seq<Entry>, b: Bounds): seq<Entry> {
    if es == [] then [] else (if b.Contains(es[0].id) then [es[0]] else []) + Within(es[1..], b)
  }

  /** The first `count` of them, all of them for a count of 0. */
  function Limit(es: seq<Entry>, count: nat): seq<Entry> {
    if count > 0 && |es| > count then es[..count] else es
  }

  lemma {:induction false} WithinAppend(a: seq<Entry>, c: seq<Entry>, b: Bounds)
    ensures Within(a + c, b) == Within(a, b) + Within(c, b)
    decreases |a|
  {
    if a == [] {
      assert a + c == c;
    } else {
      assert (a + c)[1..] == a[1..] + c;
      WithinAppend(a[1..], c, b);
    }
  }

  /** Entries that share their ID are all in range or all out of range. */
  lemma {:induction false} WithinSameId(es: seq<Entry>, id: bytes, b: Bounds)
    requires forall i :: 0 <= i < |es| ==> es[i].id == id
    ensures Within(es, b) == if b.Contains(id) then es else []
  {
    if es != [] {
      WithinSameId(es[1..], id, b);
    }
  }

  lemma LimitTwice(a: seq<Entry>, c: seq<Entry>, count: nat)
    ensures Limit(Limit(a, count) + c, count) == Limit(a + c, count)
  {
  }

  // ---- Trimming by size -----------------------------------------------------------------------

  function Min(a: nat, b: nat): nat {
    if a <= b then a else b
  }

  /** Removing up to k entries in traversal order, and how many remain to be removed. The traversal
      takes from a leaf and returns, without a look at what is below it. */
  function TrimSize(t: Tree, k: nat): (r: (Tree, nat))
    ensures r.0.prefix == t.prefix && r.0.isLeaf == t.isLeaf && |r.0.kids| == |t.kids| && r.1 <= k
    decreases t, 1
  {
    if t.isLeaf then
      var m := Min(k, |t.entries|);
      (t.(entries := t.entries[m..]), k - m)
    else
      var (kids, k') := TrimSizeKids(t.kids, k);
      (t.(kids := kids), k')
  }

  function TrimSizeKids(kids: seq<Slot<Tree>>, k: nat): (r: (seq<Slot<Tree>>, nat))
    ensures |r.0| == |kids| && r.1 <= k
    decreases kids, 0
  {
    if kids == [] then ([], k)
    else
      assert kids[0].child < kids[0];
      var (child, k1) := TrimSize(kids[0].child, k);
      var (others, k2) := TrimSizeKids(kids[1..], k1);
      ([Slot(kids[0].key, child)] + others, k2)
  }

  /** The entries that the traversal can get at: those of leaves with no leaf above them. */
  function Top(t: Tree): seq<Entry>
    decreases t, 1
  {
    if t.isLeaf then t.entries else TopKids(t.kids)
  }

  function TopKids(kids: seq<Slot<Tree>>): seq<Entry>
    decreases kids, 0
  {
    if kids == [] then [] else assert kids[0].child < kids[0]; Top(kids[0].child) + TopKids(kids[1..])
  }

  /** No leaf has anything below it. */
  predicate LeavesAreEnds(t: Tree) {
    (t.isLeaf ==> t.kids == []) && forall i :: 0 <= i < |t.kids| ==> LeavesAreEnds(t.kids[i].child)
  }

  lemma {:induction false} TopIsDfs(t: Tree)
    requires LeavesAreEnds(t) && (t.isLeaf || t.entries == [])
    requires forall i :: 0 <= i < |t.kids| ==> BareUnlessLeaf(t.kids[i].child)
    ensures Top(t) == Dfs(t)
    decreases t, 1
  {
    if t.isLeaf {
      assert Dfs(t) == t.entries + [];
    } else {
      TopKidsIsDfsKids(t.kids);
    }
  }

  predicate BareUnlessLeaf(t: Tree) {
    (t.isLeaf || t.entries == []) && forall i :: 0 <= i < |t.kids| ==> BareUnlessLeaf(t.kids[i].child)
  }

  lemma {:induction false} TopKidsIsDfsKids(kids: seq<Slot<Tree>>)
    requires forall i :: 0 <= i < |kids| ==> LeavesAreEnds(kids[i].child) && BareUnlessLeaf(kids[i].child)
    ensures TopKids(kids) == DfsKids(kids)
    decreases kids, 0
  {
    if kids != [] {
      assert kids[0].child < kids[0];
      TopIsDfs(kids[0].child);
      TopKidsIsDfsKids(kids[1..]);
    }
  }

  lemma {:induction false} ShapeBare(t: Tree, path: bytes)
    requires Shape(t, path)
    ensures BareUnlessLeaf(t)
  {
    forall i | 0 <= i < |t.kids| ensures BareUnlessLeaf(t.kids[i].child) {
      KidOf(t, path, i);
      ShapeBare(t.kids[i].child, path + t.kids[i].child.prefix);
    }
  }

  /** What trimming by size does, exactly, on any tree: the first min(k, |Top|) reachable entries
      go, and nothing else. */
  predicate TrimmedBySize(top: seq<Entry>, top': seq<Entry>, dfs: seq<Entry>, dfs': seq<Entry>, k: nat, k': nat) {
    var m := Min(k, |top|);
    top' == top[m..] && k' == k - m && multiset(dfs) == multiset(dfs') + multiset(top[..m]) && |dfs| == |dfs'| + m
  }

  lemma {:induction false} TrimSizeExact(t: Tree, k: nat)
    ensures var (t', k') := TrimSize(t, k); TrimmedBySize(Top(t), Top(t'), Dfs(t), Dfs(t'), k, k')
    decreases t, 1
  {
    var (t', k') := TrimSize(t, k);
    DfsNode(t); DfsNode(t');
    if t.isLeaf {
      TrimOwnSize(t.entries, DfsKids(t.kids), k);
    } else {
      TrimSizeKidsExact(t.kids, k);
      hide TrimSizeKids, Dfs, DfsKids, TopKids;
      TrimBelowSize(t.entries, TopKids(t.kids), TopKids(t'.kids), DfsKids(t.kids), DfsKids(t'.kids), k, k');
    }
  }

  lemma TrimOwnSize(es: seq<Entry>, f: seq<Entry>, k: nat)
    ensures var m := Min(k, |es|); TrimmedBySize(es, es[m..], es + f, es[m..] + f, k, k - m)
  {
    var m := Min(k, |es|);
    assert es == es[..m] + es[m..];
  }

  lemma TrimBelowSize(es: seq<Entry>, top: seq<Entry>, top': seq<Entry>, f: seq<Entry>, f': seq<Entry>, k: nat, k': nat)
    requires TrimmedBySize(top, top', f, f', k, k')
    ensures TrimmedBySize(top, top', es + f, es + f', k, k')
  {
  }

  lemma {:induction false} TrimSizeKidsExact(kids: seq<Slot<Tree>>, k: nat)
    ensures var (kids', k') := TrimSizeKids(kids, k); TrimmedBySize(TopKids(kids), TopKids(kids'), DfsKids(kids), DfsKids(kids'), k, k')
    decreases kids, 0
  {
    if kids != [] {
      assert kids[0].child < kids[0];
      var (child, k1) := TrimSize(kids[0].child, k);
      var (others, k2) := TrimSizeKids(kids[1..], k1);
      var kids' := [Slot(kids[0].key, child)] + others;
      assert kids'[1..] == others;
      TrimSizeExact(kids[0].child, k);
      TrimSizeKidsExact(kids[1..], k1);
      var a, b := Top(kids[0].child), TopKids(kids[1..]);
      TrimJoin(a, Top(child), Dfs(kids[0].child), Dfs(child), k, k1, b, TopKids(others), DfsKids(kids[1..]), DfsKids(others), k2);
    }
  }

  lemma TrimJoin(a: seq<Entry>, a': seq<Entry>, d: seq<Entry>, d': seq<Entry>, k: nat, k1: nat,
                 b: seq<Entry>, b': seq<Entry>, f: seq<Entry>, f': seq<Entry>, k2: nat)
    requires TrimmedBySize(a, a', d, d', k, k1) && TrimmedBySize(b, b', f, f', k1, k2)
    ensures TrimmedBySize(a + b, a' + b', d + f, d' + f', k, k2)
  {
    var m, n := Min(k, |a|), Min(k1, |b|);
    assert (a + b)[..m + n] == a[..m] + b[..n];
    assert (a + b)[m + n..] == a[m..] + b[n..];
    assert Min(k, |a + b|) == m + n;
    BagJoin(d, d', a[..m], f, f', b[..n]);
  }

  lemma BagJoin<T>(d: seq<T>, d': seq<T>, a: seq<T>, f: seq<T>, f': seq<T>, b: seq<T>)
    requires multiset(d) == multiset(d') + multiset(a) && multiset(f) == multiset(f') + multiset(b)
    ensures multiset(d + f) == multiset(d' + f') + multiset(a + b)
  {
  }

  /** k' stands where k stood, in shape, and is in key order and free of buried leaves if k is. */
  predicate SameFrame(k: Slot<Tree>, k': Slot<Tree>, path: bytes) {
    && k'.key == k.key && ShapeKid(k', path)
    && (SortedTree(k.child) ==> SortedTree(k'.child))
    && (LeavesAreEnds(k.child) ==> LeavesAreEnds(k'.child))
  }

  /** With children that stand where the old ones stood, a node keeps its shape. */
  lemma FramedShape(t: Tree, kids: seq<Slot<Tree>>, path: bytes)
    requires Shape(t, path) && |kids| == |t.kids| && forall i :: 0 <= i < |kids| ==> SameFrame(t.kids[i], kids[i], path)
    requires LeavesKids(kids, path) == LeavesKids(t.kids, path)
    ensures var t' := t.(kids := kids);
      && Shape(t', path) && Leaves(t', path) == Leaves(t, path)
      && (SortedTree(t) ==> SortedTree(t')) && (LeavesAreEnds(t) ==> LeavesAreEnds(t'))
  {
    hide ShapeKid;
    LeavesNode(t, path);
    LeavesNode(t.(kids := kids), path);
  }

  /** So does a leaf that has lost some of its entries. */
  lemma OwnEntriesShape(t: Tree, path: bytes, t': Tree)
    requires Shape(t, path) && t.isLeaf && t' == t.(entries := t'.entries)
    requires |t'.entries| <= |t.entries| && t'.entries == t.entries[|t.entries| - |t'.entries|..]
    ensures Shape(t', path) && Leaves(t', path) == Leaves(t, path)
    ensures (SortedTree(t) ==> SortedTree(t')) && (LeavesAreEnds(t) ==> LeavesAreEnds(t'))
  {
    hide ShapeKid;
    LeavesNode(t, path);
    LeavesNode(t', path);
  }

  /** Trimming changes neither the shape nor which IDs have a node. */
  lemma {:induction false} TrimSizeShape(t: Tree, path: bytes, k: nat)
    requires Shape(t, path)
    ensures var t' := TrimSize(t, k).0; Shape(t', path) && Leaves(t', path) == Leaves(t, path)
    ensures SortedTree(t) ==> SortedTree(TrimSize(t, k).0)
    ensures LeavesAreEnds(t) ==> LeavesAreEnds(TrimSize(t, k).0)
    decreases t, 1
  {
    if t.isLeaf {
      OwnEntriesShape(t, path, TrimSize(t, k).0);
    } else {
      TrimSizeKidsShape(t.kids, path, k);
      hide Shape, SortedTree, LeavesAreEnds, Leaves, LeavesKids, SameFrame, TrimSizeKids;
      FramedShape(t, TrimSizeKids(t.kids, k).0, path);
    }
  }

  lemma {:induction false} TrimSizeKidsShape(kids: seq<Slot<Tree>>, path: bytes, k: nat)
    requires forall i :: 0 <= i < |kids| ==> ShapeKid(kids[i], path)
    ensures var kids' := TrimSizeKids(kids, k).0;
      (forall i :: 0 <= i < |kids| ==> SameFrame(kids[i], kids'[i], path)) && LeavesKids(kids', path) == LeavesKids(kids, path)
    decreases kids, 0
  {
    if kids != [] {
      assert kids[0].child < kids[0];
      TrimSizeShape(kids[0].child, path + kids[0].child.prefix, k);
      var (child, k1) := TrimSize(kids[0].child, k);
      var (others, k2) := TrimSizeKids(kids[1..], k1);
      var kids' := [Slot(kids[0].key, child)] + others;
      assert kids'[1..] == others;
      assert ShapeKid(kids[0], path) && ShapeKid(kids'[0], path);
      assert SameFrame(kids[0], kids'[0], path);
      TrimSizeKidsShape(kids[1..], path, k1);
      hide ShapeKid, SameFrame, Leaves, TrimSize;
      assert forall i :: 0 < i < |kids| ==> kids[i] == kids[1..][i - 1] && kids'[i] == others[i - 1];
    }
  }

  /** Where no leaf has another below it, trimming by size drops the first k entries. */
  lemma TrimSizeDropsFirst(t: Tree, path: bytes, k: nat)
    requires Shape(t, path) && LeavesAreEnds(t)
    ensures Dfs(TrimSize(t, k).0) == Dfs(t)[Min(k, |Dfs(t)|)..]
  {
    var t' := TrimSize(t, k).0;
    TrimSizeExact(t, k);
    TrimSizeShape(t, path, k);
    ShapeBare(t, path);
    ShapeBare(t', path);
    TopIsDfs(t);
    TopIsDfs(t');
  }

  /** No ID in the list is a proper prefix of another. */
  predicate PrefixFree(ls: seq<bytes>) {
    forall i, j :: 0 <= i < |ls| && 0 <= j < |ls| ==> !(|ls[i]| < |ls[j]| && ls[i] == ls[j][..|ls[i]|])
  }

  /** If no ID that ever got a node is a proper prefix of another, no leaf is buried. */
  lemma {:induction false} PrefixFreeLeaves(t: Tree, path: bytes)
    requires Shape(t, path) && PrefixFree(Leaves(t, path))
    ensures LeavesAreEnds(t)
  {
    forall i | 0 <= i < |t.kids| ensures !t.isLeaf && LeavesAreEnds(t.kids[i].child) {
      var child := t.kids[i].child;
      KidOf(t, path, i);
      var at := LeavesOfKid(t, path, i);
      StretchPrefixFree(Leaves(t, path), at, Leaves(child, path + child.prefix));
      PrefixFreeLeaves(child, path + child.prefix);
      var j, s := SomeLeaf(child, path + child.prefix);
      if t.isLeaf {
        OwnLeaf(t, path);
      }
      hide Shape, ShapeKid, LeavesAreEnds, PrefixFree;
      assert Leaves(child, path + child.prefix)[j] in Leaves(t, path);
      var k :| 0 <= k < |Leaves(t, path)| && Leaves(t, path)[k] == path + child.prefix + s;
      ExtensionBuries(Leaves(t, path), k, path, child.prefix, s);
    }
  }

  /** The leaves of a child are a stretch of all leaves. */
  lemma LeavesOfKid(t: Tree, path: bytes, i: nat) returns (at: nat)
    requires i < |t.kids|
    ensures var ls, all := Leaves(t.kids[i].child, path + t.kids[i].child.prefix), Leaves(t, path);
      at + |ls| <= |all| && all[at..at + |ls|] == ls
  {
    LeavesNode(t, path);
    LeavesKidsAt(t.kids, i, path);
    hide Leaves, LeavesKids;
    var own := if t.isLeaf then [path] else [];
    at := |own| + |LeavesKids(t.kids[..i], path)|;
    Stretch(own, LeavesKids(t.kids[..i], path), Leaves(t.kids[i].child, path + t.kids[i].child.prefix), LeavesKids(t.kids[i + 1..], path));
  }

  lemma Stretch<T>(a: seq<T>, b: seq<T>, c: seq<T>, d: seq<T>)
    ensures var all := a + (b + c + d); all[|a| + |b|..|a| + |b| + |c|] == c
  {
  }

  lemma OwnLeaf(t: Tree, path: bytes)
    requires t.isLeaf
    ensures path in Leaves(t, path)
  {
    LeavesNode(t, path);
    hide Leaves, LeavesKids;
    assert Leaves(t, path)[0] == path;
  }

  lemma StretchPrefixFree(all: seq<bytes>, at: nat, ls: seq<bytes>)
    requires at + |ls| <= |all| && all[at..at + |ls|] == ls
    ensures forall l :: l in ls ==> l in all
    ensures PrefixFree(all) ==> PrefixFree(ls)
  {
    assert forall j :: 0 <= j < |ls| ==> all[at + j] == ls[j];
  }

  lemma ExtensionBuries(ls: seq<bytes>, i: nat, path: bytes, a: bytes, b: bytes)
    requires PrefixFree(ls) && i < |ls| && a != [] && ls[i] == path + a + b
    ensures path !in ls
  {
    assert ls[i][..|path|] == path;
  }

  // ---- Trimming by smallest ID ----------------------------------------------------------------

  /** The first entry of a leaf that stays. */
  function FirstKept(es: seq<Entry>, minId: bytes): (i: nat)
    ensures i <= |es| && (forall j :: 0 <= j < i ==> Less(es[j].id, minId)) && (i < |es| ==> AtMost(minId, es[i].id))
  {
    if es == [] || AtMost(minId, es[0].id) then 0 else FirstKept(es[1..], minId) + 1
  }

  /** The trimmed tree, and whether the traversal has met an entry that stays, where it ends. */
  function TrimMin(t: Tree, minId: bytes): (r: (Tree, bool))
    ensures r.0.prefix == t.prefix && r.0.isLeaf == t.isLeaf && |r.0.kids| == |t.kids|
    decreases t, 1
  {
    if t.isLeaf then
      var i := FirstKept(t.entries, minId);
      (t.(entries := t.entries[i..]), i < |t.entries|)
    else
      var (kids, stop) := TrimMinKids(t.kids, minId);
      (t.(kids := kids), stop)
  }

  function TrimMinKids(kids: seq<Slot<Tree>>, minId: bytes): (r: (seq<Slot<Tree>>, bool))
    ensures |r.0| == |kids|
    decreases kids, 0
  {
    if kids == [] then ([], false)
    else
      assert kids[0].child < kids[0];
      var (child, stop) := TrimMin(kids[0].child, minId);
      if stop then ([Slot(kids[0].key, child)] + kids[1..], true)
      else
        var (others, stop') := TrimMinKids(kids[1..], minId);
        ([Slot(kids[0].key, child)] + others, stop')
  }

  /** Only entries below minId go; and what is left reachable starts with one that stays. */
  predicate TrimmedByMin(top: seq<Entry>, top': seq<Entry>, dfs: seq<Entry>, dfs': seq<Entry>, minId: bytes, stop: bool) {
    exists m :: 0 <= m <= |top| && TrimmedByMinAt(top, top', dfs, dfs', minId, stop, m)
  }

  predicate TrimmedByMinAt(top: seq<Entry>, top': seq<Entry>, dfs: seq<Entry>, dfs': seq<Entry>, minId: bytes, stop: bool, m: nat)
    requires m <= |top|
  {
    && top' == top[m..]
    && (forall i :: 0 <= i < m ==> Less(top[i].id, minId))
    && (if stop then m < |top| && AtMost(minId, top[m].id) else m == |top|)
    && multiset(dfs) == multiset(dfs') + multiset(top[..m])
    && |dfs| == |dfs'| + m
  }

  lemma {:induction false} TrimMinExact(t: Tree, minId: bytes)
    ensures var (t', stop) := TrimMin(t, minId); TrimmedByMin(Top(t), Top(t'), Dfs(t), Dfs(t'), minId, stop)
    decreases t, 1
  {
    var (t', stop) := TrimMin(t, minId);
    DfsNode(t); DfsNode(t');
    if t.isLeaf {
      TrimOwnMin(t.entries, DfsKids(t.kids), minId);
    } else {
      TrimMinKidsExact(t.kids, minId);
      hide TrimMinKids, Dfs, DfsKids, TopKids;
      TrimBelowMin(t.entries, TopKids(t.kids), TopKids(t'.kids), DfsKids(t.kids), DfsKids(t'.kids), minId, stop);
    }
  }

  lemma TrimOwnMin(es: seq<Entry>, f: seq<Entry>, minId: bytes)
    ensures var m := FirstKept(es, minId); TrimmedByMin(es, es[m..], es + f, es[m..] + f, minId, m < |es|)
  {
    hide Less;
    var m := FirstKept(es, minId);
    assert es == es[..m] + es[m..];
    assert TrimmedByMinAt(es, es[m..], es + f, es[m..] + f, minId, m < |es|, m);
  }

  lemma TrimBelowMin(es: seq<Entry>, top: seq<Entry>, top': seq<Entry>, f: seq<Entry>, f': seq<Entry>, minId: bytes, stop: bool)
    requires TrimmedByMin(top, top', f, f', minId, stop)
    ensures TrimmedByMin(top, top', es + f, es + f', minId, stop)
  {
    hide Less;
    var m :| 0 <= m <= |top| && TrimmedByMinAt(top, top', f, f', minId, stop, m);
    assert TrimmedByMinAt(top, top', es + f, es + f', minId, stop, m);
  }

  lemma {:induction false} TrimMinKidsExact(kids: seq<Slot<Tree>>, minId: bytes)
    ensures var (kids', stop) := TrimMinKids(kids, minId);
      TrimmedByMin(TopKids(kids), TopKids(kids'), DfsKids(kids), DfsKids(kids'), minId, stop)
    decreases kids, 0
  {
    if kids == [] {
      assert TrimmedByMinAt([], [], [], [], minId, false, 0);
    } else {
      assert kids[0].child < kids[0];
      var (child, stop) := TrimMin(kids[0].child, minId);
      TrimMinExact(kids[0].child, minId);
      var (kids', stop') := TrimMinKids(kids, minId);
      var a, a', d, d' := Top(kids[0].child), Top(child), Dfs(kids[0].child), Dfs(child);
      var b, f := TopKids(kids[1..]), DfsKids(kids[1..]);
      if stop {
        assert kids'[1..] == kids[1..];
        TrimMinStopped(a, a', d, d', b, f, minId);
      } else {
        TrimMinKidsExact(kids[1..], minId);
        var (others, _) := TrimMinKids(kids[1..], minId);
        assert kids'[1..] == others;
        TrimMinJoined(a, a', d, d', b, TopKids(others), f, DfsKids(others), minId, stop');
      }
    }
  }

  lemma TrimMinStopped(a: seq<Entry>, a': seq<Entry>, d: seq<Entry>, d': seq<Entry>, b: seq<Entry>, f: seq<Entry>, minId: bytes)
    requires TrimmedByMin(a, a', d, d', minId, true)
    ensures TrimmedByMin(a + b, a' + b, d + f, d' + f, minId, true)
  {
    var m :| 0 <= m <= |a| && TrimmedByMinAt(a, a', d, d', minId, true, m);
    assert (a + b)[..m] == a[..m] && (a + b)[m..] == a[m..] + b;
    assert TrimmedByMinAt(a + b, a' + b, d + f, d' + f, minId, true, m);
  }

  lemma TrimMinJoined(a: seq<Entry>, a': seq<Entry>, d: seq<Entry>, d': seq<Entry>, b: seq<Entry>, b': seq<Entry>,
                      f: seq<Entry>, f': seq<Entry>, minId: bytes, stop: bool)
    requires TrimmedByMin(a, a', d, d', minId, false) && TrimmedByMin(b, b', f, f', minId, stop)
    ensures TrimmedByMin(a + b, a' + b', d + f, d' + f', minId, stop)
  {
    hide TrimmedByMinAt;
    var n :| 0 <= n <= |a| && TrimmedByMinAt(a, a', d, d', minId, false, n);
    var m :| 0 <= m <= |b| && TrimmedByMinAt(b, b', f, f', minId, stop, m);
    TrimMinJoinedAt(a, a', d, d', b, b', f, f', minId, stop, n, m);
  }

  lemma TrimMinJoinedAt(a: seq<Entry>, a': seq<Entry>, d: seq<Entry>, d': seq<Entry>, b: seq<Entry>, b': seq<Entry>,
                        f: seq<Entry>, f': seq<Entry>, minId: bytes, stop: bool, n: nat, m: nat)
    requires n <= |a| && TrimmedByMinAt(a, a', d, d', minId, false, n)
    requires m <= |b| && TrimmedByMinAt(b, b', f, f', minId, stop, m)
    ensures n + m <= |a + b| && TrimmedByMinAt(a + b, a' + b', d + f, d' + f', minId, stop, n + m)
  {
    hide Less;
    assert a' == [] && a[..n] == a;
    JoinSlices(a, b, m);
    assert a' + b' == b';
    BagJoin(d, d', a, f, f', b[..m]);
    forall i | 0 <= i < n + m ensures Less((a + b)[i].id, minId) {
      assert (a + b)[i] == if i < n then a[i] else b[i - n];
    }
  }

  lemma JoinSlices<T>(a: seq<T>, b: seq<T>, m: nat)
    requires m <= |b|
    ensures (a + b)[..|a| + m] == a + b[..m] && (a + b)[|a| + m..] == b[m..]
  {
  }

  lemma {:induction false} TrimMinShape(t: Tree, path: bytes, minId: bytes)
    requires Shape(t, path)
    ensures var t' := TrimMin(t, minId).0; Shape(t', path) && Leaves(t', path) == Leaves(t, path)
    ensures SortedTree(t) ==> SortedTree(TrimMin(t, minId).0)
    ensures LeavesAreEnds(t) ==> LeavesAreEnds(TrimMin(t, minId).0)
    decreases t, 1
  {
    if t.isLeaf {
      OwnEntriesShape(t, path, TrimMin(t, minId).0);
    } else {
      TrimMinKidsShape(t.kids, path, minId);
      hide Shape, SortedTree, LeavesAreEnds, Leaves, LeavesKids, SameFrame, TrimMinKids;
      FramedShape(t, TrimMinKids(t.kids, minId).0, path);
    }
  }

  lemma {:induction false} TrimMinKidsShape(kids: seq<Slot<Tree>>, path: bytes, minId: bytes)
    requires forall i :: 0 <= i < |kids| ==> ShapeKid(kids[i], path)
    ensures var kids' := TrimMinKids(kids, minId).0;
      (forall i :: 0 <= i < |kids| ==> SameFrame(kids[i], kids'[i], path)) && LeavesKids(kids', path) == LeavesKids(kids, path)
    decreases kids, 0
  {
    if kids != [] {
      assert kids[0].child < kids[0];
      TrimMinShape(kids[0].child, path + kids[0].child.prefix, minId);
      var (child, stop) := TrimMin(kids[0].child, minId);
      var kids' := TrimMinKids(kids, minId).0;
      var others := kids'[1..];
      assert SameFrame(kids[0], kids'[0], path);
      if stop {
        assert others == kids[1..];
        assert forall i :: 0 <= i < |others| ==> SameFrame(others[i], others[i], path);
      } else {
        TrimMinKidsShape(kids[1..], path, minId);
        assert others == TrimMinKids(kids[1..], minId).0;
      }
      hide ShapeKid, SameFrame, Leaves, TrimMin;
      assert forall i :: 0 < i < |kids| ==> kids[i] == kids[1..][i - 1] && kids'[i] == others[i - 1];
    }
  }

  predicate Increasing(es: seq<Entry>) {
    forall i, j :: 0 <= i < j < |es| ==> Less(es[i].id, es[j].id)
  }

  /** The entries at or above minId. */
  function Kept(es: seq<Entry>, minId: bytes): seq<Entry> {
    if es == [] then [] else (if AtMost(minId, es[0].id) then [es[0]] else []) + Kept(es[1..], minId)
  }

  lemma {:induction false} KeptAll(es: seq<Entry>, minId: bytes)
    ensures (forall i :: 0 <= i < |es| ==> AtMost(minId, es[i].id)) ==> Kept(es, minId) == es
    ensures (forall i :: 0 <= i < |es| ==> Less(es[i].id, minId)) ==> Kept(es, minId) == []
  {
    if es != [] {
      KeptAll(es[1..], minId);
    }
  }

  /** In a sorted tree where no leaf has another below it, trimming by smallest ID keeps exactly
      the entries at or above it. */
  lemma TrimMinKeepsRest(t: Tree, path: bytes, minId: bytes)
    requires Shape(t, path) && LeavesAreEnds(t) && Increasing(Dfs(t))
    ensures Dfs(TrimMin(t, minId).0) == Kept(Dfs(t), minId)
  {
    var (t', stop) := TrimMin(t, minId);
    TrimMinExact(t, minId);
    TrimMinShape(t, path, minId);
    ShapeBare(t, path);
    ShapeBare(t', path);
    TopIsDfs(t);
    TopIsDfs(t');
    hide *;
    KeptIsTail(Dfs(t), Dfs(t'), minId, stop);
  }

  lemma KeptIsTail(es: seq<Entry>, es': seq<Entry>, minId: bytes, stop: bool)
    requires Increasing(es) && TrimmedByMin(es, es', es, es', minId, stop)
    ensures es' == Kept(es, minId)
  {
    hide Kept, Less, Increasing;
    var m :| 0 <= m <= |es| && TrimmedByMinAt(es, es', es, es', minId, stop, m);
    KeptOfIncreasing(es, minId, m);
  }

  lemma {:induction false} KeptOfIncreasing(es: seq<Entry>, minId: bytes, m: nat)
    requires Increasing(es) && m <= |es| && (forall i :: 0 <= i < m ==> Less(es[i].id, minId))
    requires m < |es| ==> AtMost(minId, es[m].id)
    ensures Kept(es, minId) == es[m..]
    decreases m
  {
    hide Less;
    if m == 0 {
      forall i | 0 <= i < |es| ensures AtMost(minId, es[i].id) {
        if i > 0 {
          AtMostLessBack(minId, es[0].id, es[i].id);
        }
      }
      KeptAll(es, minId);
    } else {
      KeptOfIncreasing(es[1..], minId, m - 1);
    }
  }

  lemma AtMostLessBack(a: bytes, b: bytes, c: bytes)
    requires AtMost(a, b) && Less(b, c)
    ensures AtMost(a, c)
  {
    AtMostLess(a, b, c);
    LessAsymmetric(a, c);
  }
}
