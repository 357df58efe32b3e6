/** Which IDs have a node, and that trimming leaves a subsequence of the entries. */
module RadixLeaves {
  import opened Bytes
  import opened Slots
  import opened RadixSpec
  import opened RadixOrder
  import opened RadixQueries

  // ---- The IDs that have a node ---------------------------------------------------------------

  /** l is the ID of a leaf below one of the children. */
  predicate LeafBelow(kids: seq<Slot<Tree>>, path: bytes, l: bytes) {
    exists i :: 0 <= i < |kids| && LeafOf(kids[i], path, l)
  }

  predicate LeafOf(kid: Slot<Tree>, path: bytes, l: bytes) {
    l in Leaves(kid.child, path + kid.child.prefix)
  }

  lemma {:induction false} LeavesKidsMembers(kids: seq<Slot<Tree>>, path: bytes, l: bytes)
    ensures l in LeavesKids(kids, path) <==> LeafBelow(kids, path, l)
    decreases |kids|
  {
    hide Leaves;
    if kids != [] {
      LeavesKidsMembers(kids[1..], path, l);
      if LeafBelow(kids[1..], path, l) {
        var i :| 0 <= i < |kids[1..]| && LeafOf(kids[1..][i], path, l);
        assert kids[i + 1] == kids[1..][i];
      }
      if LeafBelow(kids, path, l) && !LeafOf(kids[0], path, l) {
        var i :| 0 <= i < |kids| && LeafOf(kids[i], path, l);
        assert kids[1..][i - 1] == kids[i];
      }
    }
  }

  /** The IDs of the leaves of r are those of t, and id. */
  ghost predicate OnlyAdds(r: Tree, t: Tree, base: bytes, id: bytes) {
    forall l :: l in Leaves(r, base + r.prefix) <==> l == id || l in Leaves(t, base + t.prefix)
  }

  /** Insertion gives the ID a node, and no other. */
  lemma {:induction false} InsertLeaves(t: Tree, base: bytes, id: bytes, e: Entry)
    requires Shape(t, base + t.prefix) && Keyed(t) && Reaches(t, id)
    requires t.prefix == [] || t.isLeaf || t.kids != []
    ensures OnlyAdds(Insert(t, id, e), t, base, base + id)
    decreases |id|, if t.prefix == [] then 1 else 0, |t.prefix|
  {
    hide OnlyAdds, Leaves, Add, Shape;
    var n := CommonPrefix(t.prefix, id);
    if n == |t.prefix| {
      assert id == t.prefix + id[n..];
      var rest, path := id[n..], base + t.prefix;
      assert path + rest == base + id;
      if rest == [] {
        assert path + rest == path;
        AddsHere(t, base, e);
      } else {
        match Find(t.kids, rest[0])
        case None => AddsNewKid(t, base, rest, e);
        case Some(i) =>
          KidOf(t, path, i);
          InsertLeaves(t.kids[i].child, path, rest, e);
          AddsInKid(t, base, i, Insert(t.kids[i].child, rest, e), base + id);
      }
    } else {
      assert t.prefix != [] && n > 0;
      SplitKeeps(t, base, n);
      ShapeKeyed(Split(t, n), base + t.prefix[..n]);
      InsertLeaves(Split(t, n), base, id, e);
      AddsSame(Insert(t, id, e), Split(t, n), t, base, base + id);
    }
  }

  lemma AddsSame(r: Tree, s: Tree, t: Tree, base: bytes, id: bytes)
    requires OnlyAdds(r, s, base, id) && Leaves(s, base + s.prefix) == Leaves(t, base + t.prefix)
    ensures OnlyAdds(r, t, base, id)
  {
  }

  lemma AddsHere(t: Tree, base: bytes, e: Entry)
    ensures OnlyAdds(t.(isLeaf := true, entries := t.entries + [e]), t, base, base + t.prefix)
  {
    var r := t.(isLeaf := true, entries := t.entries + [e]);
    LeavesNode(r, base + t.prefix);
    LeavesNode(t, base + t.prefix);
  }

  lemma AddsNewKid(t: Tree, base: bytes, rest: bytes, e: Entry)
    requires rest != []
    ensures OnlyAdds(t.(kids := Add(t.kids, rest[0], Tree(rest, [], true, [e]))), t, base, base + t.prefix + rest)
  {
    var path := base + t.prefix;
    var kid := Slot(rest[0], Tree(rest, [], true, [e]));
    var kids := Add(t.kids, kid.key, kid.child);
    AddBag(t.kids, kid.key, kid.child);
    hide Add, Leaves;
    LeavesNode(t, path);
    LeavesNode(t.(kids := kids), path);
    LeavesNode(kid.child, path + rest);
    forall l ensures l in LeavesKids(kids, path) <==> l == path + rest || l in LeavesKids(t.kids, path) {
      LeavesKidsMembers(kids, path, l);
      LeavesKidsMembers(t.kids, path, l);
      hide LeavesKids;
      SameSlots(kids, t.kids, kid, path, l);
    }
  }

  lemma SameSlots(kids: seq<Slot<Tree>>, before: seq<Slot<Tree>>, kid: Slot<Tree>, path: bytes, l: bytes)
    requires multiset(kids) == multiset(before) + multiset{kid}
    ensures LeafBelow(kids, path, l) <==> LeafOf(kid, path, l) || LeafBelow(before, path, l)
  {
    hide LeafOf;
    if LeafBelow(kids, path, l) {
      var i :| 0 <= i < |kids| && LeafOf(kids[i], path, l);
      assert kids[i] in multiset(kids);
      if kids[i] != kid {
        assert kids[i] in before;
      }
    }
    if LeafOf(kid, path, l) {
      assert kid in multiset(kids);
      var i :| 0 <= i < |kids| && kids[i] == kid;
    }
    if LeafBelow(before, path, l) {
      var i :| 0 <= i < |before| && LeafOf(before[i], path, l);
      assert before[i] in multiset(before) && before[i] in multiset(kids);
      var j :| 0 <= j < |kids| && kids[j] == before[i];
    }
  }

  lemma AddsInKid(t: Tree, base: bytes, i: nat, child: Tree, id: bytes)
    requires i < |t.kids| && OnlyAdds(child, t.kids[i].child, base + t.prefix, id)
    ensures OnlyAdds(WithKid(t, i, child), t, base, id)
  {
    var path := base + t.prefix;
    var kids := WithKid(t, i, child).kids;
    hide Leaves;
    LeavesNode(t, path);
    LeavesNode(t.(kids := kids), path);
    forall l ensures l in LeavesKids(kids, path) <==> l == id || l in LeavesKids(t.kids, path) {
      LeavesKidsMembers(kids, path, l);
      LeavesKidsMembers(t.kids, path, l);
      hide LeavesKids;
      assert LeafOf(kids[i], path, l) <==> l == id || LeafOf(t.kids[i], path, l);
      assert forall j :: 0 <= j < |kids| && j != i ==> kids[j] == t.kids[j];
      hide LeafOf;
      OneSlot(kids, t.kids, i, path, l, l == id);
    }
  }

  lemma OneSlot(kids: seq<Slot<Tree>>, before: seq<Slot<Tree>>, i: nat, path: bytes, l: bytes, isNew: bool)
    requires |kids| == |before| && i < |kids| && forall j :: 0 <= j < |kids| && j != i ==> kids[j] == before[j]
    requires LeafOf(kids[i], path, l) <==> isNew || LeafOf(before[i], path, l)
    ensures LeafBelow(kids, path, l) <==> isNew || LeafBelow(before, path, l)
  {
    hide LeafOf;
    if LeafBelow(kids, path, l) {
      var j :| 0 <= j < |kids| && LeafOf(kids[j], path, l);
      assert isNew || LeafOf(before[j], path, l);
    }
    if LeafBelow(before, path, l) {
      var j :| 0 <= j < |before| && LeafOf(before[j], path, l);
      assert LeafOf(kids[j], path, l);
    }
  }

  /** Every entry's ID is the ID of a leaf. */
  lemma {:induction false} EntriesAtLeaves(t: Tree, path: bytes, e: Entry)
    requires Shape(t, path) && e in Dfs(t)
    ensures e.id in Leaves(t, path)
    decreases t, 1
  {
    hide Leaves;
    LeavesNode(t, path);
    DfsNode(t);
    if e in t.entries {
      assert t.isLeaf;
    } else {
      EntriesAtLeavesKids(t.kids, path, e);
    }
  }

  lemma {:induction false} EntriesAtLeavesKids(kids: seq<Slot<Tree>>, path: bytes, e: Entry)
    requires (forall i :: 0 <= i < |kids| ==> ShapeKid(kids[i], path)) && e in DfsKids(kids)
    ensures e.id in LeavesKids(kids, path)
    decreases kids, 0
  {
    assert kids[0].child < kids[0];
    if e in Dfs(kids[0].child) {
      assert ShapeKid(kids[0], path);
      EntriesAtLeaves(kids[0].child, path + kids[0].child.prefix, e);
    } else {
      EntriesAtLeavesKids(kids[1..], path, e);
    }
  }

  // ---- What the traversals by size can get at -------------------------------------------------

  /** a is a proper prefix of b. */
  predicate Shortens(a: bytes, b: bytes) {
    |a| < |b| && b[..|a|] == a
  }

  /** One of the IDs is a proper prefix of id. */
  predicate IsBuried(ls: seq<bytes>, id: bytes) {
    exists i :: 0 <= i < |ls| && Shortens(ls[i], id)
  }

  /** The entries whose ID has no proper prefix among the IDs. */
  function Unburied(es: seq<Entry>, ls: seq<bytes>): seq<Entry> {
    if es == [] then [] else (if IsBuried(ls, es[0].id) then [] else [es[0]]) + Unburied(es[1..], ls)
  }

  lemma {:induction false} UnburiedAppend(a: seq<Entry>, b: seq<Entry>, ls: seq<bytes>)
    ensures Unburied(a + b, ls) == Unburied(a, ls) + Unburied(b, ls)
    decreases |a|
  {
    hide IsBuried;
    if a == [] {
      assert a + b == b;
    } else {
      assert (a + b)[1..] == a[1..] + b;
      UnburiedAppend(a[1..], b, ls);
    }
  }

  lemma {:induction false} UnburiedUniform(es: seq<Entry>, ls: seq<bytes>, buried: bool)
    requires forall i :: 0 <= i < |es| ==> IsBuried(ls, es[i].id) == buried
    ensures Unburied(es, ls) == if buried then [] else es
  {
    hide IsBuried;
    if es != [] {
      UnburiedUniform(es[1..], ls, buried);
    }
  }

  /** Which IDs bury an entry is a matter of the set of IDs. */
  lemma {:induction false} UnburiedSame(es: seq<Entry>, a: seq<bytes>, b: seq<bytes>)
    requires forall l :: l in a <==> l in b
    ensures Unburied(es, a) == Unburied(es, b)
  {
    hide Shortens;
    if es != [] {
      UnburiedSame(es[1..], a, b);
      if IsBuried(a, es[0].id) {
        var i :| 0 <= i < |a| && Shortens(a[i], es[0].id);
        assert a[i] in b;
      }
      if IsBuried(b, es[0].id) {
        var i :| 0 <= i < |b| && Shortens(b[i], es[0].id);
        assert b[i] in a;
      }
    }
  }

  predicate Continues(path: bytes, l: bytes) {
    |path| <= |l| && l[..|path|] == path
  }

  /** The IDs in a subtree continue the prefixes along its path. */
  lemma {:induction false} LeavesContinue(t: Tree, path: bytes, l: bytes)
    requires l in Leaves(t, path)
    ensures Continues(path, l)
    decreases t
  {
    hide Leaves;
    LeavesNode(t, path);
    if l in LeavesKids(t.kids, path) {
      LeavesKidsMembers(t.kids, path, l);
      var i :| 0 <= i < |t.kids| && LeafOf(t.kids[i], path, l);
      assert t.kids[i] in t.kids && t.kids[i].child < t.kids[i];
      LeavesContinue(t.kids[i].child, path + t.kids[i].child.prefix, l);
      assert l[..|path|] == l[..|path + t.kids[i].child.prefix|][..|path|];
    }
  }

  /** The subtree's own IDs are among ls, and no other ID in ls shortens one that belongs there. */
  ghost predicate OwnIn(t: Tree, path: bytes, ls: seq<bytes>) {
    && (forall l :: l in Leaves(t, path) ==> l in ls)
    && (forall l, x :: l in ls && Continues(path, x) && Shortens(l, x) ==> l in Leaves(t, path))
  }

  lemma OwnInKid(t: Tree, path: bytes, ls: seq<bytes>, i: nat)
    requires Shape(t, path) && !t.isLeaf && OwnIn(t, path, ls) && i < |t.kids|
    ensures OwnIn(t.kids[i].child, path + t.kids[i].child.prefix, ls)
  {
    var kid := t.kids[i];
    var below := path + kid.child.prefix;
    KidOf(t, path, i);
    hide Leaves;
    LeavesNode(t, path);
    forall l | l in Leaves(kid.child, below) ensures l in ls {
      LeavesKidsMembers(t.kids, path, l);
      assert LeafOf(kid, path, l);
    }
    forall l, x | l in ls && Continues(below, x) && Shortens(l, x) ensures l in Leaves(kid.child, below) {
      assert x[..|path|] == x[..|below|][..|path|];
      assert l in LeavesKids(t.kids, path);
      LeavesKidsMembers(t.kids, path, l);
      var j :| 0 <= j < |t.kids| && LeafOf(t.kids[j], path, l);
      KidOf(t, path, j);
      LeavesContinue(t.kids[j].child, path + t.kids[j].child.prefix, l);
      SameKey(path, kid, t.kids[j], l, x);
    }
  }

  lemma SameKey(path: bytes, a: Slot<Tree>, b: Slot<Tree>, l: bytes, x: bytes)
    requires ShapeKid(a, path) && ShapeKid(b, path)
    requires Continues(path + a.child.prefix, x) && Continues(path + b.child.prefix, l) && Shortens(l, x)
    ensures a.key == b.key
  {
    var n := |path|;
    assert x[n] == x[..|path + a.child.prefix|][n] == a.key;
    assert l[n] == l[..|path + b.child.prefix|][n] == b.key;
    assert l[n] == x[..|l|][n] == x[n];
  }

  /** The traversal by size gets at exactly the entries whose ID has no proper prefix among the IDs that
      have a node. */
  lemma {:induction false} TopIsUnburied(t: Tree, path: bytes, ls: seq<bytes>)
    requires Shape(t, path) && OwnIn(t, path, ls)
    ensures Top(t) == Unburied(Dfs(t), ls)
    decreases t, 1
  {
    DfsNode(t);
    if t.isLeaf {
      LeafOnTop(t, path, ls);
    } else {
      forall i | 0 <= i < |t.kids| ensures OwnInAt(t.kids[i], path, ls) && ShapeKid(t.kids[i], path) {
        OwnInKid(t, path, ls, i);
      }
      TopKidsUnburied(t.kids, path, ls);
      assert t.entries + DfsKids(t.kids) == DfsKids(t.kids);
    }
  }

  ghost predicate OwnInAt(kid: Slot<Tree>, path: bytes, ls: seq<bytes>) {
    OwnIn(kid.child, path + kid.child.prefix, ls)
  }

  lemma {:induction false} TopKidsUnburied(kids: seq<Slot<Tree>>, path: bytes, ls: seq<bytes>)
    requires forall i :: 0 <= i < |kids| ==> OwnInAt(kids[i], path, ls) && ShapeKid(kids[i], path)
    ensures TopKids(kids) == Unburied(DfsKids(kids), ls)
    decreases kids, 0
  {
    if kids != [] {
      assert kids[0].child < kids[0];
      assert OwnInAt(kids[0], path, ls) && ShapeKid(kids[0], path);
      TopIsUnburied(kids[0].child, path + kids[0].child.prefix, ls);
      TopKidsUnburied(kids[1..], path, ls);
      UnburiedAppend(Dfs(kids[0].child), DfsKids(kids[1..]), ls);
    }
  }

  lemma LeafOnTop(t: Tree, path: bytes, ls: seq<bytes>)
    requires Shape(t, path) && OwnIn(t, path, ls) && t.isLeaf
    ensures Unburied(t.entries + DfsKids(t.kids), ls) == t.entries
  {
    UnburiedAppend(t.entries, DfsKids(t.kids), ls);
    LeavesNode(t, path);
    hide Leaves, LeavesKids, DfsKids;
    var own, below := t.entries, DfsKids(t.kids);
    forall i | 0 <= i < |own| ensures !IsBuried(ls, own[i].id) {
      assert Continues(path, path) && own[i].id == path;
      if IsBuried(ls, path) {
        var j :| 0 <= j < |ls| && Shortens(ls[j], path);
        LeavesContinue(t, path, ls[j]);
      }
    }
    UnburiedUniform(own, ls, false);
    forall i | 0 <= i < |below| ensures IsBuried(ls, below[i].id) {
      LowerEntry(t, path, below[i]);
      assert path in ls;
      var j :| 0 <= j < |ls| && ls[j] == path;
      assert Shortens(ls[j], below[i].id);
    }
    UnburiedUniform(below, ls, true);
    assert own + [] == own;
  }

  lemma LowerEntry(t: Tree, path: bytes, e: Entry)
    requires Shape(t, path) && e in DfsKids(t.kids)
    ensures Shortens(path, e.id)
  {
    EntriesAtLeavesKids(t.kids, path, e);
    LeavesKidsMembers(t.kids, path, e.id);
    hide Leaves, LeavesKids, DfsKids;
    var i :| 0 <= i < |t.kids| && LeafOf(t.kids[i], path, e.id);
    KidOf(t, path, i);
    var below := path + t.kids[i].child.prefix;
    LeavesContinue(t.kids[i].child, below, e.id);
    assert e.id[..|path|] == e.id[..|below|][..|path|] == path;
  }

  /** So it does for a whole tree. */
  lemma TopOfTree(t: Tree)
    requires t.prefix == [] && Shape(t, [])
    ensures Top(t) == Unburied(Dfs(t), Leaves(t, []))
  {
    TopIsUnburied(t, [], Leaves(t, []));
  }

  // ---- Subsequences ---------------------------------------------------------------------------

  /** a consists of the elements of b at the increasing positions `at`. */
  predicate PickedAt<T(==)>(a: seq<T>, b: seq<T>, at: seq<nat>) {
    && |at| == |a|
    && (forall i :: 0 <= i < |a| ==> at[i] < |b| && a[i] == b[at[i]])
    && (forall i, j :: 0 <= i < j < |at| ==> at[i] < at[j])
  }

  ghost predicate Subsequence<T>(a: seq<T>, b: seq<T>) {
    exists at: seq<nat> :: PickedAt(a, b, at)
  }

  lemma SuffixIsSubsequence<T>(b: seq<T>, m: nat)
    requires m <= |b|
    ensures Subsequence(b[m..], b)
  {
    var at: seq<nat> := seq(|b| - m, i requires 0 <= i => i + m);
    assert PickedAt(b[m..], b, at);
  }

  lemma SubsequenceJoin<T>(a: seq<T>, b: seq<T>, c: seq<T>, d: seq<T>)
    requires Subsequence(a, b) && Subsequence(c, d)
    ensures Subsequence(a + c, b + d)
  {
    var f: seq<nat> :| PickedAt(a, b, f);
    var g: seq<nat> :| PickedAt(c, d, g);
    var at: seq<nat> := seq(|f| + |g|, i requires 0 <= i < |f| + |g| => if i < |f| then f[i] else |b| + g[i - |f|]);
    assert PickedAt(a + c, b + d, at);
  }

  lemma SubsequenceIncreasing(a: seq<Entry>, b: seq<Entry>)
    requires Subsequence(a, b) && Increasing(b)
    ensures Increasing(a)
  {
    var at: seq<nat> :| PickedAt(a, b, at);
  }

  /** What trimming leaves is in the order in which it was. */
  lemma {:induction false} TrimSizeSubsequence(t: Tree, k: nat)
    ensures Subsequence(Dfs(TrimSize(t, k).0), Dfs(t))
    decreases t, 1
  {
    var t' := TrimSize(t, k).0;
    DfsNode(t); DfsNode(t');
    if t.isLeaf {
      SuffixIsSubsequence(t.entries, Min(k, |t.entries|));
      SuffixIsSubsequence(DfsKids(t.kids), 0);
    } else {
      TrimSizeKidsSubsequence(t.kids, k);
      SuffixIsSubsequence(t.entries, 0);
    }
    hide *;
    SubsequenceJoin(t'.entries, t.entries, DfsKids(t'.kids), DfsKids(t.kids));
  }

  lemma {:induction false} TrimSizeKidsSubsequence(kids: seq<Slot<Tree>>, k: nat)
    ensures Subsequence(DfsKids(TrimSizeKids(kids, k).0), DfsKids(kids))
    decreases kids, 0
  {
    if kids == [] {
      SuffixIsSubsequence<Entry>([], 0);
    } else {
      assert kids[0].child < kids[0];
      var (child, k1) := TrimSize(kids[0].child, k);
      var others := TrimSizeKids(kids[1..], k1).0;
      TrimSizeSubsequence(kids[0].child, k);
      TrimSizeKidsSubsequence(kids[1..], k1);
      SubsequenceJoin(Dfs(child), Dfs(kids[0].child), DfsKids(others), DfsKids(kids[1..]));
      assert ([Slot(kids[0].key, child)] + others)[1..] == others;
    }
  }

  lemma {:induction false} TrimMinSubsequence(t: Tree, minId: bytes)
    ensures Subsequence(Dfs(TrimMin(t, minId).0), Dfs(t))
    decreases t, 1
  {
    var t' := TrimMin(t, minId).0;
    DfsNode(t); DfsNode(t');
    if t.isLeaf {
      SuffixIsSubsequence(t.entries, FirstKept(t.entries, minId));
      SuffixIsSubsequence(DfsKids(t.kids), 0);
    } else {
      TrimMinKidsSubsequence(t.kids, minId);
      SuffixIsSubsequence(t.entries, 0);
    }
    hide *;
    SubsequenceJoin(t'.entries, t.entries, DfsKids(t'.kids), DfsKids(t.kids));
  }

  lemma {:induction false} TrimMinKidsSubsequence(kids: seq<Slot<Tree>>, minId: bytes)
    ensures Subsequence(DfsKids(TrimMinKids(kids, minId).0), DfsKids(kids))
    decreases kids, 0
  {
    if kids == [] {
      SuffixIsSubsequence<Entry>([], 0);
    } else {
      assert kids[0].child < kids[0];
      var (child, stop) := TrimMin(kids[0].child, minId);
      var others := if stop then kids[1..] else TrimMinKids(kids[1..], minId).0;
      TrimMinSubsequence(kids[0].child, minId);
      if stop {
        SuffixIsSubsequence(DfsKids(others), 0);
      } else {
        TrimMinKidsSubsequence(kids[1..], minId);
      }
      SubsequenceJoin(Dfs(child), Dfs(kids[0].child), DfsKids(others), DfsKids(kids[1..]));
      assert ([Slot(kids[0].key, child)] + others)[1..] == others;
    }
  }

  /** On any tree, trimming by smallest ID removes no entry at or above it. */
  lemma TrimMinIsSafe(t: Tree, minId: bytes, e: Entry)
    requires AtMost(minId, e.id)
    ensures multiset(Dfs(TrimMin(t, minId).0))[e] == multiset(Dfs(t))[e]
  {
    var (t', stop) := TrimMin(t, minId);
    TrimMinExact(t, minId);
    hide Dfs, Top, TrimMin, Less;
    var m :| 0 <= m <= |Top(t)| && TrimmedByMinAt(Top(t), Top(t'), Dfs(t), Dfs(t'), minId, stop, m);
    assert e !in Top(t)[..m];
  }

  /** On any tree, trimming by size takes all that it should exactly if enough entries are in its
      reach. */
  lemma TrimSizeReaches(t: Tree, k: nat)
    ensures var (t', left) := TrimSize(t, k);
      |Dfs(t')| == |Dfs(t)| - (k - left) && (left == 0 <==> |Top(t)| >= k)
  {
    TrimSizeExact(t, k);
  }

  /** A range over a sorted enumeration is sorted. */
  lemma RangeIncreasing(es: seq<Entry>, b: Bounds, count: nat)
    requires Increasing(es)
    ensures Increasing(Limit(Within(es, b), count))
  {
    WithinSubsequence(es, b);
    SubsequenceIncreasing(Within(es, b), es);
  }

  lemma {:induction false} WithinSubsequence(es: seq<Entry>, b: Bounds)
    ensures Subsequence(Within(es, b), es)
  {
    if es == [] {
      SuffixIsSubsequence(es, 0);
    } else {
      WithinSubsequence(es[1..], b);
      var own := if b.Contains(es[0].id) then [es[0]] else [];
      SuffixIsSubsequence([es[0]], if b.Contains(es[0].id) then 0 else 1);
      assert own == [es[0]][if b.Contains(es[0].id) then 0 else 1..];
      SubsequenceJoin(own, [es[0]], Within(es[1..], b), es[1..]);
      assert es == [es[0]] + es[1..];
    }
  }

  /** Each entry within the bounds is there as often as before, and no other. */
  lemma {:induction false} WithinCounts(es: seq<Entry>, b: Bounds, e: Entry)
    ensures multiset(Within(es, b))[e] == if b.Contains(e.id) then multiset(es)[e] else 0
  {
    if es != [] {
      WithinCounts(es[1..], b, e);
      assert es == [es[0]] + es[1..];
      hide Less;
    }
  }

  /** The lower bound of a range: "-" is none, "(" before an ID excludes it. */
  predicate IsAfter(start: bytes, id: bytes) {
    if start == Ascii("-") then true
    else if start == Ascii("(-") then id != []
    else if start != [] && start[0] == '(' as int then Less(start[1..], id)
    else !Less(id, start)
  }

  /** The upper bound: "+" is the byte 255, "(" before an ID excludes it. */
  predicate IsBefore(end: bytes, id: bytes) {
    if end == Ascii("+") then !Less([255], id)
    else if end == Ascii("(+") then Less(id, [255])
    else if end != [] && end[0] == '(' as int then Less(id, end[1..])
    else !Less(end, id)
  }

  /** A range from `start` to `end`: exactly the entries between the bounds, each as often as it is stored, and in
      their order. */
  ghost predicate Selects(all: seq<Entry>, es: seq<Entry>, start: bytes, end: bytes) {
    && Subsequence(all, es)
    && forall e: Entry :: multiset(all)[e] == if IsAfter(start, e.id) && IsBefore(end, e.id) then multiset(es)[e] else 0
  }

  lemma BoundsMean(start: bytes, end: bytes, id: bytes)
    ensures BoundsOf(start, end).Contains(id) <==> IsAfter(start, id) && IsBefore(end, id)
  {
    BoundWords(start);
    BoundWords(end);
    assert !Less(id, []) && (Less([], id) <==> id != []);
    hide Ascii, Less;
  }

  lemma BoundWords(b: bytes)
    ensures Ascii("-") == [45] && Ascii("+") == [43]
    ensures b == Ascii("(-") <==> b != [] && b[0] == 40 && b[1..] == [45]
    ensures b == Ascii("(+") <==> b != [] && b[0] == 40 && b[1..] == [43]
    ensures '(' as int == 40
  {
    assert Ascii("(-") == [40] + [45] && Ascii("(+") == [40] + [43];
    assert b != [] ==> b == [b[0]] + b[1..];
  }

  lemma WithinSelects(es: seq<Entry>, start: bytes, end: bytes)
    ensures Selects(Within(es, BoundsOf(start, end)), es, start, end)
  {
    var b := BoundsOf(start, end);
    WithinSubsequence(es, b);
    hide Within, BoundsOf, IsAfter, IsBefore, Less, Subsequence;
    forall e: Entry
      ensures multiset(Within(es, b))[e] == if IsAfter(start, e.id) && IsBefore(end, e.id) then multiset(es)[e] else 0
    {
      WithinCounts(es, b, e);
      BoundsMean(start, end, e.id);
    }
  }

  lemma RangeAnswers(es: seq<Entry>, start: bytes, end: bytes, count: nat)
    ensures exists all: seq<Entry> ::
      Selects(all, es, start, end) && Limit(Within(es, BoundsOf(start, end)), count) == if count > 0 && |all| > count then all[..count] else all
  {
    WithinSelects(es, start, end);
    hide Selects, Within, BoundsOf;
  }

  /** For IDs that start with a digit, "-" as the start and "+" as the end leave nothing out; the other way round,
      "+" as the start leaves nothing out either, and "-" as the end everything. */
  lemma OpenBounds(id: bytes)
    requires id != [] && 48 <= id[0] <= 57
    ensures IsAfter(Ascii("-"), id) && IsBefore(Ascii("+"), id) && IsAfter(Ascii("+"), id) && !IsBefore(Ascii("-"), id)
  {
    BoundWords([]);
    assert Ascii("+")[0] == 43 && Ascii("-")[0] == 45;
  }
}
