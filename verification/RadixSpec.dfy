/** The radix tree as a value: what insertion does to it, and why it stays a sorted multimap. */
module RadixSpec {
  import opened Bytes
  import opened Slots

  datatype Entry = Entry(id: bytes, fields: seq<seq<bytes>>)

  datatype Tree = Tree(prefix: bytes, kids: seq<Slot<Tree>>, isLeaf: bool, entries: seq<Entry>)

  // ---- Insertion ------------------------------------------------------------------------------

  function CommonPrefix(a: bytes, b: bytes): (n: nat)
    ensures n <= |a| && n <= |b| && a[..n] == b[..n]
    ensures n < |a| && n < |b| ==> a[n] != b[n]
  {
    if a == [] || b == [] || a[0] != b[0] then 0
    else
      var n := CommonPrefix(a[1..], b[1..]);
      assert a[..n + 1] == [a[0]] + a[1..][..n] && b[..n + 1] == [b[0]] + b[1..][..n];
      n + 1
  }

  /** Prefixes below the root are non-empty and start with the key they are filed under. */
  predicate Keyed(t: Tree) {
    forall i :: 0 <= i < |t.kids| ==>
      var k := t.kids[i]; k.child.prefix != [] && k.child.prefix[0] == k.key && Keyed(k.child)
  }

  /** The search can go into a node only with an ID that shares its first byte. */
  predicate Reaches(t: Tree, id: bytes) {
    t.prefix == [] || (id != [] && id[0] == t.prefix[0])
  }

  /** A node cut in two at `at`: the lower part keeps the children and the entries. */
  function Split(t: Tree, at: nat): Tree
    requires at < |t.prefix|
  {
    Tree(t.prefix[..at], [Slot(t.prefix[at], t.(prefix := t.prefix[at..]))], false, [])
  }

  /** t with another subtree as its i-th child. */
  function WithKid(t: Tree, i: nat, child: Tree): Tree
    requires i < |t.kids|
  {
    t.(kids := t.kids[i := Slot(t.kids[i].key, child)])
  }

  function Insert(t: Tree, id: bytes, e: Entry): (r: Tree)
    requires Keyed(t) && Reaches(t, id)
    ensures t.prefix == [] ==> r.prefix == []
    ensures t.prefix != [] ==> r.prefix != [] && r.prefix[0] == t.prefix[0]
    decreases |id|, if t.prefix == [] then 1 else 0, |t.prefix|
  {
    var n := CommonPrefix(t.prefix, id);
    if n == |t.prefix| then
      var rest := id[n..];
      if rest == [] then t.(isLeaf := true, entries := t.entries + [e])
      else
        match Find(t.kids, rest[0])
        case None => t.(kids := Add(t.kids, rest[0], Tree(rest, [], true, [e])))
        case Some(i) => WithKid(t, i, Insert(t.kids[i].child, rest, e))
    else
      assert t.prefix != [] && n > 0 by {
        if n == 0 {
          assert id[0] == t.prefix[0];
        }
      }
      Insert(Split(t, n), id, e)
  }

  // ---- Contents and shape ---------------------------------------------------------------------

  /** The entries in depth-first order: a node's own, then its children's. */
  function Dfs(t: Tree): seq<Entry>
    decreases t, 1
  {
    t.entries + DfsKids(t.kids)
  }

  function DfsKids(kids: seq<Slot<Tree>>): seq<Entry>
    decreases kids, 0
  {
    if kids == [] then [] else assert kids[0].child < kids[0]; Dfs(kids[0].child) + DfsKids(kids[1..])
  }

  /** The whole IDs of the nodes marked as leaves, in depth-first order. */
  function Leaves(t: Tree, path: bytes): seq<bytes>
    decreases t, 1
  {
    (if t.isLeaf then [path] else []) + LeavesKids(t.kids, path)
  }

  function LeavesKids(kids: seq<Slot<Tree>>, path: bytes): seq<bytes>
    decreases kids, 0
  {
    if kids == [] then [] else assert kids[0].child < kids[0]; Leaves(kids[0].child, path + kids[0].child.prefix) + LeavesKids(kids[1..], path)
  }

  /** The shape of a subtree whose root is reached by the prefixes `path`: keys are distinct and
      start the prefixes they lead to, a node's entries carry the ID spelled by the path, and
      no branch is empty. */
  predicate Shape(t: Tree, path: bytes) {
    && (t.isLeaf || t.entries == [])
    && (forall i :: 0 <= i < |t.entries| ==> t.entries[i].id == path)
    && DistinctKeys(t.kids)
    && (forall i :: 0 <= i < |t.kids| ==> ShapeKid(t.kids[i], path))
  }

  predicate ShapeKid(k: Slot<Tree>, path: bytes) {
    && k.child.prefix != [] && k.child.prefix[0] == k.key
    && (k.child.isLeaf || k.child.kids != [])
    && Shape(k.child, path + k.child.prefix)
  }

  /** Every node enumerates its children in key order. */
  predicate SortedTree(t: Tree) {
    IncreasingKeys(t.kids) && forall i :: 0 <= i < |t.kids| ==> SortedTree(t.kids[i].child)
  }

  lemma {:induction false} ShapeKeyed(t: Tree, path: bytes)
    requires Shape(t, path)
    ensures Keyed(t)
  {
    forall i | 0 <= i < |t.kids| ensures Keyed(t.kids[i].child) {
      assert ShapeKid(t.kids[i], path);
      ShapeKeyed(t.kids[i].child, path + t.kids[i].child.prefix);
    }
  }

  lemma KidOf(t: Tree, path: bytes, i: nat)
    requires Shape(t, path) && i < |t.kids|
    ensures ShapeKid(t.kids[i], path)
  {
  }

  // ---- Splitting changes nothing --------------------------------------------------------------

  lemma SplitKeeps(t: Tree, base: bytes, at: nat)
    requires at < |t.prefix| && Shape(t, base + t.prefix) && (t.isLeaf || t.kids != [])
    ensures var s := Split(t, at);
      Shape(s, base + s.prefix) && Dfs(s) == Dfs(t) && Leaves(s, base + s.prefix) == Leaves(t, base + t.prefix)
      && (SortedTree(t) ==> SortedTree(s))
  {
    var s := Split(t, at);
    var low := s.kids[0].child;
    assert base + s.prefix + low.prefix == base + t.prefix;
    assert s.kids[1..] == [];
    assert ShapeKid(s.kids[0], base + s.prefix);
    assert Dfs(low) == Dfs(t);
    assert Leaves(low, base + t.prefix) == Leaves(t, base + t.prefix);
    assert DfsKids(s.kids) == Dfs(low) + DfsKids([]);
    assert LeavesKids(s.kids, base + s.prefix) == Leaves(low, base + t.prefix) + LeavesKids([], base + s.prefix);
  }

  // ---- Insertion into a multimap --------------------------------------------------------------

  lemma {:induction false} DfsKidsAppend(a: seq<Slot<Tree>>, b: seq<Slot<Tree>>)
    ensures DfsKids(a + b) == DfsKids(a) + DfsKids(b)
    decreases |a|
  {
    hide Dfs;
    if a == [] {
      assert a + b == b;
    } else {
      assert (a + b)[1..] == a[1..] + b;
      DfsKidsAppend(a[1..], b);
    }
  }

  lemma DfsKidsAt(kids: seq<Slot<Tree>>, i: nat)
    requires i < |kids|
    ensures DfsKids(kids) == DfsKids(kids[..i]) + Dfs(kids[i].child) + DfsKids(kids[i + 1..])
  {
    hide Dfs;
    assert kids == kids[..i] + kids[i..];
    DfsKidsAppend(kids[..i], kids[i..]);
    assert kids[i..][1..] == kids[i + 1..];
  }

  lemma {:induction false} DfsKidsBag(a: seq<Slot<Tree>>, b: seq<Slot<Tree>>)
    requires multiset(a) == multiset(b)
    ensures multiset(DfsKids(a)) == multiset(DfsKids(b))
    decreases |a|
  {
    hide Dfs;
    if a == [] {
      assert |multiset(a)| == 0 && |multiset(b)| == |b|;
    } else {
      assert a[0] in multiset(b);
      var i :| 0 <= i < |b| && b[i] == a[0];
      var b' := b[..i] + b[i + 1..];
      assert b == b[..i] + [a[0]] + b[i + 1..];
      assert a == [a[0]] + a[1..];
      hide *;
      RemoveOne(a, a[1..], b, b[..i], b[i + 1..], a[0]);
      DfsKidsBag(a[1..], b');
      DfsKidsWithout(b, i);
      DfsKidsCons(a);
    }
  }

  lemma DfsKidsCons(a: seq<Slot<Tree>>)
    requires a != []
    ensures DfsKids(a) == Dfs(a[0].child) + DfsKids(a[1..])
  {
  }

  lemma DfsKidsWithout(b: seq<Slot<Tree>>, i: nat)
    requires i < |b|
    ensures multiset(DfsKids(b)) == multiset(Dfs(b[i].child)) + multiset(DfsKids(b[..i] + b[i + 1..]))
  {
    hide Dfs, DfsKids;
    DfsKidsAt(b, i);
    DfsKidsAppend(b[..i], b[i + 1..]);
  }

  lemma RemoveOne<T>(a: seq<T>, a': seq<T>, b: seq<T>, p: seq<T>, q: seq<T>, x: T)
    requires multiset(a) == multiset(b) && a == [x] + a' && b == p + [x] + q
    ensures multiset(a') == multiset(p + q)
  {
    assert multiset(a') == multiset(a) - multiset{x};
    assert multiset(p + q) == multiset(b) - multiset{x};
  }

  lemma DfsOfNew(key: byte, rest: bytes, e: Entry)
    ensures DfsKids([Slot(key, Tree(rest, [], true, [e]))]) == [e]
  {
    assert Dfs(Tree(rest, [], true, [e])) == [e] + DfsKids([]) == [e];
  }

  /** r is t with one more entry, in the shape of a subtree that is reached through `base`. */
  predicate Grown(r: Tree, t: Tree, base: bytes, e: Entry) {
    Shape(r, base + r.prefix) && (r.isLeaf || r.kids != []) && multiset(Dfs(r)) == multiset(Dfs(t)) + multiset{e}
  }

  /** Insertion, for IDs in any order, adds exactly one entry and keeps the shape. */
  lemma {:induction false} InsertMultimap(t: Tree, base: bytes, id: bytes, e: Entry)
    requires Shape(t, base + t.prefix) && Keyed(t) && Reaches(t, id) && e.id == base + id
    requires t.prefix == [] || t.isLeaf || t.kids != []
    ensures Grown(Insert(t, id, e), t, base, e)
    decreases |id|, if t.prefix == [] then 1 else 0, |t.prefix|
  {
    hide Grown, Dfs, SortedTree, Leaves, Add, Shape;
    var n := CommonPrefix(t.prefix, id);
    if n == |t.prefix| {
      assert id == t.prefix + id[n..];
      var rest, path := id[n..], base + t.prefix;
      assert e.id == path + rest;
      if rest == [] {
        assert path + rest == path;
        InsertHere(t, base, e);
      } else {
        match Find(t.kids, rest[0])
        case None => InsertNewKid(t, base, rest, e);
        case Some(i) =>
          KidOf(t, path, i);
          InsertMultimap(t.kids[i].child, path, rest, e);
          InsertIntoKid(t, base, i, Insert(t.kids[i].child, rest, e), e);
      }
    } else {
      assert t.prefix != [] && n > 0;
      SplitKeeps(t, base, n);
      ShapeKeyed(Split(t, n), base + t.prefix[..n]);
      InsertMultimap(Split(t, n), base, id, e);
      SameContents(Insert(t, id, e), Split(t, n), t, base, e);
    }
  }

  lemma SameContents(r: Tree, s: Tree, t: Tree, base: bytes, e: Entry)
    requires Grown(r, s, base, e) && Dfs(s) == Dfs(t)
    ensures Grown(r, t, base, e)
  {
  }

  lemma InsertHere(t: Tree, base: bytes, e: Entry)
    requires Shape(t, base + t.prefix) && e.id == base + t.prefix
    ensures Grown(t.(isLeaf := true, entries := t.entries + [e]), t, base, e)
  {
    hide ShapeKid;
    var es := t.entries + [e];
    assert forall i :: 0 <= i < |es| ==> es[i].id == base + t.prefix;
    assert Dfs(t) == t.entries + DfsKids(t.kids);
  }

  lemma InsertNewKid(t: Tree, base: bytes, rest: bytes, e: Entry)
    requires var path := base + t.prefix;
      Shape(t, path) && rest != [] && Find(t.kids, rest[0]).None? && e.id == path + rest
    ensures Grown(t.(kids := Add(t.kids, rest[0], Tree(rest, [], true, [e]))), t, base, e)
  {
    var path := base + t.prefix;
    var kid := Slot(rest[0], Tree(rest, [], true, [e]));
    hide Add, ShapeKid, Shape, Find, Dfs, DfsKids;
    NewKidShape(t, path, kid, e);
    NewKidContents(t.kids, kid, e);
    DfsNode(t);
    DfsNode(t.(kids := Add(t.kids, rest[0], kid.child)));
  }

  lemma NewKidContents(kids: seq<Slot<Tree>>, kid: Slot<Tree>, e: Entry)
    requires kid.child == Tree(kid.child.prefix, [], true, [e])
    ensures Add(kids, kid.key, kid.child) != []
    ensures multiset(DfsKids(Add(kids, kid.key, kid.child))) == multiset(DfsKids(kids)) + multiset{e}
  {
    var kids' := Add(kids, kid.key, kid.child);
    AddBag(kids, kid.key, kid.child);
    DfsOfNew(kid.key, kid.child.prefix, e);
    hide Add, Dfs, DfsKids;
    assert kid in multiset(kids');
    assert multiset(kids') == multiset(kids + [kid]);
    DfsKidsBag(kids', kids + [kid]);
    DfsKidsAppend(kids, [kid]);
  }

  lemma NewKidShape(t: Tree, path: bytes, kid: Slot<Tree>, e: Entry)
    requires Shape(t, path) && kid.child == Tree(kid.child.prefix, [], true, [e]) && kid.child.prefix != []
    requires kid.child.prefix[0] == kid.key && e.id == path + kid.child.prefix && Find(t.kids, kid.key).None?
    ensures Shape(t.(kids := Add(t.kids, kid.key, kid.child)), path)
  {
    var kids := Add(t.kids, kid.key, kid.child);
    AddDistinct(t.kids, kid.key, kid.child);
    AddBag(t.kids, kid.key, kid.child);
    assert ShapeKid(kid, path);
    hide Add, ShapeKid;
    forall i | 0 <= i < |kids| ensures ShapeKid(kids[i], path) {
      assert kids[i] in multiset(kids);
    }
  }

  lemma InsertIntoKid(t: Tree, base: bytes, i: nat, child: Tree, e: Entry)
    requires Shape(t, base + t.prefix) && i < |t.kids|
    requires child.prefix != [] && child.prefix[0] == t.kids[i].key
    requires Grown(child, t.kids[i].child, base + t.prefix, e)
    ensures Grown(WithKid(t, i, child), t, base, e)
  {
    var kids := t.kids[i := Slot(t.kids[i].key, child)];
    assert ShapeKid(kids[i], base + t.prefix);
    hide ShapeKid, Dfs, DfsKids, Shape;
    KidContents(t.kids, i, child, e);
    DfsNode(t.(kids := kids));
    DfsNode(t);
    KidShape(t, base + t.prefix, i, child);
  }

  lemma KidShape(t: Tree, path: bytes, i: nat, child: Tree)
    requires Shape(t, path) && i < |t.kids| && ShapeKid(Slot(t.kids[i].key, child), path)
    ensures Shape(t.(kids := t.kids[i := Slot(t.kids[i].key, child)]), path)
  {
    hide ShapeKid;
  }

  lemma KidContents(kids: seq<Slot<Tree>>, i: nat, child: Tree, e: Entry)
    requires i < |kids| && multiset(Dfs(child)) == multiset(Dfs(kids[i].child)) + multiset{e}
    ensures multiset(DfsKids(kids[i := Slot(kids[i].key, child)])) == multiset(DfsKids(kids)) + multiset{e}
  {
    hide Dfs, DfsKids;
    var kids' := kids[i := Slot(kids[i].key, child)];
    DfsKidsAt(kids, i);
    DfsKidsAt(kids', i);
    assert kids'[..i] == kids[..i] && kids'[i + 1..] == kids[i + 1..];
  }

  lemma DfsNode(t: Tree)
    ensures Dfs(t) == t.entries + DfsKids(t.kids)
  {
  }
}
