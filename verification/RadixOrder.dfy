/** Why a tree that only receives IDs above all earlier ones enumerates its entries in byte order. */
module RadixOrder {
  import opened Bytes
  import opened Slots
  import opened RadixSpec

  predicate AllBelow(ls: seq<bytes>, id: bytes) {
    forall i :: 0 <= i < |ls| ==> Less(ls[i], id)
  }

  lemma {:induction false} LeavesKidsAppend(a: seq<Slot<Tree>>, b: seq<Slot<Tree>>, path: bytes)
    ensures LeavesKids(a + b, path) == LeavesKids(a, path) + LeavesKids(b, path)
    decreases |a|
  {
    hide Leaves;
    if a == [] {
      assert a + b == b;
    } else {
      assert (a + b)[1..] == a[1..] + b;
      LeavesKidsAppend(a[1..], b, path);
    }
  }

  lemma LeavesKidsAt(kids: seq<Slot<Tree>>, i: nat, path: bytes)
    requires i < |kids|
    ensures LeavesKids(kids, path) ==
      LeavesKids(kids[..i], path) + Leaves(kids[i].child, path + kids[i].child.prefix) + LeavesKids(kids[i + 1..], path)
  {
    hide Leaves;
    assert kids == kids[..i] + kids[i..];
    LeavesKidsAppend(kids[..i], kids[i..], path);
    assert kids[i..][1..] == kids[i + 1..];
  }

  lemma LeavesNode(t: Tree, path: bytes)
    ensures Leaves(t, path) == (if t.isLeaf then [path] else []) + LeavesKids(t.kids, path)
  {
  }

  /** No branch is empty, so every branch holds a leaf, whose ID extends the path. */
  lemma {:induction false} SomeLeaf(t: Tree, path: bytes) returns (i: nat, s: bytes)
    requires Shape(t, path) && (t.isLeaf || t.kids != [])
    ensures i < |Leaves(t, path)| && Leaves(t, path)[i] == path + s
    decreases t
  {
    if t.isLeaf {
      i, s := 0, [];
      assert path + s == path;
    } else {
      var child := t.kids[0].child;
      assert ShapeKid(t.kids[0], path);
      assert t.kids[0] in t.kids && child < t.kids[0];
      var j, s' := SomeLeaf(child, path + child.prefix);
      hide Shape, ShapeKid;
      i, s := j, child.prefix + s';
      LeavesNode(t, path);
      LeavesKidsAt(t.kids, 0, path);
      assert t.kids[..0] == [];
      assert path + child.prefix + s' == path + s;
    }
  }

  /** An ID above all leaves of a node leads past, or into, every child. */
  lemma KeysBelow(t: Tree, path: bytes, rest: bytes, i: nat)
    requires Shape(t, path) && AllBelow(Leaves(t, path), path + rest) && i < |t.kids|
    ensures rest != [] && t.kids[i].key <= rest[0]
    ensures AllBelow(Leaves(t.kids[i].child, path + t.kids[i].child.prefix), path + rest)
  {
    var child := t.kids[i].child;
    assert ShapeKid(t.kids[i], path);
    LeavesNode(t, path);
    LeavesKidsAt(t.kids, i, path);
    var own, before := if t.isLeaf then [path] else [], LeavesKids(t.kids[..i], path);
    var ls := Leaves(child, path + child.prefix);
    forall j | 0 <= j < |ls| ensures Less(ls[j], path + rest) {
      assert Leaves(t, path)[|own| + |before| + j] == ls[j];
    }
    var j, s := SomeLeaf(child, path + child.prefix);
    assert path + child.prefix + s == path + (child.prefix + s);
    LessCommonPrefix(path, child.prefix + s, rest);
  }

  /** An ID above all leaves below a node cannot end at the node, unless the node is bare. */
  lemma BareAtEnd(t: Tree, path: bytes)
    requires Shape(t, path) && AllBelow(Leaves(t, path), path)
    ensures !t.isLeaf && t.kids == [] && t.entries == []
  {
    if t.isLeaf {
      assert Leaves(t, path)[0] == path;
      LessIrreflexive(path);
    }
    if t.kids != [] {
      assert path + [] == path;
      KeysBelow(t, path, [], 0);
    }
  }

  /** r is t with e as its last entry, still in key order everywhere. */
  predicate Appended(r: Tree, t: Tree, base: bytes, e: Entry) {
    SortedTree(r) && Dfs(r) == Dfs(t) + [e] && Leaves(r, base + r.prefix) == Leaves(t, base + t.prefix) + [e.id]
  }

  /** An ID above all earlier ones becomes the last entry of the depth-first order. */
  lemma {:induction false} InsertAppends(t: Tree, base: bytes, id: bytes, e: Entry)
    requires Shape(t, base + t.prefix) && Keyed(t) && Reaches(t, id) && e.id == base + id
    requires t.prefix == [] || t.isLeaf || t.kids != []
    requires SortedTree(t) && AllBelow(Leaves(t, base + t.prefix), base + id)
    ensures Appended(Insert(t, id, e), t, base, e)
    decreases |id|, if t.prefix == [] then 1 else 0, |t.prefix|
  {
    hide Appended, Dfs, Leaves, AllBelow, Shape, Less, Add;
    var n := CommonPrefix(t.prefix, id);
    if n == |t.prefix| {
      assert id == t.prefix + id[n..];
      var rest, path := id[n..], base + t.prefix;
      assert path + rest == base + id;
      if rest == [] {
        assert path + rest == path;
        AppendHere(t, base, e);
      } else {
        match Find(t.kids, rest[0])
        case None => AppendNewKid(t, base, rest, e);
        case Some(i) =>
          KeysBelow(t, path, rest, i);
          KidOf(t, path, i);
          InsertAppends(t.kids[i].child, path, rest, e);
          LastKid(t, path, rest, i);
          AppendIntoLastKid(t, base, Insert(t.kids[i].child, rest, e), e);
      }
    } else {
      assert t.prefix != [] && n > 0;
      SplitKeeps(t, base, n);
      ShapeKeyed(Split(t, n), base + t.prefix[..n]);
      InsertAppends(Split(t, n), base, id, e);
      SameOrder(Insert(t, id, e), Split(t, n), t, base, e);
    }
  }

  lemma SameOrder(r: Tree, s: Tree, t: Tree, base: bytes, e: Entry)
    requires Appended(r, s, base, e) && Dfs(s) == Dfs(t) && Leaves(s, base + s.prefix) == Leaves(t, base + t.prefix)
    ensures Appended(r, t, base, e)
  {
  }

  lemma AppendHere(t: Tree, base: bytes, e: Entry)
    requires Shape(t, base + t.prefix) && e.id == base + t.prefix && SortedTree(t)
    requires AllBelow(Leaves(t, base + t.prefix), base + t.prefix)
    ensures Appended(t.(isLeaf := true, entries := t.entries + [e]), t, base, e)
  {
    BareAtEnd(t, base + t.prefix);
  }

  lemma AppendNewKid(t: Tree, base: bytes, rest: bytes, e: Entry)
    requires var path := base + t.prefix;
      Shape(t, path) && rest != [] && Find(t.kids, rest[0]).None? && e.id == path + rest
      && SortedTree(t) && AllBelow(Leaves(t, path), path + rest)
    ensures Appended(t.(kids := Add(t.kids, rest[0], Tree(rest, [], true, [e]))), t, base, e)
  {
    var path := base + t.prefix;
    var kid := Slot(rest[0], Tree(rest, [], true, [e]));
    forall i | 0 <= i < |t.kids| ensures t.kids[i].key < rest[0] {
      KeysBelow(t, path, rest, i);
    }
    AddLargest(t.kids, rest[0], kid.child);
    var kids := t.kids + [kid];
    assert SortedTree(kid.child) && SortedTree(t.(kids := kids));
    hide *;
    DfsOfNew(rest[0], rest, e);
    DfsKidsAppend(t.kids, [kid]);
    LeavesKidsAppend(t.kids, [kid], path);
    LeavesOfNew(path, kid, e);
    KidsAppended(t, kids, base, e);
  }

  lemma LeavesOfNew(path: bytes, kid: Slot<Tree>, e: Entry)
    requires kid.child == Tree(kid.child.prefix, [], true, [e])
    ensures LeavesKids([kid], path) == [path + kid.child.prefix]
  {
    LeavesNode(kid.child, path + kid.child.prefix);
    LeavesKidsAt([kid], 0, path);
  }

  lemma KidsAppended(t: Tree, kids: seq<Slot<Tree>>, base: bytes, e: Entry)
    requires SortedTree(t.(kids := kids)) && DfsKids(kids) == DfsKids(t.kids) + [e]
    requires LeavesKids(kids, base + t.prefix) == LeavesKids(t.kids, base + t.prefix) + [e.id]
    ensures Appended(t.(kids := kids), t, base, e)
  {
    hide DfsKids, LeavesKids, SortedTree;
  }

  lemma LastKid(t: Tree, path: bytes, rest: bytes, i: nat)
    requires Shape(t, path) && AllBelow(Leaves(t, path), path + rest) && SortedTree(t)
    requires i < |t.kids| && rest != [] && t.kids[i].key == rest[0]
    ensures i == |t.kids| - 1
  {
    KeysBelow(t, path, rest, |t.kids| - 1);
  }

  lemma AppendIntoLastKid(t: Tree, base: bytes, child: Tree, e: Entry)
    requires t.kids != [] && SortedTree(t)
    requires Appended(child, t.kids[|t.kids| - 1].child, base + t.prefix, e)
    ensures Appended(WithKid(t, |t.kids| - 1, child), t, base, e)
  {
    var i, path := |t.kids| - 1, base + t.prefix;
    var kids := t.kids[i := Slot(t.kids[i].key, child)];
    assert SortedTree(t.(kids := kids));
    assert kids[..i] == t.kids[..i] && kids[i + 1..] == [] && t.kids[i + 1..] == [];
    hide Dfs, Leaves, SortedTree, LeavesKids, DfsKids;
    DfsKidsAt(t.kids, i); DfsKidsAt(kids, i);
    LeavesKidsAt(t.kids, i, path); LeavesKidsAt(kids, i, path);
    NoKids(path);
    AppendAssoc(DfsKids(t.kids[..i]), Dfs(t.kids[i].child), e);
    AppendAssoc(LeavesKids(t.kids[..i], path), Leaves(t.kids[i].child, path + t.kids[i].child.prefix), e.id);
    KidsAppended(t, kids, base, e);
  }

  lemma NoKids(path: bytes)
    ensures DfsKids([]) == [] && LeavesKids([], path) == []
  {
  }

  lemma AppendAssoc<T>(a: seq<T>, b: seq<T>, x: T)
    ensures a + (b + [x]) + [] == (a + b + []) + [x]
  {
  }
}
