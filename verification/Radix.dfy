/** The radix tree in memory: nodes that are changed in place, and the tree object that owns them.
    Each node carries, as a ghost, the value of the subtree it is the root of. */
module Radix {
  import opened Bytes
  import opened Slots
  import opened RadixSpec
  import opened RadixOrder
  import opened RadixQueries
  import opened Children

  /** The children are roots of subtrees with the values `trees`; all of their nodes lie in `below`,
      and no two of the subtrees share a node. */
  ghost predicate Hang(kids: seq<Slot<RadixNode>>, trees: seq<Slot<Tree>>, below: set<object>)
    reads below
    decreases below, 2
  {
    && |kids| == |trees|
    && (forall i :: 0 <= i < |kids| ==> Stands(kids[i], trees[i], below))
    && (forall i, j :: 0 <= i < j < |kids| ==> kids[i].child.repr !! kids[j].child.repr)
  }

  ghost predicate Stands(kid: Slot<RadixNode>, value: Slot<Tree>, below: set<object>)
    reads below
    decreases below, 1
  {
    && kid.child in below && kid.child in kid.child.repr && kid.child.repr <= below
    && kid.child.Valid() && value == Slot(kid.key, kid.child.tree)
  }

  class RadixNode {
    var prefix: bytes
    var children: NodeChildren<RadixNode>
    var isLeaf: bool
    var entries: seq<Entry>
    ghost var tree: Tree
    ghost var repr: set<object>

    /** The node's fields, its container, and all below it, agree with its value. */
    ghost predicate Valid()
      reads this, repr
      decreases repr, 0
    {
      && this in repr && children.Objects() <= repr - {this} && children.Valid()
      && tree == Tree(prefix, tree.kids, isLeaf, entries)
      && Hang(children.Contents(), tree.kids, Below())
    }

    /** What belongs to the subtrees of the children. */
    ghost function Below(): set<object>
      reads this
    {
      repr - {this} - children.Objects()
    }

    /** The children as they are enumerated. */
    ghost function Kids(): seq<Slot<RadixNode>>
      requires Valid()
      reads this, repr
    {
      children.Contents()
    }

    constructor (prefix: bytes, children: NodeChildren<RadixNode>, isLeaf: bool, entries: seq<Entry>,
                 ghost trees: seq<Slot<Tree>>, ghost below: set<object>)
      requires children.Valid() && children.Objects() !! below && Hang(children.Contents(), trees, below)
      ensures Valid() && fresh(this) && repr == {this} + children.Objects() + below
      ensures tree == Tree(prefix, trees, isLeaf, entries)
    {
      this.prefix := prefix;
      this.children := children;
      this.isLeaf := isLeaf;
      this.entries := entries;
      tree := Tree(prefix, trees, isLeaf, entries);
      repr := {this} + children.Objects() + below;
      new;
      assert Below() == below;
    }

    /** A node without children. */
    constructor Bare(prefix: bytes, isLeaf: bool, entries: seq<Entry>)
      ensures Valid() && fresh(repr) && tree == Tree(prefix, [], isLeaf, entries)
    {
      var four := new LinearNode(4);
      this.prefix := prefix;
      children := Linear(four);
      this.isLeaf := isLeaf;
      this.entries := entries;
      tree := Tree(prefix, [], isLeaf, entries);
      repr := {this, four, four.keys, four.children};
      new;
      assert Below() == {};
    }

    /** Adds a child under a key that has none. */
    method AddChild(key: byte, child: RadixNode)
      requires Valid() && child.Valid() && repr !! child.repr && Find(tree.kids, key).None?
      modifies this, children.Objects()
      ensures Valid() && fresh(repr - old(repr) - child.repr)
      ensures tree == old(tree).(kids := Add(old(tree).kids, key, child.tree))
    {
      hide NodeChildren.Valid, NodeChildren.Contents, NodeChildren.Objects;
      hide Add, Hang;
      ghost var below := Below();
      FindSame(key);
      HangAdd(Kids(), tree.kids, below, key, child);
      var grown;
      children, grown := children.AddChild(key, child);
      tree := tree.(kids := Add(tree.kids, key, child.tree));
      repr := {this} + children.Objects() + below + child.repr;
      assert Below() == below + child.repr;
    }

    /** Cuts the node at `position`: the lower part moves to a new child. */
    method SplitAt(position: nat)
      requires Valid() && position < |prefix|
      modifies this
      ensures Valid() && fresh(repr - old(repr)) && tree == Split(old(tree), position)
    {
      hide Hang, Add, NodeChildren.Valid, NodeChildren.Contents, NodeChildren.Objects;
      ghost var below := Below();
      var child := new RadixNode(prefix[position..], children, isLeaf, entries, tree.kids, below);
      AddFirst(prefix[position], child.tree);
      MakeBare(prefix[..position]);
      AddChild(child.prefix[0], child);
    }

    /** Turns the node into an inner node without children. */
    method MakeBare(prefix: bytes)
      modifies this
      ensures Valid() && fresh(repr - {this}) && tree == Tree(prefix, [], false, [])
    {
      hide Hang, NodeChildren.Valid, NodeChildren.Contents, NodeChildren.Objects, LinearNode.Valid, LinearNode.Contents;
      var four := new LinearNode(4);
      EmptyLinear(four);
      HangNone();
      this.prefix := prefix;
      children := Linear(four);
      isLeaf := false;
      entries := [];
      tree := Tree(prefix, [], false, []);
      repr := {this} + children.Objects();
      assert Below() == {};
    }

    /** The descent of `AddEntry`: the node changes in place into what insertion makes of it. */
    method Insert(id: bytes, e: Entry)
      requires Valid() && Keyed(tree) && Reaches(tree, id)
      modifies repr
      ensures Valid() && fresh(repr - old(repr)) && tree == RadixSpec.Insert(old(tree), id, e)
      decreases |id|, if prefix == [] then 2 else 0, |prefix|
    {
      hide NodeChildren.Valid, NodeChildren.Contents, NodeChildren.Objects;
      hide Add, Hang;
      var n := CommonPrefixLength(prefix, id);
      if n < |prefix| {
        SplitAt(n);
        Insert(id, e);
        return;
      }
      var rest := id[n..];
      if rest == [] {
        isLeaf := true;
        entries := entries + [e];
        tree := tree.(isLeaf := true, entries := entries);
        return;
      }
      var child := children.FindChild(rest[0]);
      FindSame(rest[0]);
      if child.None? {
        var leaf := new RadixNode.Bare(rest, true, [e]);
        AddChild(rest[0], leaf);
      } else {
        InsertBelow(Find(tree.kids, rest[0]).value, child.value, rest, e);
      }
    }

    /** Insertion below child i. */
    method InsertBelow(ghost i: nat, child: RadixNode, rest: bytes, e: Entry)
      requires Valid() && i < |tree.kids| && i < |Kids()| && Kids()[i].child == child && Keyed(tree.kids[i].child)
      requires Reaches(tree.kids[i].child, rest) && tree.kids[i].child.prefix != []
      modifies repr
      ensures Valid() && fresh(repr - old(repr))
      ensures tree == WithKid(old(tree), i, RadixSpec.Insert(old(tree).kids[i].child, rest, e))
      decreases |rest|, 1
    {
      hide NodeChildren.Valid, NodeChildren.Contents, NodeChildren.Objects;
      hide Hang, HangBut;
      Unhang(i);
      ghost var others := Below() - child.repr;
      child.Insert(rest, e);
      Rehang(i, others);
    }

    /** Child i on its own, and the rest that changes inside it do not touch. */
    lemma Unhang(i: nat)
      requires Valid() && i < |tree.kids|
      ensures |Kids()| == |tree.kids| && Kids()[i].child.Valid() && tree.kids[i].child == Kids()[i].child.tree
      ensures Kids()[i].child.repr <= Below()
      ensures HangBut(Kids(), tree.kids, Below() - Kids()[i].child.repr, i)
    {
      hide NodeChildren.Valid, NodeChildren.Contents, NodeChildren.Objects;
      var kids := Kids();
      assert Stands(kids[i], tree.kids[i], Below());
      var others := Below() - kids[i].child.repr;
      forall j | 0 <= j < |kids| && j != i ensures Stands(kids[j], tree.kids[j], others) {
        assert Stands(kids[j], tree.kids[j], Below());
      }
    }

    /** Records that child i has changed, in place, and grown by new objects only. */
    ghost method Rehang(i: nat, others: set<object>)
      requires children.Valid() && this !in children.Objects() && i < |children.Contents()|
      requires var child := children.Contents()[i].child;
        child.Valid() && others !! child.repr && ({this} + children.Objects()) !! (others + child.repr)
      requires HangBut(children.Contents(), tree.kids, others, i) && tree == Tree(prefix, tree.kids, isLeaf, entries)
      modifies `tree, `repr
      ensures Valid() && repr == {this} + children.Objects() + others + children.Contents()[i].child.repr
      ensures |old(tree).kids| == |children.Contents()| && tree == WithKid(old(tree), i, children.Contents()[i].child.tree)
    {
      hide NodeChildren.Valid, NodeChildren.Contents, NodeChildren.Objects;
      ghost var child := children.Contents()[i].child;
      HangAgain(children.Contents(), tree.kids, others, i);
      tree := WithKid(tree, i, child.tree);
      repr := {this} + children.Objects() + others + child.repr;
      assert Below() == others + child.repr;
    }

    /** Keys are found among the children where they are found in the value. */
    lemma FindSame(key: byte)
      requires Valid()
      ensures |Kids()| == |tree.kids| && Find(Kids(), key) == Find(tree.kids, key)
    {
      hide NodeChildren.Valid, NodeChildren.Contents, NodeChildren.Objects;
      assert forall i :: 0 <= i < |Kids()| ==> Stands(Kids()[i], tree.kids[i], Below());
      FindByKeys(Kids(), tree.kids, key);
    }

    // ---- Queries and trimming -------------------------------------------------------------------

    /** The traversal of `Range`: what has been found so far, and then what this subtree adds. */
    method Collect(path: bytes, b: Bounds, count: nat, found: seq<Entry>) returns (r: seq<Entry>)
      requires Valid() && Shape(tree, path + prefix) && (count > 0 ==> |found| <= count)
      ensures r == Limit(found + Within(Dfs(tree), b), count)
      ensures count > 0 ==> |r| <= count
      decreases tree, 1
    {
      hide NodeChildren.Valid, NodeChildren.Contents, NodeChildren.Objects;
      hide Hang, Shape, Within, Dfs, DfsKids;
      r := found;
      if count > 0 && |r| >= count {
        return;
      }
      var current := path + prefix;
      if b.Contains(current) && isLeaf {
        r := CollectOwn(b, count, r);
      }
      OwnInBounds(tree, current, b);
      DfsNode(tree);
      WithinAppend(entries, DfsKids(tree.kids), b);
      if count > 0 && |r| >= count {
        return;
      }
      r := CollectBelow(current, b, count, r);
      assert found + Within(entries, b) + Within(DfsKids(tree.kids), b) == found + Within(Dfs(tree), b);
    }

    method CollectOwn(b: Bounds, count: nat, found: seq<Entry>) returns (r: seq<Entry>)
      requires count > 0 ==> |found| < count
      ensures r == Limit(found + Within(entries, b), count)
    {
      hide NodeChildren.Valid, NodeChildren.Contents, NodeChildren.Objects;
      hide b.Contains;
      r := found;
      var i := 0;
      while i < |entries|
        invariant i <= |entries| && r == found + Within(entries[..i], b)
        invariant count > 0 ==> |r| < count
      {
        if b.Contains(entries[i].id) {
          r := r + [entries[i]];
        }
        WithinOneMore(entries, i, b);
        i := i + 1;
        if count > 0 && |r| >= count {
          assert entries == entries[..i] + entries[i..];
          WithinAppend(entries[..i], entries[i..], b);
          return;
        }
      }
      assert entries[..i] == entries;
    }

    method CollectBelow(path: bytes, b: Bounds, count: nat, found: seq<Entry>) returns (r: seq<Entry>)
      requires Valid() && Shape(tree, path) && (count > 0 ==> |found| <= count)
      ensures r == Limit(found + Within(DfsKids(tree.kids), b), count)
      ensures count > 0 ==> |r| <= count
      decreases tree, 0
    {
      hide NodeChildren.Valid, NodeChildren.Contents, NodeChildren.Objects;
      hide Hang, Shape, Within, Dfs, DfsKids;
      r := found;
      WithinNone(b);
      assert found + [] == found && tree.kids[..0] == [];
      HangSame();
      var n := children.Size();
      var i := 0;
      while i < n
        invariant i <= n && r == Limit(found + Within(DfsKids(tree.kids[..i]), b), count)
        invariant count > 0 ==> |r| <= count
      {
        Unhang(i);
        KidOf(tree, path, i);
        ghost var before := found + Within(DfsKids(tree.kids[..i]), b);
        var child := children.GetChild(i);
        r := child.value.Collect(path, b, count, r);
        LimitTwice(before, Within(Dfs(tree.kids[i].child), b), count);
        WithinOneMoreKid(tree.kids, i, b);
        assert before + Within(Dfs(tree.kids[i].child), b) == found + Within(DfsKids(tree.kids[..i + 1]), b);
        i := i + 1;
      }
      assert tree.kids[..i] == tree.kids;
    }

    lemma HangSame()
      requires Valid()
      ensures |Kids()| == |tree.kids| && forall i :: 0 <= i < |Kids()| ==> Kids()[i].child.tree < tree
    {
      forall i | 0 <= i < |Kids()| ensures Kids()[i].child.tree < tree {
        assert Stands(Kids()[i], tree.kids[i], Below());
        assert tree.kids[i] in tree.kids;
      }
    }

    /** The traversal of `TrimBySize`: removes up to `excess` entries, and says how many it did not
        find. */
    method TrimBySize(excess: nat) returns (left: nat)
      requires Valid()
      modifies repr
      ensures Valid() && repr == old(repr) && (tree, left) == TrimSize(old(tree), excess)
      decreases repr, 2
    {
      hide Hang, TrimSizeKids;
      if isLeaf {
        left := TrimOwnBySize(excess);
      } else {
        left := TrimKidsBySize(excess);
      }
    }

    method TrimKidsBySize(excess: nat) returns (left: nat)
      requires Valid()
      modifies repr
      ensures Valid() && repr == old(repr)
      ensures var (trees, k) := TrimSizeKids(old(tree).kids, excess); tree == old(tree).(kids := trees) && left == k
      decreases repr, 1
    {
      hide NodeChildren.Valid, NodeChildren.Contents, NodeChildren.Objects;
      hide Hang, SizeTrimmedSoFar, TrimSizeKids, TrimSize;
      left := excess;
      ghost var trees := tree.kids;
      SizeTrimStart(trees, excess);
      HangSame();
      var n := children.Size();
      var i, done := 0, false;
      while i < n && !done
        invariant i <= n == |tree.kids| && Valid() && repr == old(repr)
        invariant done ==> left == 0
        invariant tree == old(tree).(kids := tree.kids) && SizeTrimmedSoFar(trees, tree.kids, i, excess, left)
      {
        SizeTrimStep(trees, tree.kids, i, excess, left);
        left := TrimKidBySize(i, left);
        i := i + 1;
        done := left == 0;
      }
      SizeTrimDone(trees, tree.kids, i, excess, left);
    }

    /** At a leaf, entries go one at a time. */
    method TrimOwnBySize(excess: nat) returns (left: nat)
      requires Valid() && isLeaf
      modifies this
      ensures Valid() && repr == old(repr) && (tree, left) == TrimSize(old(tree), excess)
    {
      hide NodeChildren.Valid, NodeChildren.Contents, NodeChildren.Objects;
      hide Hang;
      left := excess;
      while |entries| > 0 && left > 0
        modifies `entries
        invariant left <= excess && excess - left <= |old(entries)| && entries == old(entries)[excess - left..]
        decreases left
      {
        entries := entries[1..];
        left := left - 1;
      }
      tree := tree.(entries := entries);
    }

    method TrimKidBySize(i: nat, excess: nat) returns (left: nat)
      requires Valid() && i < |tree.kids|
      modifies repr
      ensures Valid() && repr == old(repr)
      ensures var (child, k) := TrimSize(old(tree).kids[i].child, excess); tree == WithKid(old(tree), i, child) && left == k
      decreases repr, 0
    {
      hide NodeChildren.Valid, NodeChildren.Contents, NodeChildren.Objects;
      hide Hang, HangBut, TrimSize;
      Unhang(i);
      var child := children.GetChild(i);
      ghost var others := Below() - child.value.repr;
      left := child.value.TrimBySize(excess);
      Rehang(i, others);
    }

    /** The traversal of `TrimByMinID`: the number of entries removed, and whether it met one that
        stays. */
    method TrimByMinID(minId: bytes) returns (trimmed: nat, stop: bool)
      requires Valid()
      modifies repr
      ensures Valid() && repr == old(repr) && (tree, stop) == TrimMin(old(tree), minId)
      ensures |Dfs(old(tree))| == |Dfs(tree)| + trimmed
      decreases repr, 2
    {
      hide Hang, TrimMinKids, Dfs, DfsKids;
      DfsNode(tree);
      if isLeaf {
        trimmed, stop := TrimOwnByMinID(minId);
      } else {
        trimmed, stop := TrimKidsByMinID(minId);
        DfsNode(tree);
      }
    }

    method TrimKidsByMinID(minId: bytes) returns (trimmed: nat, stop: bool)
      requires Valid()
      modifies repr
      ensures Valid() && repr == old(repr)
      ensures var (trees, s) := TrimMinKids(old(tree).kids, minId); tree == old(tree).(kids := trees) && stop == s
      ensures |DfsKids(old(tree).kids)| == |DfsKids(tree.kids)| + trimmed
      decreases repr, 1
    {
      hide NodeChildren.Valid, NodeChildren.Contents, NodeChildren.Objects;
      hide Hang, MinTrimmedSoFar, TrimMinKids, TrimMin, Dfs, DfsKids;
      trimmed, stop := 0, false;
      ghost var trees := tree.kids;
      MinTrimStart(trees, minId);
      HangSame();
      var n := children.Size();
      var i := 0;
      while i < n && !stop
        invariant i <= n == |tree.kids| && Valid() && repr == old(repr)
        invariant tree == old(tree).(kids := tree.kids) && MinTrimmedSoFar(trees, tree.kids, i, minId, stop)
        invariant |DfsKids(trees)| == |DfsKids(tree.kids)| + trimmed
      {
        MinTrimStep(trees, tree.kids, i, minId);
        var removed;
        removed, stop := TrimKidByMinID(i, minId);
        trimmed := trimmed + removed;
        i := i + 1;
      }
      MinTrimDone(trees, tree.kids, i, minId, stop);
    }

    /** At a leaf, the entries before the first that stays go together. */
    method TrimOwnByMinID(minId: bytes) returns (trimmed: nat, stop: bool)
      requires Valid() && isLeaf
      modifies this
      ensures Valid() && repr == old(repr) && (tree, stop) == TrimMin(old(tree), minId)
      ensures |Dfs(old(tree))| == |Dfs(tree)| + trimmed
    {
      hide NodeChildren.Valid, NodeChildren.Contents, NodeChildren.Objects;
      hide Hang, Less;
      var i := 0;
      while i < |entries| && Less(entries[i].id, minId)
        invariant i <= |entries| && FirstKept(entries, minId) == i + FirstKept(entries[i..], minId)
      {
        assert entries[i..][1..] == entries[i + 1..];
        i := i + 1;
      }
      stop, trimmed := i < |entries|, i;
      DfsNode(tree);
      entries := entries[i..];
      tree := tree.(entries := entries);
      DfsNode(tree);
    }

    method TrimKidByMinID(i: nat, minId: bytes) returns (trimmed: nat, stop: bool)
      requires Valid() && i < |tree.kids|
      modifies repr
      ensures Valid() && repr == old(repr)
      ensures var (child, s) := TrimMin(old(tree).kids[i].child, minId); tree == WithKid(old(tree), i, child) && stop == s
      ensures |DfsKids(old(tree).kids)| == |DfsKids(tree.kids)| + trimmed
      decreases repr, 0
    {
      hide NodeChildren.Valid, NodeChildren.Contents, NodeChildren.Objects;
      hide Hang, HangBut, TrimMin, Dfs, DfsKids;
      Unhang(i);
      var child := children.GetChild(i);
      ghost var others, trees := Below() - child.value.repr, tree.kids;
      trimmed, stop := child.value.TrimByMinID(minId);
      Rehang(i, others);
      DfsLength(trees, i, child.value.tree);
    }
  }

  /** The links of all children but the i-th. */
  ghost predicate HangBut(kids: seq<Slot<RadixNode>>, trees: seq<Slot<Tree>>, others: set<object>, i: nat)
    reads others
  {
    && |kids| == |trees| && i < |kids| && trees[i].key == kids[i].key
    && (forall j :: 0 <= j < |kids| && j != i ==> Stands(kids[j], trees[j], others))
    && (forall j, k :: 0 <= j < k < |kids| && j != i && k != i ==> kids[j].child.repr !! kids[k].child.repr)
  }

  lemma HangAgain(kids: seq<Slot<RadixNode>>, trees: seq<Slot<Tree>>, others: set<object>, i: nat)
    requires HangBut(kids, trees, others, i)
    requires kids[i].child.Valid() && others !! kids[i].child.repr
    ensures var child := kids[i].child;
      Hang(kids, trees[i := Slot(kids[i].key, child.tree)], others + child.repr)
  {
    var child := kids[i].child;
    var trees' := trees[i := Slot(kids[i].key, child.tree)];
    forall j | 0 <= j < |kids| ensures Stands(kids[j], trees'[j], others + child.repr) {
      if j != i {
        assert Stands(kids[j], trees[j], others);
      }
    }
    forall j, k | 0 <= j < k < |kids| ensures kids[j].child.repr !! kids[k].child.repr {
      assert j != i ==> Stands(kids[j], trees[j], others);
      assert k != i ==> Stands(kids[k], trees[k], others);
    }
  }

  lemma AddFirst(key: byte, t: Tree)
    ensures Add([], key, t) == [Slot(key, t)]
  {
  }

  lemma EmptyLinear(four: LinearNode<RadixNode>)
    requires four.Valid() && four.Contents() == []
    ensures Linear(four).Valid() && Linear(four).Contents() == [] && Linear(four).Objects() == {four, four.keys, four.children}
  {
  }

  lemma HangNone()
    ensures Hang([], [], {})
  {
  }

  /** Subtrees that share no node still share none when one more is added. */
  lemma HangAdd(kids: seq<Slot<RadixNode>>, trees: seq<Slot<Tree>>, below: set<object>, key: byte, child: RadixNode)
    requires Hang(kids, trees, below) && child.Valid() && below !! child.repr
    ensures Hang(Add(kids, key, child), Add(trees, key, child.tree), below + child.repr)
  {
    hide Add;
    var z, more := Pair(kids, trees), Slot(key, (child, child.tree));
    var z' := Add(z, key, (child, child.tree));
    AddSides(z, key, child, child.tree);
    assert forall i :: 0 <= i < |z| ==> z[i].child.0 in below;
    assert NoDuplicates(z) && more !in z;
    AddMembers(z, key, (child, child.tree));
    hide NoDuplicates;
    var all := below + child.repr;
    forall i | 0 <= i < |z'| ensures Stands(Slot(z'[i].key, z'[i].child.0), Slot(z'[i].key, z'[i].child.1), all) {
      if z'[i] != more {
        var j :| 0 <= j < |z| && z[j] == z'[i];
        assert Stands(kids[j], trees[j], below);
      }
    }
    forall i, j | 0 <= i < j < |z'| ensures z'[i].child.0.repr !! z'[j].child.0.repr {
      PairDistinct(z', i, j);
      PairApart(z, more, z'[i], z'[j]);
    }
  }

  lemma {:induction false} FindByKeys(kids: seq<Slot<RadixNode>>, trees: seq<Slot<Tree>>, key: byte)
    requires |kids| == |trees| && forall i :: 0 <= i < |kids| ==> kids[i].key == trees[i].key
    ensures Find(kids, key) == Find(trees, key)
  {
    if kids != [] {
      FindByKeys(kids[1..], trees[1..], key);
    }
  }

  lemma PairDistinct<T>(z: seq<T>, i: nat, j: nat)
    requires NoDuplicates(z) && i < j < |z|
    ensures z[i] != z[j]
  {
  }

  lemma PairApart(z: seq<Slot<(RadixNode, Tree)>>, s: Slot<(RadixNode, Tree)>, x: Slot<(RadixNode, Tree)>, y: Slot<(RadixNode, Tree)>)
    requires forall i, j :: 0 <= i < j < |z| ==> z[i].child.0.repr !! z[j].child.0.repr
    requires forall i :: 0 <= i < |z| ==> z[i].child.0.repr !! s.child.0.repr
    requires (x == s || x in z) && (y == s || y in z) && x != y
    ensures x.child.0.repr !! y.child.0.repr
  {
  }

  /** The length of the common prefix, by a loop. */
  method CommonPrefixLength(a: bytes, b: bytes) returns (n: nat)
    ensures n == CommonPrefix(a, b)
  {
    n := 0;
    while n < |a| && n < |b| && a[n] == b[n]
      invariant n <= |a| && n <= |b| && a[..n] == b[..n]
      decreases |a| - n
    {
      n := n + 1;
    }
    CommonPrefixUnique(a, b, n);
  }

  lemma {:induction false} CommonPrefixUnique(a: bytes, b: bytes, n: nat)
    requires n <= |a| && n <= |b| && a[..n] == b[..n] && (n < |a| && n < |b| ==> a[n] != b[n])
    ensures n == CommonPrefix(a, b)
  {
    if n > 0 {
      assert a[0] == a[..n][0] == b[..n][0] == b[0];
      assert a[1..][..n - 1] == a[..n][1..] == b[..n][1..] == b[1..][..n - 1];
      CommonPrefixUnique(a[1..], b[1..], n - 1);
    }
  }

  /** The entries at a node share its ID. */
  lemma OwnInBounds(t: Tree, path: bytes, b: Bounds)
    requires Shape(t, path)
    ensures Within(t.entries, b) == if b.Contains(path) && t.isLeaf then t.entries else []
    ensures !(b.Contains(path) && t.isLeaf) ==> Within(t.entries, b) == []
  {
    WithinSameId(t.entries, path, b);
  }

  lemma WithinOneMore(es: seq<Entry>, i: nat, b: Bounds)
    requires i < |es|
    ensures Within(es[..i + 1], b) == Within(es[..i], b) + if b.Contains(es[i].id) then [es[i]] else []
  {
    assert es[..i + 1] == es[..i] + [es[i]];
    WithinAppend(es[..i], [es[i]], b);
  }

  lemma WithinNone(b: Bounds)
    ensures Within(DfsKids([]), b) == []
  {
  }

  lemma WithinOneMoreKid(kids: seq<Slot<Tree>>, i: nat, b: Bounds)
    requires i < |kids|
    ensures Within(DfsKids(kids[..i + 1]), b) == Within(DfsKids(kids[..i]), b) + Within(Dfs(kids[i].child), b)
  {
    DfsKidsAt(kids[..i + 1], i);
    assert kids[..i + 1][..i] == kids[..i] && kids[..i + 1][i + 1..] == [];
    WithinAppend(DfsKids(kids[..i]), Dfs(kids[i].child), b);
    assert DfsKids(kids[..i]) + Dfs(kids[i].child) + [] == DfsKids(kids[..i]) + Dfs(kids[i].child);
  }

  /** The first i subtrees are trimmed, with `left` entries still to go. */
  ghost predicate SizeTrimmedSoFar(trees: seq<Slot<Tree>>, now: seq<Slot<Tree>>, i: nat, excess: nat, left: nat) {
    && i <= |trees| == |now| && now[i..] == trees[i..]
    && var (others, k) := TrimSizeKids(trees[i..], left); TrimSizeKids(trees, excess) == (now[..i] + others, k)
  }

  lemma SizeTrimStart(trees: seq<Slot<Tree>>, excess: nat)
    ensures SizeTrimmedSoFar(trees, trees, 0, excess, excess)
  {
    hide TrimSizeKids;
    assert trees[0..] == trees && trees[..0] == [];
    var (others, k) := TrimSizeKids(trees, excess);
    assert [] + others == others;
  }

  lemma SizeTrimStep(trees: seq<Slot<Tree>>, now: seq<Slot<Tree>>, i: nat, excess: nat, left: nat)
    requires SizeTrimmedSoFar(trees, now, i, excess, left) && i < |trees|
    ensures now[i] == trees[i]
    ensures var (child, k) := TrimSize(trees[i].child, left);
      SizeTrimmedSoFar(trees, now[i := Slot(trees[i].key, child)], i + 1, excess, k)
  {
    hide TrimSize;
    assert now[i] == now[i..][0] == trees[i..][0];
    var (child, k) := TrimSize(trees[i].child, left);
    var now' := now[i := Slot(trees[i].key, child)];
    assert trees[i..][1..] == trees[i + 1..] && now'[i + 1..] == now[i..][1..];
    var (others, k2) := TrimSizeKids(trees[i + 1..], k);
    assert TrimSizeKids(trees[i..], left) == ([Slot(trees[i].key, child)] + others, k2);
    assert now'[..i + 1] == now[..i] + [Slot(trees[i].key, child)];
    hide TrimSizeKids;
    assert now[..i] + ([Slot(trees[i].key, child)] + others) == now'[..i + 1] + others;
  }

  lemma SizeTrimDone(trees: seq<Slot<Tree>>, now: seq<Slot<Tree>>, i: nat, excess: nat, left: nat)
    requires SizeTrimmedSoFar(trees, now, i, excess, left) && (i == |trees| || left == 0)
    ensures TrimSizeKids(trees, excess) == (now, left)
  {
    if left == 0 {
      TrimNothing(trees[i..]);
    }
    assert TrimSizeKids(trees[i..], left) == (trees[i..], left);
    assert now[..i] + now[i..] == now;
  }

  lemma {:induction false} TrimNothing(kids: seq<Slot<Tree>>)
    ensures TrimSizeKids(kids, 0) == (kids, 0)
    decreases kids, 0
  {
    if kids != [] {
      assert kids[0].child < kids[0];
      TrimNothingBelow(kids[0].child);
      TrimNothing(kids[1..]);
      assert kids == [Slot(kids[0].key, kids[0].child)] + kids[1..];
    }
  }

  lemma {:induction false} TrimNothingBelow(t: Tree)
    ensures TrimSize(t, 0) == (t, 0)
    decreases t, 1
  {
    if !t.isLeaf {
      TrimNothing(t.kids);
    }
  }

  /** The first i subtrees are trimmed, and an entry that stays was met in the last of them or not
      at all. */
  ghost predicate MinTrimmedSoFar(trees: seq<Slot<Tree>>, now: seq<Slot<Tree>>, i: nat, minId: bytes, stop: bool) {
    && i <= |trees| == |now| && now[i..] == trees[i..]
    && TrimMinKids(trees, minId) ==
      if stop then (now, true) else var (others, s) := TrimMinKids(trees[i..], minId); (now[..i] + others, s)
  }

  lemma MinTrimStart(trees: seq<Slot<Tree>>, minId: bytes)
    ensures MinTrimmedSoFar(trees, trees, 0, minId, false)
  {
    hide TrimMinKids;
    assert trees[0..] == trees && trees[..0] == [];
    var (others, s) := TrimMinKids(trees, minId);
    assert [] + others == others;
  }

  lemma MinTrimStep(trees: seq<Slot<Tree>>, now: seq<Slot<Tree>>, i: nat, minId: bytes)
    requires MinTrimmedSoFar(trees, now, i, minId, false) && i < |trees|
    ensures now[i] == trees[i]
    ensures var (child, stop) := TrimMin(trees[i].child, minId);
      MinTrimmedSoFar(trees, now[i := Slot(trees[i].key, child)], i + 1, minId, stop)
  {
    hide TrimMin;
    assert now[i] == now[i..][0] == trees[i..][0];
    var (child, stop) := TrimMin(trees[i].child, minId);
    var kid := Slot(trees[i].key, child);
    var now' := now[i := kid];
    assert trees[i..][1..] == trees[i + 1..] && now'[i + 1..] == now[i..][1..];
    var (others, s) := TrimMinKids(trees[i + 1..], minId);
    assert TrimMinKids(trees[i..], minId) == if stop then ([kid] + trees[i + 1..], true) else ([kid] + others, s);
    assert now'[..i + 1] == now[..i] + [kid];
    hide TrimMinKids;
    if stop {
      assert now[..i] + ([kid] + trees[i + 1..]) == now'[..i + 1] + now'[i + 1..] == now';
    } else {
      assert now[..i] + ([kid] + others) == now'[..i + 1] + others;
    }
  }

  lemma MinTrimDone(trees: seq<Slot<Tree>>, now: seq<Slot<Tree>>, i: nat, minId: bytes, stop: bool)
    requires MinTrimmedSoFar(trees, now, i, minId, stop) && (i == |trees| || stop)
    ensures TrimMinKids(trees, minId) == (now, stop)
  {
    if !stop {
      assert TrimMinKids(trees[i..], minId) == ([], false);
      assert now[..i] + [] == now;
    }
  }

  lemma DfsLength(kids: seq<Slot<Tree>>, i: nat, child: Tree)
    requires i < |kids|
    ensures |DfsKids(kids[i := Slot(kids[i].key, child)])| + |Dfs(kids[i].child)| == |DfsKids(kids)| + |Dfs(child)|
  {
    hide Dfs, DfsKids;
    var kids' := kids[i := Slot(kids[i].key, child)];
    DfsKidsAt(kids, i);
    DfsKidsAt(kids', i);
    assert kids'[..i] == kids[..i] && kids'[i + 1..] == kids[i + 1..];
  }
}
