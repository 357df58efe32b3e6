/** Runs of a stream: additions, with explicit and with generated IDs, and trims, against a plain sorted list. */
module StreamRuns {
  import opened Bytes
  import opened Decimal
  import opened Slots
  import opened RadixSpec
  import opened RadixOrder
  import opened RadixQueries
  import opened RadixLeaves
  import opened StreamIds

  /** The value of a tree object. */
  datatype State = State(tree: Tree, clock: Clock)

  const EMPTY_TREE := Tree([], [], false, [])
  const EMPTY := State(EMPTY_TREE, NEW_CLOCK)

  /** What any run keeps, in whatever order IDs arrive. */
  predicate Sound(s: State) {
    && s.tree.prefix == [] && Keyed(s.tree) && Shape(s.tree, [])
    && forall i :: 0 <= i < |Leaves(s.tree, [])| ==> AtMost(Leaves(s.tree, [])[i], s.clock.lastId)
  }

  /** What runs keep besides in which every ID is above the last one. */
  predicate Ordered(s: State) {
    Sound(s) && SortedTree(s.tree) && Increasing(Dfs(s.tree))
  }

  /** Puts an entry into the tree. */
  function Put(s: State, id: bytes, fields: seq<seq<bytes>>): (r: State)
    requires Sound(s)
    ensures Sound(r) && multiset(Dfs(r.tree)) == multiset(Dfs(s.tree)) + multiset{Entry(id, fields)}
  {
    PutSound(s, id, fields);
    State(Insert(s.tree, id, Entry(id, fields)), UpdateLast(s.clock, id))
  }

  /** The surplus over the wanted size, if any, is removed as far as the traversal can get at it. */
  function TrimTo(s: State, maxSize: int): (r: State)
    requires Sound(s)
    ensures Sound(r)
  {
    TrimSizeSound(s, Surplus(|Dfs(s.tree)|, maxSize));
    s.(tree := TrimSize(s.tree, Surplus(|Dfs(s.tree)|, maxSize)).0)
  }

  function Surplus(size: nat, maxSize: int): nat {
    if size <= maxSize then 0 else size - maxSize
  }

  function TrimBelow(s: State, minId: bytes): (r: State)
    requires Sound(s)
    ensures Sound(r)
  {
    TrimMinSound(s, minId);
    s.(tree := TrimMin(s.tree, minId).0)
  }

  lemma TreeReaches(s: State, id: bytes)
    requires Sound(s)
    ensures Reaches(s.tree, id) && [] + s.tree.prefix == [] && [] + id == id
  {
  }

  lemma PutSound(s: State, id: bytes, fields: seq<seq<bytes>>)
    requires Sound(s)
    ensures var e := Entry(id, fields);
      Sound(State(Insert(s.tree, id, e), UpdateLast(s.clock, id)))
      && multiset(Dfs(Insert(s.tree, id, e))) == multiset(Dfs(s.tree)) + multiset{e}
  {
    var e := Entry(id, fields);
    var r, c := Insert(s.tree, id, e), UpdateLast(s.clock, id);
    TreeReaches(s, id);
    hide Dfs, Shape, Insert, Leaves, SplitDash, ParseInt, Less;
    InsertMultimap(s.tree, [], id, e);
    assert [] + r.prefix == [];
    ShapeKeyed(r, []);
    InsertLeaves(s.tree, [], id, e);
    var ls := Leaves(r, []);
    forall i | 0 <= i < |ls| ensures AtMost(ls[i], c.lastId) {
      assert ls[i] in ls;
      if ls[i] == id {
        AddedAtMost(s.clock, id);
      } else {
        var j :| 0 <= j < |Leaves(s.tree, [])| && Leaves(s.tree, [])[j] == ls[i];
        LastGrows(s.clock, id, ls[i]);
      }
    }
  }

  lemma PutSize(s: State, id: bytes, fields: seq<seq<bytes>>)
    requires Sound(s)
    ensures |Dfs(Put(s, id, fields).tree)| == |Dfs(s.tree)| + 1
  {
    hide Dfs, Insert, UpdateLast, Sound;
    var r := Put(s, id, fields);
    assert |multiset(Dfs(r.tree))| == |multiset(Dfs(s.tree))| + 1;
  }

  lemma AddedAtMost(c: Clock, id: bytes)
    ensures AtMost(id, UpdateLast(c, id).lastId)
  {
    LessIrreflexive(id);
  }

  lemma LastGrows(c: Clock, id: bytes, l: bytes)
    requires AtMost(l, c.lastId)
    ensures AtMost(l, UpdateLast(c, id).lastId)
  {
    if Less(c.lastId, id) {
      AtMostLess(l, c.lastId, id);
      LessAsymmetric(l, id);
    }
  }

  lemma TrimSizeSound(s: State, k: nat)
    requires Sound(s)
    ensures Sound(s.(tree := TrimSize(s.tree, k).0))
  {
    hide Less;
    TrimSizeShape(s.tree, [], k);
    ShapeKeyed(TrimSize(s.tree, k).0, []);
  }

  lemma TrimMinSound(s: State, minId: bytes)
    requires Sound(s)
    ensures Sound(s.(tree := TrimMin(s.tree, minId).0))
  {
    hide Less;
    TrimMinShape(s.tree, [], minId);
    ShapeKeyed(TrimMin(s.tree, minId).0, []);
  }

  /** `Stream.AddEntry`: the ID is validated or generated, then the entry goes into the tree. */
  function AddEntry(s: State, id: bytes, fields: seq<seq<bytes>>, now: int): (r: (State, Option<bytes>))
    requires Sound(s)
    ensures Sound(r.0)
  {
    match Resolve(s.clock, id, now)
    case (c, None) => (s.(clock := c), None)
    case (c, Some(full)) => (Put(s.(clock := c), full, fields), Some(full))
  }

  lemma AddEntryIsAddId(s: State, id: bytes, fields: seq<seq<bytes>>, now: int)
    requires Sound(s)
    ensures var (s', full) := AddEntry(s, id, fields, now); (s'.clock, full) == AddId(s.clock, id, now)
  {
    hide Less, Shape, Keyed;
  }

  /** The reply is what the ID asks for, and the entry is stored under it. */
  lemma AddEntryAnswers(s: State, id: bytes, fields: seq<seq<bytes>>, now: int)
    requires Sound(s)
    ensures var (s', full) := AddEntry(s, id, fields, now);
      && Answers(s.clock, id, now, full)
      && multiset(Dfs(s'.tree)) == multiset(Dfs(s.tree)) + if full.Some? then multiset{Entry(full.value, fields)} else multiset{}
  {
    AddEntryIsAddId(s, id, fields, now);
    AddIdAnswers(s.clock, id, now);
    ResolveKeepsTree(s, id, fields, now);
    hide *;
  }

  lemma ResolveKeepsTree(s: State, id: bytes, fields: seq<seq<bytes>>, now: int)
    requires Sound(s)
    ensures var (s', full) := AddEntry(s, id, fields, now);
      multiset(Dfs(s'.tree)) == multiset(Dfs(s.tree)) + if full.Some? then multiset{Entry(full.value, fields)} else multiset{}
  {
    hide Resolve, Dfs, Shape, Keyed, Leaves, Less;
  }

  /** What `XADD` does to a stream: an entry, and if it was accepted one of the trims. */
  function AddAndTrim(s: State, id: bytes, fields: seq<seq<bytes>>, now: int, maxLen: int, minId: bytes): (r: (State, Option<bytes>))
    requires Sound(s)
    ensures Sound(r.0)
  {
    var (s1, full) := AddEntry(s, id, fields, now);
    if full.None? then (s1, None)
    else (if maxLen > 0 then TrimTo(s1, maxLen) else if minId != [] then TrimBelow(s1, minId) else s1, full)
  }

  // ---- Order ----------------------------------------------------------------------------------

  /** An ID above the last one goes to the end. */
  lemma PutAppends(s: State, id: bytes, fields: seq<seq<bytes>>)
    requires Ordered(s) && Less(s.clock.lastId, id)
    ensures var r := Put(s, id, fields);
      Ordered(r) && Dfs(r.tree) == Dfs(s.tree) + [Entry(id, fields)] && Leaves(r.tree, []) == Leaves(s.tree, []) + [id]
  {
    var e := Entry(id, fields);
    TreeReaches(s, id);
    var r := Put(s, id, fields);
    hide Dfs, Shape, Insert, Leaves, Less, UpdateLast;
    var ls, es := Leaves(s.tree, []), Dfs(s.tree);
    forall i | 0 <= i < |ls| ensures Less(ls[i], id) {
      AtMostLess(ls[i], s.clock.lastId, id);
    }
    InsertAppends(s.tree, [], id, e);
    assert [] + r.tree.prefix == [];
    forall i | 0 <= i < |es| ensures Less(es[i].id, id) {
      EntriesAtLeaves(s.tree, [], es[i]);
    }
  }

  lemma TrimToOrdered(s: State, maxSize: int)
    requires Ordered(s)
    ensures Ordered(TrimTo(s, maxSize)) && Leaves(TrimTo(s, maxSize).tree, []) == Leaves(s.tree, [])
    ensures Subsequence(Dfs(TrimTo(s, maxSize).tree), Dfs(s.tree))
  {
    var k := Surplus(|Dfs(s.tree)|, maxSize);
    hide Dfs, Shape, Leaves, Less, Increasing;
    TrimSizeShape(s.tree, [], k);
    TrimSizeSubsequence(s.tree, k);
    SubsequenceIncreasing(Dfs(TrimSize(s.tree, k).0), Dfs(s.tree));
  }

  lemma TrimBelowOrdered(s: State, minId: bytes)
    requires Ordered(s)
    ensures Ordered(TrimBelow(s, minId)) && Leaves(TrimBelow(s, minId).tree, []) == Leaves(s.tree, [])
    ensures Subsequence(Dfs(TrimBelow(s, minId).tree), Dfs(s.tree))
  {
    hide Dfs, Shape, Leaves, Less, Increasing;
    TrimMinShape(s.tree, [], minId);
    TrimMinSubsequence(s.tree, minId);
    SubsequenceIncreasing(Dfs(TrimMin(s.tree, minId).0), Dfs(s.tree));
  }

  // ---- Runs -----------------------------------------------------------------------------------

  /** `Add` is a `Stream.AddEntry` at some time of day; the others are the trims of `XADD`. */
  datatype Op = Add(id: bytes, fields: seq<seq<bytes>>, now: int) | ToSize(maxSize: int) | BelowId(minId: bytes)

  function Step(s: State, op: Op): (r: State)
    requires Sound(s)
    ensures Sound(r)
  {
    match op
    case Add(id, fields, now) => AddEntry(s, id, fields, now).0
    case ToSize(maxSize) => TrimTo(s, maxSize)
    case BelowId(minId) => TrimBelow(s, minId)
  }

  function Run(s: State, ops: seq<Op>): (r: State)
    requires Sound(s)
    ensures Sound(r)
    decreases |ops|
  {
    if ops == [] then s else Run(Step(s, ops[0]), ops[1..])
  }

  /** Every `XADD` is one or two operations of a run. */
  lemma XAddIsRun(s: State, id: bytes, fields: seq<seq<bytes>>, now: int, maxLen: int, minId: bytes)
    requires Sound(s)
    ensures var (s', full) := AddAndTrim(s, id, fields, now, maxLen, minId);
      s' == Run(s, [Add(id, fields, now)] +
                   if full.None? then [] else if maxLen > 0 then [ToSize(maxLen)] else if minId != [] then [BelowId(minId)] else [])
  {
    hide Sound, AddEntry, TrimTo, TrimBelow;
    var op := Add(id, fields, now);
    assert [op] + [] == [op] && [op][1..] == [];
    assert Run(Step(s, op), []) == Step(s, op);
    var trims := if maxLen > 0 then [ToSize(maxLen)] else [BelowId(minId)];
    assert ([op] + trims)[1..] == trims && trims[1..] == [];
    assert Run(Step(s, op), trims) == Run(Step(Step(s, op), trims[0]), []);
  }

  /** The ID that an operation adds, if any, and the clock after it. */
  function Added(c: Clock, op: Op): Option<bytes> {
    if op.Add? then AddId(c, op.id, op.now).1 else None
  }

  function NextClock(c: Clock, op: Op): Clock {
    if op.Add? then AddId(c, op.id, op.now).0 else c
  }

  function ToSeq<T>(x: Option<T>): seq<T> {
    if x.Some? then [x.value] else []
  }

  /** The IDs accepted in the run. */
  function AcceptedIds(c: Clock, ops: seq<Op>): seq<bytes>
    decreases |ops|
  {
    if ops == [] then [] else ToSeq(Added(c, ops[0])) + AcceptedIds(NextClock(c, ops[0]), ops[1..])
  }

  /** An accepted ID is above the last one, in byte order. Explicit IDs always are; a generated one is
      never compared. */
  predicate InByteOrder(c: Clock, op: Op) {
    Added(c, op).Some? ==> Less(c.lastId, Added(c, op).value)
  }

  predicate AllInByteOrder(c: Clock, ops: seq<Op>)
    decreases |ops|
  {
    ops == [] || (InByteOrder(c, ops[0]) && AllInByteOrder(NextClock(c, ops[0]), ops[1..]))
  }

  lemma ExplicitInByteOrder(c: Clock, op: Op)
    requires op.Add? ==> !Starred(op.id)
    ensures InByteOrder(c, op)
  {
    if Added(c, op).Some? && c.lastId == [] {
      assert SplitDash([]) == [[]];
    }
    hide Starred, UpdateLast, ParseInt;
  }

  lemma {:induction false} ExplicitRunsInByteOrder(c: Clock, ops: seq<Op>)
    requires forall i :: 0 <= i < |ops| && ops[i].Add? ==> !Starred(ops[i].id)
    ensures AllInByteOrder(c, ops)
    decreases |ops|
  {
    hide InByteOrder, NextClock, Starred;
    if ops != [] {
      ExplicitInByteOrder(c, ops[0]);
      ExplicitRunsInByteOrder(NextClock(c, ops[0]), ops[1..]);
    }
  }

  lemma ResolveKeepsLast(c: Clock, id: bytes, now: int)
    ensures Resolve(c, id, now).0.lastId == c.lastId
  {
  }

  /** Every run whose accepted IDs are each above the last one, as all explicit ones are, enumerates its
      entries in strictly increasing byte order. */
  lemma {:induction false} RunOrdered(s: State, ops: seq<Op>)
    requires Ordered(s) && AllInByteOrder(s.clock, ops)
    ensures Ordered(Run(s, ops)) && Leaves(Run(s, ops).tree, []) == Leaves(s.tree, []) + AcceptedIds(s.clock, ops)
    decreases |ops|
  {
    assert Sound(s);
    hide Sound, Ordered, Leaves, Step, Added, NextClock, ToSeq, InByteOrder;
    if ops == [] {
      assert Leaves(s.tree, []) + [] == Leaves(s.tree, []);
    } else {
      StepOrdered(s, ops[0]);
      RunOrdered(Step(s, ops[0]), ops[1..]);
      PlusAssociative(Leaves(s.tree, []), ToSeq(Added(s.clock, ops[0])), AcceptedIds(NextClock(s.clock, ops[0]), ops[1..]));
    }
  }

  lemma PlusAssociative<T>(a: seq<T>, b: seq<T>, c: seq<T>)
    ensures a + (b + c) == a + b + c
  {
  }

  lemma StepOrdered(s: State, op: Op)
    requires Ordered(s) && InByteOrder(s.clock, op)
    ensures var r, id := Step(s, op), Added(s.clock, op);
      && Ordered(r) && r.clock == NextClock(s.clock, op) && Leaves(r.tree, []) == Leaves(s.tree, []) + ToSeq(id)
      && (op.Add? ==> Dfs(r.tree) == Dfs(s.tree) + if id.Some? then [Entry(id.value, op.fields)] else [])
      && (!op.Add? ==> Subsequence(Dfs(r.tree), Dfs(s.tree)))
  {
    match op
    case Add(id, fields, now) => AddOrdered(s, id, fields, now);
    case ToSize(maxSize) => TrimToOrdered(s, maxSize);
    case BelowId(minId) => TrimBelowOrdered(s, minId);
    hide Ordered, Leaves, Dfs, AddId, Subsequence;
  }

  lemma AddOrdered(s: State, id: bytes, fields: seq<seq<bytes>>, now: int)
    requires Ordered(s) && InByteOrder(s.clock, Add(id, fields, now))
    ensures var (r, full) := AddEntry(s, id, fields, now);
      && Ordered(r) && (r.clock, full) == AddId(s.clock, id, now)
      && Leaves(r.tree, []) == Leaves(s.tree, []) + ToSeq(full)
      && Dfs(r.tree) == Dfs(s.tree) + if full.Some? then [Entry(full.value, fields)] else []
  {
    AddEntryIsAddId(s, id, fields, now);
    ResolveKeepsLast(s.clock, id, now);
    var (c, full) := Resolve(s.clock, id, now);
    var s1 := s.(clock := c);
    assert Ordered(s1);
    hide Ordered, Leaves, Dfs, Resolve, Put, UpdateLast, Less;
    assert full == AddId(s.clock, id, now).1;
    if full.Some? {
      PutAppends(s1, full.value, fields);
    }
  }

  // ---- The plain list -------------------------------------------------------------------------

  /** A sorted list, and the clock. */
  datatype Plain = Plain(entries: seq<Entry>, clock: Clock)

  function PlainStep(p: Plain, op: Op): Plain {
    match op
    case Add(_, fields, _) =>
      var id := Added(p.clock, op);
      Plain(p.entries + (if id.Some? then [Entry(id.value, fields)] else []), NextClock(p.clock, op))
    case ToSize(maxSize) => p.(entries := p.entries[Min(Surplus(|p.entries|, maxSize), |p.entries|)..])
    case BelowId(minId) => p.(entries := Kept(p.entries, minId))
  }

  function PlainRun(p: Plain, ops: seq<Op>): Plain
    decreases |ops|
  {
    if ops == [] then p else PlainRun(PlainStep(p, ops[0]), ops[1..])
  }

  /** The plain list that a tree stands for. */
  function Flat(s: State): Plain {
    Plain(Dfs(s.tree), s.clock)
  }

  /** As long as no accepted ID is a proper prefix of another, the tree behaves as the list: after
      any run, it holds the same entries in the same order. */
  lemma {:induction false} TreeIsPlainList(s: State, ops: seq<Op>)
    requires Ordered(s) && AllInByteOrder(s.clock, ops)
    requires PrefixFree(Leaves(s.tree, []) + AcceptedIds(s.clock, ops))
    ensures Flat(Run(s, ops)) == PlainRun(Flat(s), ops)
    decreases |ops|
  {
    assert Sound(s);
    hide Sound, Ordered, Leaves, Flat, Step, PlainStep, Added, NextClock, ToSeq, PrefixFree, InByteOrder;
    if ops != [] {
      PrefixFreeStart(Leaves(s.tree, []), AcceptedIds(s.clock, ops));
      StepIsPlain(s, ops[0]);
      StepOrdered(s, ops[0]);
      PlusAssociative(Leaves(s.tree, []), ToSeq(Added(s.clock, ops[0])), AcceptedIds(NextClock(s.clock, ops[0]), ops[1..]));
      TreeIsPlainList(Step(s, ops[0]), ops[1..]);
    }
  }

  lemma PrefixFreeStart(a: seq<bytes>, b: seq<bytes>)
    requires PrefixFree(a + b)
    ensures PrefixFree(a)
  {
    assert forall i :: 0 <= i < |a| ==> a[i] == (a + b)[i];
  }

  lemma StepIsPlain(s: State, op: Op)
    requires Ordered(s) && PrefixFree(Leaves(s.tree, [])) && InByteOrder(s.clock, op)
    ensures Flat(Step(s, op)) == PlainStep(Flat(s), op)
  {
    StepOrdered(s, op);
    hide Leaves, Dfs, Shape, PrefixFree, AddId, AddEntry, TrimSize, TrimMin, Less;
    PrefixFreeLeaves(s.tree, []);
    match op
    case Add(_, _, _) =>
    case ToSize(maxSize) => TrimSizeDropsFirst(s.tree, [], Surplus(|Dfs(s.tree)|, maxSize));
    case BelowId(minId) => TrimMinKeepsRest(s.tree, [], minId);
  }

  /** A fresh stream and any run in byte order: its enumeration is sorted, the IDs with a node are the
      accepted ones, and it is the plain list if no accepted ID extends another. */
  lemma StreamFromEmpty(ops: seq<Op>)
    requires AllInByteOrder(NEW_CLOCK, ops)
    ensures Ordered(EMPTY) && Ordered(Run(EMPTY, ops)) && Leaves(Run(EMPTY, ops).tree, []) == AcceptedIds(NEW_CLOCK, ops)
    ensures PrefixFree(AcceptedIds(NEW_CLOCK, ops)) ==> Flat(Run(EMPTY, ops)) == PlainRun(Plain([], NEW_CLOCK), ops)
  {
    EmptyOrdered();
    EmptyIsFlat();
    hide *;
    RunOrdered(EMPTY, ops);
    var ids := AcceptedIds(NEW_CLOCK, ops);
    assert [] + ids == ids;
    if PrefixFree(ids) {
      TreeIsPlainList(EMPTY, ops);
    }
  }

  lemma EmptyOrdered()
    ensures Ordered(EMPTY) && Leaves(EMPTY.tree, []) == [] && EMPTY.clock == NEW_CLOCK
  {
    assert Leaves(EMPTY_TREE, []) == [] && Dfs(EMPTY_TREE) == [];
  }

  // ---- The IDs that have a node, in any order -------------------------------------------------

  lemma PutLeaves(s: State, id: bytes, fields: seq<seq<bytes>>, l: bytes)
    requires Sound(s)
    ensures l in Leaves(Put(s, id, fields).tree, []) <==> l == id || l in Leaves(s.tree, [])
  {
    TreeReaches(s, id);
    hide Shape, Leaves, Insert, Dfs, UpdateLast;
    InsertLeaves(s.tree, [], id, Entry(id, fields));
    assert [] + Put(s, id, fields).tree.prefix == [];
  }

  lemma StepLeaves(s: State, op: Op, l: bytes)
    requires Sound(s)
    ensures l in Leaves(Step(s, op).tree, []) <==> l in Leaves(s.tree, []) || l in ToSeq(Added(s.clock, op))
    ensures Step(s, op).clock == NextClock(s.clock, op)
  {
    match op
    case Add(id, fields, now) =>
      AddEntryIsAddId(s, id, fields, now);
      ResolveKeepsLast(s.clock, id, now);
      var (c, full) := Resolve(s.clock, id, now);
      hide Leaves, Put, Resolve, UpdateLast, Shape, Keyed, Less;
      if full.Some? {
        PutLeaves(s.(clock := c), full.value, fields, l);
      }
    case ToSize(maxSize) => TrimSizeShape(s.tree, [], Surplus(|Dfs(s.tree)|, maxSize));
    case BelowId(minId) => TrimMinShape(s.tree, [], minId);
  }

  /** Over any run, in whatever order IDs arrive, the IDs with a node are those that were there and the
      accepted ones; trimming takes none away. */
  lemma {:induction false} RunLeaves(s: State, ops: seq<Op>, l: bytes)
    requires Sound(s)
    ensures l in Leaves(Run(s, ops).tree, []) <==> l in Leaves(s.tree, []) || l in AcceptedIds(s.clock, ops)
    decreases |ops|
  {
    hide Sound, Leaves, Step, Added, NextClock, ToSeq;
    if ops != [] {
      StepLeaves(s, ops[0], l);
      RunLeaves(Step(s, ops[0]), ops[1..], l);
      var ids := ToSeq(Added(s.clock, ops[0]));
      assert l in ids + AcceptedIds(NextClock(s.clock, ops[0]), ops[1..]) <==> l in ids || l in AcceptedIds(NextClock(s.clock, ops[0]), ops[1..]);
    }
  }

  lemma EmptyIsFlat()
    ensures Flat(EMPTY) == Plain([], NEW_CLOCK) && EMPTY.clock == NEW_CLOCK && EMPTY.tree == EMPTY_TREE
  {
    assert Dfs(EMPTY_TREE) == [];
  }

  /** IDs of one length do not extend each other. */
  lemma OneLengthIsPrefixFree(ids: seq<bytes>, n: nat)
    requires forall i :: 0 <= i < |ids| ==> |ids[i]| == n
    ensures PrefixFree(ids)
  {
  }

  /** Trimming gets down to the wanted size if and only if the entries whose ID has no proper prefix among
      the IDs with a node cover the surplus. */
  lemma TrimToReaches(s: State, maxSize: nat)
    requires Sound(s)
    ensures var surplus := Surplus(|Dfs(s.tree)|, maxSize);
      |Dfs(TrimTo(s, maxSize).tree)| <= maxSize <==> |Unburied(Dfs(s.tree), Leaves(s.tree, []))| >= surplus
  {
    hide Dfs, Top, TrimSize, Unburied, Leaves, Shape;
    TopOfTree(s.tree);
    TrimSizeReaches(s.tree, Surplus(|Dfs(s.tree)|, maxSize));
  }

  /** For a stream built by any run that is: no proper prefix among the IDs ever accepted. */
  lemma RunTrimReaches(ops: seq<Op>, maxSize: nat)
    ensures Sound(EMPTY)
    ensures var s := Run(EMPTY, ops);
      var surplus := Surplus(|Dfs(s.tree)|, maxSize);
      |Dfs(TrimTo(s, maxSize).tree)| <= maxSize <==> |Unburied(Dfs(s.tree), AcceptedIds(NEW_CLOCK, ops))| >= surplus
  {
    EmptyOrdered();
    hide Sound, Dfs, Unburied, Leaves, Run, TrimTo, AcceptedIds;
    var s := Run(EMPTY, ops);
    TrimToReaches(s, maxSize);
    forall l ensures l in Leaves(s.tree, []) <==> l in AcceptedIds(NEW_CLOCK, ops) {
      RunLeaves(EMPTY, ops, l);
    }
    UnburiedSame(Dfs(s.tree), Leaves(s.tree, []), AcceptedIds(NEW_CLOCK, ops));
  }

  /** In a stream in byte order of which no ID extends another, trimming by size leaves the last entries. */
  lemma TrimmedToSize(s: State, maxSize: int)
    requires Ordered(s) && PrefixFree(Leaves(s.tree, []))
    ensures var es := Dfs(s.tree);
      Dfs(TrimTo(s, maxSize).tree) == if |es| <= maxSize then es else es[|es| - (if maxSize < 0 then 0 else maxSize)..]
  {
    hide Dfs, Leaves, Shape, Less, PrefixFree, TrimSize, SortedTree;
    PrefixFreeLeaves(s.tree, []);
    TrimSizeDropsFirst(s.tree, [], Surplus(|Dfs(s.tree)|, maxSize));
  }

  /** Where the entries below an ID end in a stream in byte order. */
  lemma {:induction false} KeptSplits(es: seq<Entry>, minId: bytes) returns (m: nat)
    requires Increasing(es)
    ensures m <= |es| && Kept(es, minId) == es[m..]
    ensures (forall i :: 0 <= i < m ==> Less(es[i].id, minId)) && forall i :: m <= i < |es| ==> !Less(es[i].id, minId)
  {
    hide Less;
    if es == [] {
      m := 0;
    } else if Less(es[0].id, minId) {
      m := KeptSplits(es[1..], minId);
      assert es[1..][m..] == es[m + 1..];
      m := m + 1;
    } else {
      m := 0;
      KeptOfIncreasing(es, minId, 0);
      forall i | 0 <= i < |es| ensures !Less(es[i].id, minId) {
        if i > 0 {
          AtMostLessBack(minId, es[0].id, es[i].id);
        }
      }
    }
  }

  /** And trimming by ID leaves exactly the entries from the first one on that is not below it. */
  lemma TrimmedBelowId(s: State, minId: bytes)
    requires Ordered(s) && PrefixFree(Leaves(s.tree, []))
    ensures var es := Dfs(s.tree);
      exists m :: 0 <= m <= |es| && Dfs(TrimBelow(s, minId).tree) == es[m..]
        && (forall i :: 0 <= i < m ==> Less(es[i].id, minId)) && forall i :: m <= i < |es| ==> !Less(es[i].id, minId)
  {
    hide Dfs, Leaves, Shape, Less, PrefixFree, TrimMin, SortedTree, Kept;
    PrefixFreeLeaves(s.tree, []);
    TrimMinKeepsRest(s.tree, [], minId);
    var m := KeptSplits(Dfs(s.tree), minId);
  }

  // The stream that holds "1-1" and then "1-10": the second lies below the first.
  const SHORT: bytes := [49, 45, 49]
  const LONG: bytes := [49, 45, 49, 48]
  const LOWER := Tree([48], [], true, [Entry(LONG, [])])
  const UPPER := Tree(SHORT, [Slot(48, LOWER)], true, [Entry(SHORT, [])])
  const BURIED := Tree([], [Slot(49, UPPER)], false, [])

  /** An ID that extends another is out of reach: trimming to nothing leaves it. */
  lemma BuriedEntryStays()
    ensures Put(Put(EMPTY, SHORT, []), LONG, []).tree == BURIED
    ensures Dfs(BURIED) == [Entry(SHORT, []), Entry(LONG, [])] && Dfs(TrimSize(BURIED, 2).0) == [Entry(LONG, [])]
  {
    InsertShort();
    InsertLong();
    hide Insert;
    var bare := UPPER.(entries := []);
    assert Dfs(LOWER) == [Entry(LONG, [])];
    OnlyKid(48, LOWER);
    DfsNode(UPPER);
    DfsNode(bare);
    OnlyKid(49, UPPER);
    OnlyKid(49, bare);
    assert UPPER.entries[1..] == [];
    assert TrimSize(UPPER, 2) == (bare, 1);
    TrimOnlyKid();
  }

  lemma OnlyKid(key: byte, t: Tree)
    ensures DfsKids([Slot(key, t)]) == Dfs(t)
  {
    hide Dfs;
    assert [Slot(key, t)][1..] == [];
    assert DfsKids([]) == [];
  }

  lemma TrimOnlyKid()
    ensures var bare := UPPER.(entries := []);
      TrimSize(UPPER, 2) == (bare, 1) ==> TrimSize(BURIED, 2).0 == Tree([], [Slot(49, bare)], false, [])
  {
    assert BURIED.kids[1..] == [];
    assert TrimSizeKids(BURIED.kids, 2).0 == [Slot(49, TrimSize(UPPER, 2).0)] + TrimSizeKids([], TrimSize(UPPER, 2).1).0;
  }

  lemma InsertShort()
    ensures Insert(EMPTY_TREE, SHORT, Entry(SHORT, [])) == Tree([], [Slot(49, Tree(SHORT, [], true, [Entry(SHORT, [])]))], false, [])
  {
    assert SHORT[0..] == SHORT && Find<Tree>([], 49) == None;
  }

  lemma InsertLong()
    ensures Insert(Tree([], [Slot(49, Tree(SHORT, [], true, [Entry(SHORT, [])]))], false, []), LONG, Entry(LONG, [])) == BURIED
  {
    var leaf := Tree(SHORT, [], true, [Entry(SHORT, [])]);
    var one := Tree([], [Slot(49, leaf)], false, []);
    assert Insert(leaf, LONG, Entry(LONG, [])) == UPPER by {
      assert LONG[..3] == SHORT && CommonPrefix(SHORT, LONG) == 3 && LONG[3..] == [48];
      assert Find<Tree>([], 48) == None;
    }
    assert CommonPrefix([], LONG) == 0 && LONG[0..] == LONG && Find(one.kids, 49) == Some(0);
  }

  // ---- A generated ID below the last one ------------------------------------------------------

  // "1-9", "1-*" and "1-10".
  const FIRST_NINE: bytes := [49, 45, 57]
  const FIRST_STAR: bytes := [49, 45, 42]
  const FIRST_TEN: bytes := [49, 45, 49, 48]

  /** A range whose bounds are the wrong way round in byte order holds nothing. */
  lemma {:induction false} BackwardRange(es: seq<Entry>, a: bytes, b: bytes)
    requires Less(b, a)
    ensures Within(es, Bounds(a, b, true, true)) == []
  {
    if es != [] {
      BackwardRange(es[1..], a, b);
      if AtMost(a, es[0].id) && AtMost(es[0].id, b) {
        AtMostLess(es[0].id, b, a);
      }
    }
  }

  lemma NineThenTen()
    ensures AddId(NEW_CLOCK, FIRST_NINE, 0) == (Clock(FIRST_NINE, 1, 9), Some(FIRST_NINE))
    ensures AddId(Clock(FIRST_NINE, 1, 9), FIRST_STAR, 0).1 == Some(FIRST_TEN) && Less(FIRST_TEN, FIRST_NINE)
  {
    NineRead();
    TenGenerated();
  }

  lemma NineRead()
    ensures AddId(NEW_CLOCK, FIRST_NINE, 0) == (Clock(FIRST_NINE, 1, 9), Some(FIRST_NINE))
  {
    SplitOfTwo([49], [57]);
    assert [49] + [45] + [57] == FIRST_NINE;
    assert Value([49]) == 1 && Value([57]) == 9;
  }

  lemma TenGenerated()
    ensures AddId(Clock(FIRST_NINE, 1, 9), FIRST_STAR, 0).1 == Some(FIRST_TEN)
  {
    SplitOfTwo([49], [42]);
    assert [49] + [45] + [42] == FIRST_STAR;
    assert Value([49]) == 1;
    TenPrinted();
    hide Digits, Format, UpdateLast;
  }

  lemma TenPrinted()
    ensures FormatId(1, 10) == FIRST_TEN
  {
    assert Digits(10) == Digits(1) + [48] && Digits(1) == [49] && Digits(0) == [48];
  }

  /** "1-9" and then "1-*": the generated "1-10" is below the last ID, both entries are stored, and the range
      from the first to the second is empty. */
  lemma GeneratedBelowLast()
    ensures Sound(EMPTY)
    ensures var ops := [Add(FIRST_NINE, [], 0), Add(FIRST_STAR, [], 0)];
      var es := Dfs(Run(EMPTY, ops).tree);
      && AcceptedIds(NEW_CLOCK, ops) == [FIRST_NINE, FIRST_TEN] && !AllInByteOrder(NEW_CLOCK, ops)
      && multiset(es) == multiset{Entry(FIRST_NINE, []), Entry(FIRST_TEN, [])}
      && Within(es, BoundsOf(FIRST_NINE, FIRST_TEN)) == []
  {
    EmptyOrdered();
    NineThenTen();
    NineThenTenAccepted();
    NineThenTenStored();
    hide *;
    var ops := [Add(FIRST_NINE, [], 0), Add(FIRST_STAR, [], 0)];
    BackwardRange(Dfs(Run(EMPTY, ops).tree), FIRST_NINE, FIRST_TEN);
    NotSpecial();
  }

  lemma NotSpecial()
    ensures BoundsOf(FIRST_NINE, FIRST_TEN) == Bounds(FIRST_NINE, FIRST_TEN, true, true)
  {
  }

  lemma NineThenTenAccepted()
    ensures var ops := [Add(FIRST_NINE, [], 0), Add(FIRST_STAR, [], 0)];
      AcceptedIds(NEW_CLOCK, ops) == [FIRST_NINE, FIRST_TEN] && !AllInByteOrder(NEW_CLOCK, ops)
  {
    var c1 := Clock(FIRST_NINE, 1, 9);
    var op1, op2 := Add(FIRST_NINE, [], 0), Add(FIRST_STAR, [], 0);
    NineThenTen();
    LessAsymmetric(FIRST_TEN, FIRST_NINE);
    hide AddId, Less;
    assert [op1, op2][1..] == [op2] && [op2][1..] == [];
    assert !InByteOrder(c1, op2) && NextClock(NEW_CLOCK, op1) == c1;
    assert AcceptedIds(NextClock(c1, op2), []) == [];
    assert AcceptedIds(c1, [op2]) == [FIRST_TEN] + [];
    assert AcceptedIds(NEW_CLOCK, [op1, op2]) == [FIRST_NINE] + [FIRST_TEN];
  }

  lemma NineThenTenStored()
    ensures Sound(EMPTY)
    ensures multiset(Dfs(Run(EMPTY, [Add(FIRST_NINE, [], 0), Add(FIRST_STAR, [], 0)]).tree))
         == multiset{Entry(FIRST_NINE, []), Entry(FIRST_TEN, [])}
  {
    EmptyOrdered();
    EmptyIsFlat();
    NineThenTen();
    var op1, op2 := Add(FIRST_NINE, [], 0), Add(FIRST_STAR, [], 0);
    hide Step, Dfs, AddId, Sound;
    assert Dfs(EMPTY.tree) == [];
    StepAdds(EMPTY, op1);
    StepAdds(Step(EMPTY, op1), op2);
    RunTwo(EMPTY, op1, op2);
  }

  lemma RunTwo(s: State, op1: Op, op2: Op)
    requires Sound(s)
    ensures Run(s, [op1, op2]) == Step(Step(s, op1), op2)
  {
    hide Step, Sound;
    assert [op1, op2][1..] == [op2] && [op2][1..] == [];
    assert Run(Step(s, op1), [op2]) == Run(Step(Step(s, op1), op2), []);
  }

  lemma StepAdds(s: State, op: Op)
    requires Sound(s) && op.Add?
    ensures Step(s, op).clock == NextClock(s.clock, op)
    ensures var id := Added(s.clock, op);
      multiset(Dfs(Step(s, op).tree)) == multiset(Dfs(s.tree)) + if id.Some? then multiset{Entry(id.value, op.fields)} else multiset{}
  {
    AddEntryIsAddId(s, op.id, op.fields, op.now);
    hide Dfs, Resolve, UpdateLast, Insert, Less, Shape, Keyed, Leaves;
  }
}
