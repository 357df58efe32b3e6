/** When the byte order of a stream is also the order of its additions: an exact condition for any run, and
    one for generated IDs that can be checked before the addition. */
module StreamOrder {
  import opened Bytes
  import opened Decimal
  import opened Slots
  import opened RadixSpec
  import opened RadixOrder
  import opened RadixLeaves
  import opened StreamIds
  import opened StreamRuns

  // ---- The leaves of a sorted tree ------------------------------------------------------------

  predicate IncreasingIds(ids: seq<bytes>) {
    forall i, j :: 0 <= i < j < |ids| ==> Less(ids[i], ids[j])
  }

  lemma JoinIncreasing(a: seq<bytes>, b: seq<bytes>)
    requires IncreasingIds(a) && IncreasingIds(b) && forall x, y :: x in a && y in b ==> Less(x, y)
    ensures IncreasingIds(a + b)
  {
    hide Less;
  }

  /** A leaf below a child continues the path with the child's key. */
  lemma StartsWithKey(kid: Slot<Tree>, path: bytes, l: bytes)
    requires ShapeKid(kid, path) && LeafOf(kid, path, l)
    ensures |path| < |l| && l[..|path|] == path && l[|path|] == kid.key
  {
    var below := path + kid.child.prefix;
    LeavesContinue(kid.child, below, l);
    hide Leaves, Shape;
    assert l[..|path|] == l[..|below|][..|path|];
    assert l[|path|] == l[..|below|][|path|];
  }

  lemma KeysDecide(path: bytes, l: bytes, x: bytes)
    requires |path| < |l| && |path| < |x| && l[..|path|] == path == x[..|path|] && l[|path|] < x[|path|]
    ensures Less(l, x)
  {
    assert l == path + l[|path|..] && x == path + x[|path|..];
    LessCommonPrefix(path, l[|path|..], x[|path|..]);
  }

  /** The IDs of a sorted tree come in byte order. */
  lemma {:induction false} LeavesIncrease(t: Tree, path: bytes)
    requires Shape(t, path) && SortedTree(t)
    ensures IncreasingIds(Leaves(t, path))
    decreases t, 1
  {
    hide Leaves, Less;
    LeavesNode(t, path);
    LeavesKidsIncrease(t.kids, path);
    if t.isLeaf {
      forall y | y in LeavesKids(t.kids, path) ensures Less(path, y) {
        LeavesKidsMembers(t.kids, path, y);
        var i :| 0 <= i < |t.kids| && LeafOf(t.kids[i], path, y);
        StartsWithKey(t.kids[i], path, y);
        Longer(path, y);
      }
      JoinIncreasing([path], LeavesKids(t.kids, path));
    } else {
      assert [] + LeavesKids(t.kids, path) == LeavesKids(t.kids, path);
    }
  }

  lemma Longer(path: bytes, y: bytes)
    requires |path| < |y| && y[..|path|] == path
    ensures Less(path, y)
  {
    assert y == path + y[|path|..] && path == path + [];
    LessCommonPrefix(path, [], y[|path|..]);
  }

  lemma {:induction false} LeavesKidsIncrease(kids: seq<Slot<Tree>>, path: bytes)
    requires IncreasingKeys(kids)
    requires forall i :: 0 <= i < |kids| ==> ShapeKid(kids[i], path) && SortedTree(kids[i].child)
    ensures IncreasingIds(LeavesKids(kids, path))
    decreases kids, 0
  {
    hide Leaves, Less;
    if kids != [] {
      var kid := kids[0];
      assert kid in kids && kid.child < kid && ShapeKid(kid, path);
      LeavesIncrease(kid.child, path + kid.child.prefix);
      LeavesKidsIncrease(kids[1..], path);
      forall x, y | x in Leaves(kid.child, path + kid.child.prefix) && y in LeavesKids(kids[1..], path) ensures Less(x, y) {
        LeavesKidsMembers(kids[1..], path, y);
        var i :| 0 <= i < |kids[1..]| && LeafOf(kids[1..][i], path, y);
        assert kids[1..][i] == kids[i + 1];
        assert LeafOf(kid, path, x);
        StartsWithKey(kid, path, x);
        StartsWithKey(kids[i + 1], path, y);
        KeysDecide(path, x, y);
      }
      JoinIncreasing(Leaves(kid.child, path + kid.child.prefix), LeavesKids(kids[1..], path));
    }
  }

  // ---- The exact condition for any run --------------------------------------------------------

  lemma NextLast(c: Clock, op: Op)
    ensures var id := Added(c, op);
      NextClock(c, op).lastId == if id.Some? && Less(c.lastId, id.value) then id.value else c.lastId
  {
    if op.Add? {
      ResolveKeepsLast(c, op.id, op.now);
    }
    hide Less, SplitDash, ParseInt, ParseIntOrNearest, Resolve;
  }

  /** The accepted IDs come one after the other, all after `last`. */
  predicate RisesFrom(last: bytes, ids: seq<bytes>) {
    IncreasingIds(ids) && forall i :: 0 <= i < |ids| ==> Less(last, ids[i])
  }

  lemma RisesCons(last: bytes, id: bytes, ids: seq<bytes>)
    ensures RisesFrom(last, [id] + ids) <==> Less(last, id) && RisesFrom(id, ids)
  {
    hide Less;
    var all := [id] + ids;
    if Less(last, id) && RisesFrom(id, ids) {
      forall i | 0 <= i < |ids| ensures Less(last, ids[i]) {
        LessTransitive(last, id, ids[i]);
      }
    }
    if RisesFrom(last, all) {
      assert all[0] == id && all[1..] == ids;
      forall i | 0 <= i < |ids| ensures Less(id, ids[i]) {
        assert all[i + 1] == ids[i];
      }
      forall i, j | 0 <= i < j < |ids| ensures Less(ids[i], ids[j]) {
        assert all[i + 1] == ids[i] && all[j + 1] == ids[j];
      }
    }
  }

  lemma {:induction false} RunRises(c: Clock, ops: seq<Op>)
    ensures AllInByteOrder(c, ops) <==> RisesFrom(c.lastId, AcceptedIds(c, ops))
    decreases |ops|
  {
    if ops != [] {
      var id, c' := Added(c, ops[0]), NextClock(c, ops[0]);
      NextLast(c, ops[0]);
      hide Added, NextClock, Less, RisesFrom;
      RunRises(c', ops[1..]);
      if id.Some? {
        RisesCons(c.lastId, id.value, AcceptedIds(c', ops[1..]));
      } else {
        assert [] + AcceptedIds(c', ops[1..]) == AcceptedIds(c', ops[1..]);
      }
    } else {
      assert RisesFrom(c.lastId, []);
    }
  }

  /** After any run from the empty stream, the tree is sorted and its IDs are the accepted ones in the order of
      their acceptance, if and only if each accepted ID was above the last one in byte order. */
  lemma OrderedIff(ops: seq<Op>)
    ensures Sound(EMPTY)
    ensures var t := Run(EMPTY, ops).tree;
      SortedTree(t) && Leaves(t, []) == AcceptedIds(NEW_CLOCK, ops) <==> AllInByteOrder(NEW_CLOCK, ops)
  {
    EmptyOrdered();
    if AllInByteOrder(NEW_CLOCK, ops) {
      hide *;
      StreamFromEmpty(ops);
      SortedOf(Run(EMPTY, ops));
    } else {
      hide *;
      var s := Run(EMPTY, ops);
      SoundOf(s);
      RunRises(NEW_CLOCK, ops);
      if SortedTree(s.tree) && Leaves(s.tree, []) == AcceptedIds(NEW_CLOCK, ops) {
        LeavesIncrease(s.tree, []);
        FromNothing(NEW_CLOCK, ops);
      }
    }
  }

  lemma SortedOf(s: State)
    requires Ordered(s)
    ensures SortedTree(s.tree)
  {
    hide SortedTree;
  }

  lemma SoundOf(s: State)
    requires Sound(s)
    ensures Shape(s.tree, [])
  {
    hide Shape;
  }

  lemma {:induction false} AcceptedNotEmpty(c: Clock, ops: seq<Op>)
    ensures forall i :: 0 <= i < |AcceptedIds(c, ops)| ==> AcceptedIds(c, ops)[i] != []
    decreases |ops|
  {
    if ops != [] {
      AddedNotEmpty(c, ops[0]);
      hide Added, NextClock;
      AcceptedNotEmpty(NextClock(c, ops[0]), ops[1..]);
    }
  }

  lemma AddedNotEmpty(c: Clock, op: Op)
    ensures Added(c, op).Some? ==> Added(c, op).value != []
  {
    assert SplitDash([]) == [[]];
    hide ParseInt, UpdateLast, Starred;
  }

  lemma FromNothing(c: Clock, ops: seq<Op>)
    requires c == NEW_CLOCK && IncreasingIds(AcceptedIds(c, ops))
    ensures RisesFrom([], AcceptedIds(c, ops)) && c.lastId == []
  {
    AcceptedNotEmpty(c, ops);
    hide AcceptedIds, IncreasingIds;
  }

  // ---- Printed numbers in byte order ----------------------------------------------------------

  lemma {:induction false} LessAppend(a: bytes, b: bytes, x: bytes, y: bytes)
    requires Less(a, b) && |a| == |b|
    ensures Less(a + x, b + y)
  {
    if a[0] == b[0] {
      assert (a + x)[1..] == a[1..] + x && (b + y)[1..] == b[1..] + y;
      LessAppend(a[1..], b[1..], x, y);
    }
  }

  predicate SameWidth(m: nat, n: nat) {
    |Digits(m)| == |Digits(n)|
  }

  /** Numbers of one width are in byte order. */
  lemma {:induction false} WidthOrder(m: nat, n: nat)
    requires m < n && SameWidth(m, n)
    ensures Less(Digits(m), Digits(n))
  {
    if n >= 10 {
      var a, b := Digits(m / 10), Digits(n / 10);
      assert m >= 10;
      if m / 10 < n / 10 {
        WidthOrder(m / 10, n / 10);
        LessAppend(a, b, [48 + m % 10], [48 + n % 10]);
      } else {
        LessCommonPrefix(a, [48 + m % 10], [48 + n % 10]);
      }
    }
  }

  /** Where the width grows, a 9 goes before a 1. */
  lemma {:induction false} CarryStarts(n: nat)
    requires !SameWidth(n, n + 1)
    ensures Digits(n)[0] == 57 && Digits(n + 1)[0] == 49
  {
    if n >= 10 {
      var high := (n + 1) / 10;
      assert high == n / 10 || high == n / 10 + 1;
      CarryStarts(n / 10);
    } else {
      assert n == 9;
      assert Digits(10) == Digits(1) + [48] && Digits(1) == [49];
    }
  }

  /** A number and its successor are in byte order if and only if they have one width. */
  lemma SuccessorOrder(n: nat)
    ensures Less(Digits(n), Digits(n + 1)) <==> SameWidth(n, n + 1)
  {
    if SameWidth(n, n + 1) {
      WidthOrder(n, n + 1);
    } else {
      CarryStarts(n);
    }
  }

  /** The dash is below every digit, so printed pairs are compared number by number. */
  lemma {:induction false} DashOrder(a: bytes, a': bytes, b: bytes, b': bytes)
    requires AllDigits(a) && AllDigits(a')
    ensures Less(a + [MINUS] + b, a' + [MINUS] + b') <==> Less(a, a') || (a == a' && Less(b, b'))
    decreases |a|
  {
    var x, y := a + [MINUS] + b, a' + [MINUS] + b';
    if a == [] && a' == [] {
      assert x == [MINUS] + b && y == [MINUS] + b';
      LessCommonPrefix([MINUS], b, b');
    } else if a != [] && a' != [] {
      assert x[1..] == a[1..] + [MINUS] + b && y[1..] == a'[1..] + [MINUS] + b';
      DashOrder(a[1..], a'[1..], b, b');
      assert a == [a[0]] + a[1..] && a' == [a'[0]] + a'[1..];
    }
  }

  lemma PairOrder(t: nat, s: nat, t': nat, s': nat)
    ensures Less(FormatId(t, s), FormatId(t', s')) <==>
      Less(Digits(t), Digits(t')) || (t == t' && Less(Digits(s), Digits(s')))
  {
    DashOrder(Digits(t), Digits(t'), Digits(s), Digits(s'));
    if Digits(t) == Digits(t') {
      FormatInjective(t, t');
    }
    hide Less, Digits;
  }

  /** Pairs that grow, in the same widths, are printed in byte order. */
  lemma SameWidths(t: nat, s: nat, t': nat, s': nat)
    requires Before((t, s), (t', s')) && SameWidth(t, t') && SameWidth(s, s')
    ensures Less(FormatId(t, s), FormatId(t', s'))
  {
    PairOrder(t, s, t', s');
    hide Less, Digits;
    if t < t' {
      WidthOrder(t, t');
    } else {
      WidthOrder(s, s');
    }
  }

  // ---- Generated IDs --------------------------------------------------------------------------

  /** The last ID is the clock's pair as it is printed; or nothing has been added yet. */
  predicate InPrint(c: Clock) {
    Running(c) && (c == NEW_CLOCK || c.lastId == FormatId(c.timestamp, c.sequence))
  }

  /** A guard that can be checked before the addition: a later timestamp must be printed above the clock's, and
      the next sequence number must not need another digit. */
  predicate KeepsByteOrder(c: Clock, op: Op) {
    op.Add? && Starred(op.id) && c != NEW_CLOCK && 0 <= c.timestamp && 0 <= c.sequence ==>
      match Wanted(op.id, op.now)
      case None => true
      case Some(w) =>
        if w > c.timestamp then Less(Digits(c.timestamp), Digits(w))
        else c.sequence < MAX_INT64 && SameWidth(c.sequence, c.sequence + 1)
  }

  /** An explicit ID is given in the printed form of its pair, and the time of day fits 64 bits. */
  predicate IsPlain(op: Op) {
    op.Add? ==>
      && Int64(op.now)
      && (!Starred(op.id) && Validate(op.id).Some? ==>
        var full := Validate(op.id).value; full == FormatId(PairOf(full).0, PairOf(full).1))
  }

  lemma GuardLater(c: Clock, w: int)
    requires InPrint(c) && c != NEW_CLOCK && w > c.timestamp
    ensures Less(c.lastId, FormatId(w, 0)) <==> Less(Digits(c.timestamp), Digits(w))
  {
    PairOrder(c.timestamp, c.sequence, w, 0);
    hide Less, Digits;
  }

  lemma GuardNext(c: Clock)
    requires InPrint(c) && c != NEW_CLOCK
    ensures Less(c.lastId, FormatId(c.timestamp, Successor(c.sequence))) <==>
      c.sequence < MAX_INT64 && SameWidth(c.sequence, c.sequence + 1)
  {
    if c.sequence < MAX_INT64 {
      PairOrder(c.timestamp, c.sequence, c.timestamp, c.sequence + 1);
      LessIrreflexive(Digits(c.timestamp));
      SuccessorOrder(c.sequence);
    } else {
      DashOrder(Digits(c.timestamp), Digits(c.timestamp), Digits(c.sequence), Format(MIN_INT64));
      LessIrreflexive(Digits(c.timestamp));
      assert Digits(c.sequence)[0] >= 48 && Format(MIN_INT64)[0] == MINUS;
    }
    hide Digits;
  }

  /** The guard is exact: a generated ID is above the last one in byte order if and only if it was met. */
  lemma StarredGuard(c: Clock, op: Op)
    requires InPrint(c) && op.Add? && Starred(op.id)
    ensures InByteOrder(c, op) <==> KeepsByteOrder(c, op)
  {
    var w := Wanted(op.id, op.now);
    if w.Some? {
      if c == NEW_CLOCK {
        AddedNotEmpty(c, op);
      } else if w.value > c.timestamp {
        GuardLater(c, w.value);
      } else {
        GuardNext(c);
      }
    }
    hide Starred, Wanted, UpdateLast, FormatId, Digits, SplitDash;
  }

  /** And then the clock is in print again. */
  lemma StarredInPrint(c: Clock, op: Op)
    requires InPrint(c) && op.Add? && Starred(op.id) && Int64(op.now) && InByteOrder(c, op) && KeepsByteOrder(c, op)
    ensures InPrint(NextClock(c, op))
  {
    var w := Wanted(op.id, op.now);
    if w.Some? {
      WantedInt64(op.id, op.now);
      var t := Tick(c, w.value);
      UpdateAfterTick(c, t.timestamp, t.sequence);
      assert t == Clock(c.lastId, t.timestamp, t.sequence);
      NextLast(c, op);
    }
    hide Starred, Wanted, Less, FormatId, Digits, SplitDash, ParseInt, UpdateLast;
  }

  lemma WantedInt64(id: bytes, now: int)
    requires Int64(now) && Wanted(id, now).Some?
    ensures Int64(Wanted(id, now).value)
  {
    hide SplitDash;
  }

  lemma ExplicitInPrint(c: Clock, op: Op)
    requires InPrint(c) && op.Add? && !Starred(op.id) && IsPlain(op)
    ensures InPrint(NextClock(c, op))
  {
    var valid := Validate(op.id);
    if valid.Some? && IsLargest(c, valid.value) {
      assert op.id != [PLUS] && op.id != [MINUS] by {
        assert |FormatId(PairOf(valid.value).0, PairOf(valid.value).1)| >= 3;
        hide FormatId;
      }
      ExplicitSetsClock(c, op.id, op.now);
    }
    hide Starred, Validate, UpdateLast, FormatId, Less, PairOf;
  }

  lemma GuardIff(c: Clock, op: Op)
    requires InPrint(c) && IsPlain(op)
    ensures InByteOrder(c, op) <==> KeepsByteOrder(c, op)
    ensures InByteOrder(c, op) ==> InPrint(NextClock(c, op))
  {
    if op.Add? && Starred(op.id) {
      StarredGuard(c, op);
      if InByteOrder(c, op) {
        StarredInPrint(c, op);
      }
    } else {
      ExplicitInByteOrder(c, op);
      if op.Add? {
        ExplicitInPrint(c, op);
      }
    }
    hide Starred, AddId, InPrint;
  }

  /** Every addition meets the guard at its turn. */
  predicate AllKeepByteOrder(c: Clock, ops: seq<Op>)
    decreases |ops|
  {
    ops == [] || (KeepsByteOrder(c, ops[0]) && AllKeepByteOrder(NextClock(c, ops[0]), ops[1..]))
  }

  lemma {:induction false} GuardsIff(c: Clock, ops: seq<Op>)
    requires InPrint(c) && forall i :: 0 <= i < |ops| ==> IsPlain(ops[i])
    ensures AllInByteOrder(c, ops) <==> AllKeepByteOrder(c, ops)
    decreases |ops|
  {
    hide InPrint, IsPlain, KeepsByteOrder, InByteOrder, NextClock;
    if ops != [] {
      GuardIff(c, ops[0]);
      if InByteOrder(c, ops[0]) {
        GuardsIff(NextClock(c, ops[0]), ops[1..]);
      }
    }
  }

  /** After any run of generated and explicit additions and trims from the empty stream, with explicit IDs given as
      their pairs are printed: the tree is sorted and holds the accepted IDs in the order of their acceptance if
      and only if every generated ID met the guard before its addition. */
  lemma GuardedRunOrdered(ops: seq<Op>)
    requires forall i :: 0 <= i < |ops| ==> IsPlain(ops[i])
    ensures Sound(EMPTY)
    ensures var t := Run(EMPTY, ops).tree;
      SortedTree(t) && Leaves(t, []) == AcceptedIds(NEW_CLOCK, ops) <==> AllKeepByteOrder(NEW_CLOCK, ops)
  {
    hide *;
    OrderedIff(ops);
    NewInPrint();
    GuardsIff(NEW_CLOCK, ops);
  }

  lemma NewInPrint()
    ensures InPrint(NEW_CLOCK)
  {
  }

  // ---- Runs of one width ----------------------------------------------------------------------

  /** An ID with a star that asks for a timestamp of d digits. */
  predicate AsksWidth(op: Op, d: nat) {
    op.Add? ==>
      && Starred(op.id) && Int64(op.now)
      && (Wanted(op.id, op.now).Some? ==> Wanted(op.id, op.now).value > 0 && |Digits(Wanted(op.id, op.now).value)| == d)
  }

  /** The clock stands at a timestamp of d digits, and no more than n additions were made at it. */
  predicate StandsWithin(c: Clock, d: nat, n: nat) {
    InPrint(c) && (c == NEW_CLOCK || (|Digits(c.timestamp)| == d && c.sequence < n))
  }

  /** Up to ten additions of generated IDs, at timestamps of one width, keep the byte order, however many of them
      fall into one millisecond and whatever way the time of day goes. */
  lemma {:induction false} ShortRunsOfOneWidth(c: Clock, ops: seq<Op>, d: nat, n: nat)
    requires StandsWithin(c, d, n) && n + |ops| <= 10
    requires forall i :: 0 <= i < |ops| ==> AsksWidth(ops[i], d)
    ensures AllKeepByteOrder(c, ops)
    decreases |ops|
  {
    hide AsksWidth, StandsWithin, KeepsByteOrder, NextClock;
    if ops != [] {
      WithinOneMore(c, ops[0], d, n);
      ShortRunsOfOneWidth(NextClock(c, ops[0]), ops[1..], d, n + 1);
    }
  }

  lemma WithinOneMore(c: Clock, op: Op, d: nat, n: nat)
    requires StandsWithin(c, d, n) && n < 10 && AsksWidth(op, d)
    ensures KeepsByteOrder(c, op) && StandsWithin(NextClock(c, op), d, n + 1)
  {
    if op.Add? {
      var w := Wanted(op.id, op.now);
      GuardHolds(c, op, d);
      StarredGuard(c, op);
      StarredInPrint(c, op);
      StarredClock(c, op);
    }
    hide Starred, Wanted, UpdateLast, FormatId, SplitDash, InByteOrder, KeepsByteOrder, Digits;
  }

  lemma GuardHolds(c: Clock, op: Op, d: nat)
    requires StandsWithin(c, d, 9) && op.Add? && AsksWidth(op, d)
    ensures KeepsByteOrder(c, op)
  {
    var w := Wanted(op.id, op.now);
    if w.Some? && c != NEW_CLOCK && w.value > c.timestamp {
      WidthOrder(c.timestamp, w.value);
    }
    hide Starred, Wanted;
  }

  /** The clock after a generated ID, if the guard was met. */
  lemma StarredClock(c: Clock, op: Op)
    requires InPrint(c) && op.Add? && Starred(op.id) && Int64(op.now) && InByteOrder(c, op) && KeepsByteOrder(c, op)
    ensures var w, c' := Wanted(op.id, op.now), NextClock(c, op);
      if w.None? then c' == c
      else if w.value > c.timestamp then c'.timestamp == w.value && c'.sequence == 0
      else c'.timestamp == c.timestamp && c'.sequence == c.sequence + 1
  {
    var w := Wanted(op.id, op.now);
    if w.Some? {
      WantedInt64(op.id, op.now);
      var t := Tick(c, w.value);
      UpdateAfterTick(c, t.timestamp, t.sequence);
      assert t == Clock(c.lastId, t.timestamp, t.sequence);
    }
    hide Starred, Wanted, Less, FormatId, Digits, SplitDash, ParseInt, UpdateLast;
  }

  /** The additions ask for timestamps after t, each later than the one before. */
  predicate AskLater(t: int, ops: seq<Op>)
    decreases |ops|
  {
    ops == [] ||
    if ops[0].Add? && Wanted(ops[0].id, ops[0].now).Some? then
      var w := Wanted(ops[0].id, ops[0].now).value; w > t && AskLater(w, ops[1..])
    else AskLater(t, ops[1..])
  }

  /** So do any number of them at timestamps of one width, each later than the one before. */
  lemma {:induction false} LaterRunsOfOneWidth(c: Clock, ops: seq<Op>, d: nat)
    requires StandsWithin(c, d, 1) && AskLater(c.timestamp, ops)
    requires forall i :: 0 <= i < |ops| ==> AsksWidth(ops[i], d)
    ensures AllKeepByteOrder(c, ops)
    decreases |ops|
  {
    if ops != [] {
      LaterOne(c, ops[0], d);
      hide AsksWidth, StandsWithin, KeepsByteOrder, NextClock, Wanted;
      LaterRunsOfOneWidth(NextClock(c, ops[0]), ops[1..], d);
    }
  }

  lemma LaterOne(c: Clock, op: Op, d: nat)
    requires StandsWithin(c, d, 1) && AsksWidth(op, d)
    requires op.Add? && Wanted(op.id, op.now).Some? ==> Wanted(op.id, op.now).value > c.timestamp
    ensures KeepsByteOrder(c, op) && StandsWithin(NextClock(c, op), d, 1)
    ensures NextClock(c, op).timestamp ==
      if op.Add? && Wanted(op.id, op.now).Some? then Wanted(op.id, op.now).value else c.timestamp
  {
    if op.Add? {
      GuardHolds(c, op, d);
      StarredGuard(c, op);
      StarredInPrint(c, op);
      StarredClock(c, op);
    }
    hide Starred, Wanted, UpdateLast, FormatId, SplitDash, InByteOrder, KeepsByteOrder, Digits;
  }
}
