/** Where the guarantees of replication end: the fixed charges, how far acknowledgements lag, and a
    replica that is counted for a write it never received. */
module ReplicationLimits {
  import opened Bytes
  import opened RdbFormat
  import opened Commands
  import opened Replication
  import opened ReplicationCharges
  import opened ReplicationSafety
  import opened ReplicationConvergence
  import Resp
  import Framing
  import ReplicaWire

  /** A replica counts from 0 even if it joined late, misses two bytes of every write that ends early,
      never sees the pings of others, and answers GETACK before it counts it: its acknowledgement lags behind
      the master by all of that, and is ahead by what it charged for WAITs of its own. */
  lemma AcknowledgementLags(store: Store, es: seq<Event>, r: nat)
    requires r in Run(Init(store), es).m.outlets
    ensures var s := Run(Init(store), es);
      && r in s.remotes
      && (s.m.outlets[r].acked > 0 ==>
        s.m.outlets[r].acked + GETACK_LENGTH + s.m.outlets[r].base + s.m.outlets[r].elsewhere + 2 * EndingEarly(s.remotes[r].executed)
          <= s.m.offset + GETACK_LENGTH * s.remotes[r].own)
  {
    hide Run, Init, EndingEarly, ChargeAll;
    OffsetConservation(store, es, r);
  }

  // ---- A replica that joins between a write and its WAIT --------------------------------------

  // SET a x, and SET b x.
  const FIRST: seq<bytes> := [SET_NAME, [97], [120]]
  const SECOND: seq<bytes> := [SET_NAME, [98], [120]]

  lemma BothModelled()
    ensures Modelled(FIRST) && Modelled(SECOND) && Lower(SET_NAME) == SET_NAME
    ensures Charge(Write(FIRST)) == 27 && Count(Write(SECOND)) == 27 && Charge(Write(SECOND)) == 27
  {
    assert Lower(SET_NAME) == SET_NAME;
    NoOptions(FIRST[1..]);
    NoOptions(SECOND[1..]);
    ShortCharge(FIRST);
    ShortCharge(SECOND);
    TotalOfThree(SET_NAME, [97], [120]);
    TotalOfThree(SET_NAME, [98], [120]);
    assert !Framing.EndsEarly(AsResp(SECOND));
    hide Resp.Raw;
  }

  lemma NoOptions(args: seq<bytes>)
    requires |args| == 2
    ensures Timeless(args) && ParseOptions(args[2..], NO_OPTIONS) == Some(NO_OPTIONS)
  {
  }

  lemma TotalOfThree(a: bytes, b: bytes, c: bytes)
    ensures Total([a, b, c]) == |a| + |b| + |c|
  {
    assert [a, b, c][1..] == [b, c] && [b, c][1..] == [c] && [c][1..] == [];
    assert Total([c]) == |c| + Total([]);
    assert Total([b, c]) == |b| + Total([c]);
  }

  lemma SetExecutes(store: Store, key: bytes, now: nat)
    requires Modelled([SET_NAME, key, [120]])
    ensures Lower(SET_NAME) == SET_NAME && Execute(store, [SET_NAME, key, [120]], now) == (store[key := Str([120], 0)], Done)
  {
    var c := [SET_NAME, key, [120]];
    assert Lower(SET_NAME) == SET_NAME;
    NoOptions(c[1..]);
  }

  lemma HandleSet(m: Master, who: nat, key: bytes)
    requires Modelled([SET_NAME, key, [120]]) && who !in m.sessions
    ensures var c: Command := [SET_NAME, key, [120]];
      Handle(m, who, c, 0) == Propagate(m.(store := m.store[key := Str([120], 0)], sessions := m.sessions[who := NEW_SESSION]), who, c)
  {
    var c: Command := [SET_NAME, key, [120]];
    SetExecutes(m.store, key, 0);
    assert Decide(NO_TX, c) == (NO_TX, [c]) && !Waits(NO_TX, c);
    hide Execute, Propagate, Decide, Waits, ParseOptions;
    var m1 := m.(sessions := m.sessions[who := NEW_SESSION]);
    assert RunOne(m1, who, c, 0, false) == Propagate(m1.(store := m.store[key := Str([120], 0)]), who, c);
    assert [c][1..] == [];
    assert RunAll(m1, who, [c], 0, false) == RunAll(RunOne(m1, who, c, 0, false), who, [], 0, false);
  }

  lemma RunNext(s: State, e: Event, es: seq<Event>)
    ensures Run(s, [e] + es) == Run(Step(s, e), es)
  {
    hide Step;
    assert ([e] + es)[1..] == es;
  }

  const ONE: Store := map[[97] := Str([120], 0)]
  const OTHER: Store := map[[98] := Str([120], 0)]
  const BOTH: Store := map[[97] := Str([120], 0), [98] := Str([120], 0)]

  /** The first write, and then the replica joins. */
  lemma FirstWriteThenJoin()
    requires Modelled(FIRST) && Charge(Write(FIRST)) == 27
    ensures Step(Init(map[]), Receive(0, FIRST, 0)) == State(Master(ONE, 27, map[0 := Session(27, NO_TX)], map[], [Logged(0, FIRST, 27)]), map[], 0)
    ensures Step(State(Master(ONE, 27, map[0 := Session(27, NO_TX)], map[], [Logged(0, FIRST, 27)]), map[], 0), Join(map[])) == Joined()
  {
    HandleSet(Init(map[]).m, 0, [97]);
    hide Handle, Charge;
    assert map[][[97] := Str([120], 0)] == ONE;
    assert [] + [Logged(0, FIRST, 27)] == [Logged(0, FIRST, 27)];
  }

  function Joined(): State
    requires Modelled(FIRST)
  {
    State(Master(ONE, 27, map[0 := Session(27, NO_TX)], map[0 := Outlet(0, [], [], 27, 1, 0)], [Logged(0, FIRST, 27)]),
          map[0 := NewRemote(map[])], 1)
  }

  /** The state in the end, and the one after the second write; both differ from the first in what the
      replica was sent and has taken. */
  function Written(o: Outlet, x: Remote, offset: nat): State
    requires Modelled(FIRST) && Modelled(SECOND)
  {
    State(Master(BOTH, offset, map[0 := Session(27, NO_TX), 1 := Session(54, NO_TX)], map[0 := o], [Logged(0, FIRST, 27), Logged(1, SECOND, 54)]),
          map[0 := x], 1)
  }

  lemma SecondWrite()
    requires Modelled(FIRST) && Modelled(SECOND) && Charge(Write(SECOND)) == 27
    ensures Step(Joined(), Receive(1, SECOND, 0)) ==
      Written(Outlet(0, [Write(SECOND)], [], 27, 1, 0), NewRemote(map[]), 54)
  {
    HandleSet(Joined().m, 1, [98]);
    SecondSent();
    hide Handle, Charge, Propagate, Strings;
  }

  lemma SecondSent()
    requires Modelled(FIRST) && Modelled(SECOND) && Charge(Write(SECOND)) == 27
    ensures var m := Joined().m;
      Propagate(m.(store := m.store[[98] := Str([120], 0)], sessions := m.sessions[1 := NEW_SESSION]), 1, SECOND) ==
        Written(Outlet(0, [Write(SECOND)], [], 27, 1, 0), NewRemote(map[]), 54).m
  {
    hide Charge, Lower, Timeless, ParseOptions;
    assert ONE[[98] := Str([120], 0)] == BOTH;
    assert [] + [Write(SECOND)] == [Write(SECOND)];
    assert [Logged(0, FIRST, 27)] + [Logged(1, SECOND, 54)] == [Logged(0, FIRST, 27), Logged(1, SECOND, 54)];
    var m := Joined().m;
    var m' := Propagate(m.(store := m.store[[98] := Str([120], 0)], sessions := m.sessions[1 := NEW_SESSION]), 1, SECOND);
    assert m'.outlets == map[0 := Outlet(0, [Write(SECOND)], [], 27, 1, 0)];
    assert m'.sessions == map[0 := Session(27, NO_TX), 1 := Session(54, NO_TX)];
  }

  lemma ReplicaTakes()
    requires Modelled(FIRST) && Modelled(SECOND) && Charge(Write(SECOND)) == 27 && Count(Write(SECOND)) == 27
    ensures Step(Written(Outlet(0, [Write(SECOND)], [], 27, 1, 0), NewRemote(map[]), 54), Take(0, 0)) ==
      Written(Outlet(0, [Write(SECOND)], [], 27, 1, 0), Remote(1, 27, 0, OTHER, [SECOND], [], map[], false, 0), 54)
  {
    var o, x := Outlet(0, [Write(SECOND)], [], 27, 1, 0), NewRemote(map[]);
    SetExecutes(map[], [98], 0);
    hide Execute, Charge, Count, Step;
    WrittenTake(o, x, 54);
    assert map[][[98] := Str([120], 0)] == OTHER;
    assert TakeNext(x, Write(SECOND), 0) == Remote(1, 27, 0, OTHER, [SECOND], [], map[], false, 0);
  }

  lemma WrittenCharge(o: Outlet, x: Remote, offset: nat)
    requires Modelled(FIRST) && Modelled(SECOND)
    ensures Step(Written(o, x, offset), GetAckTick) == Written(o.(pending := o.pending + [GetAck]), x, offset + Charge(GetAck))
  {
    hide Charge;
  }

  lemma WrittenSend(o: Outlet, x: Remote, offset: nat)
    requires Modelled(FIRST) && Modelled(SECOND) && |o.pending| == 1
    ensures Step(Written(o, x, offset), Send(0, 0)) == Written(o.(sent := o.sent + o.pending, pending := []), x, offset)
  {
    assert Without(o.pending, 0) == [] && [o.pending[0]] == o.pending;
  }

  lemma WrittenTake(o: Outlet, x: Remote, offset: nat)
    requires Modelled(FIRST) && Modelled(SECOND) && x.taken < |o.sent|
    ensures Step(Written(o, x, offset), Take(0, 0)) == Written(o, TakeNext(x, o.sent[x.taken], 0), offset)
  {
    hide TakeNext;
  }

  lemma WrittenAck(o: Outlet, x: Remote, offset: nat)
    requires Modelled(FIRST) && Modelled(SECOND) && x.acks != []
    ensures Step(Written(o, x, offset), AckArrives(0)) == Written(o.(acked := x.acks[0]), x.(acks := x.acks[1..]), offset)
  {
  }

  /** GETACK is charged, sent, taken and answered, and the answer arrives. */
  function Answering(): seq<Event> {
    [GetAckTick] + ([Send(0, 0)] + ([Take(0, 0)] + ([AckArrives(0)] + [])))
  }

  lemma RunAnswering(s: State, s1: State, s2: State, s3: State, s4: State)
    requires Step(s, GetAckTick) == s1 && Step(s1, Send(0, 0)) == s2 && Step(s2, Take(0, 0)) == s3 && Step(s3, AckArrives(0)) == s4
    ensures Run(s, Answering()) == s4
  {
    hide Step, Run;
    RunNext(s, GetAckTick, [Send(0, 0)] + ([Take(0, 0)] + ([AckArrives(0)] + [])));
    RunNext(s1, Send(0, 0), [Take(0, 0)] + ([AckArrives(0)] + []));
    RunNext(s2, Take(0, 0), [AckArrives(0)] + []);
    RunNext(s3, AckArrives(0), []);
    RunNothing(s4);
  }

  lemma GetAckIsAnswered()
    requires Modelled(FIRST) && Modelled(SECOND)
    ensures var x := Remote(1, 27, 0, OTHER, [SECOND], [], map[], false, 0);
      var s := Written(Outlet(0, [Write(SECOND)], [], 27, 1, 0), x, 54);
      var s' := Run(s, Answering());
      0 in s'.m.outlets && s'.m.outlets[0].acked == 27 && s'.m.sessions == s.m.sessions && s'.m.store == BOTH
      && 0 in s'.remotes && s'.remotes[0].store == OTHER
  {
    var x := Remote(1, 27, 0, OTHER, [SECOND], [], map[], false, 0);
    var o := Outlet(0, [Write(SECOND)], [], 27, 1, 0);
    var o1 := o.(pending := [GetAck]);
    var o2 := o.(sent := [Write(SECOND)] + [GetAck]);
    var x3 := TakeNext(x, GetAck, 0);
    TakesGetAck(x);
    var n := 54 + Charge(GetAck);
    assert o.pending + [GetAck] == [GetAck];
    hide Charge, Step, Run, TakeNext, Answering;
    WrittenCharge(o, x, 54);
    WrittenSend(o1, x, n);
    WrittenTake(o2, x, n);
    WrittenAck(o2, x3, n);
    var s4 := Written(o2.(acked := 27), x3.(acks := x3.acks[1..]), n);
    RunAnswering(Written(o, x, 54), Written(o1, x, n), Written(o2, x, n), Written(o2, x3, n), s4);
  }

  lemma RunNothing(s: State)
    ensures Run(s, []) == s
  {
  }

  lemma TakesGetAck(x: Remote)
    requires x.acks == []
    ensures TakeNext(x, GetAck, 0).acks == [x.processed] && TakeNext(x, GetAck, 0).store == x.store
  {
    hide Count, Lost;
  }

  /** The condition that a counted replica was registered when the write was propagated is needed: here
      client 0 writes, then replica 0 joins, client 1 writes, and the replica's acknowledgement of the
      second write reaches the offset of the first, which it never received. */
  lemma LateJoinerIsCounted() returns (es: seq<Event>)
    ensures var s := Run(Init(map[]), es);
      && 0 in s.m.sessions && 0 in s.m.outlets && 0 in s.remotes && s.m.sessions[0].lastWrite > 0
      && 0 in Acknowledged(s.m.outlets, s.m.sessions[0].lastWrite)
      && Strings(s.m.store) == map[[97] := [120], [98] := [120]] && Strings(s.remotes[0].store) == map[[98] := [120]]
  {
    BothModelled();
    FirstWriteThenJoin();
    SecondWrite();
    ReplicaTakes();
    GetAckIsAnswered();
    StringsOfBoth();
    hide Run, Step, Charge, Count, Strings, Init, Answering;
    var end := Answering();
    var s1 := State(Master(ONE, 27, map[0 := Session(27, NO_TX)], map[], [Logged(0, FIRST, 27)]), map[], 0);
    var o := Outlet(0, [Write(SECOND)], [], 27, 1, 0);
    RunNext(Written(o, NewRemote(map[]), 54), Take(0, 0), end);
    RunNext(Joined(), Receive(1, SECOND, 0), [Take(0, 0)] + end);
    RunNext(s1, Join(map[]), [Receive(1, SECOND, 0)] + ([Take(0, 0)] + end));
    RunNext(Init(map[]), Receive(0, FIRST, 0), [Join(map[])] + ([Receive(1, SECOND, 0)] + ([Take(0, 0)] + end)));
    es := [Receive(0, FIRST, 0)] + ([Join(map[])] + ([Receive(1, SECOND, 0)] + ([Take(0, 0)] + end)));
  }

  lemma StringsOfBoth()
    ensures Strings(BOTH) == map[[97] := [120], [98] := [120]] && Strings(OTHER) == map[[98] := [120]]
  {
  }

  // ---- A replica that brings a key to an empty master -----------------------------------------

  /** The replica comes with a = x. */
  function Brought(m: Master, sent: seq<Item>): State {
    State(m.(outlets := map[0 := Outlet(0, sent, [], 0, 0, 0)]), map[0 := NewRemote(ONE)], 1)
  }

  lemma JoinsWithKey()
    ensures Step(Init(map[]), Join(ONE)) == Brought(Master(map[], 0, map[], map[], []), [])
  {
  }

  lemma EmptySnapshotSent()
    ensures var i := Snapshot(map[], [], 0); var m := Master(map[], 0, map[], map[], []);
      WellFormed(i) && Step(Brought(m, []), Psync(0, [], 0)) == Brought(m, [i])
  {
    var i := Snapshot(map[], [], 0);
    assert WellFormed(i);
    assert [] + [i] == [i];
    StringsOfOne();
    var s := Brought(Master(map[], 0, map[], map[], []), []);
    assert Strings(map[]) == map[];
    assert [97] in Strings(ONE) && s.m.store == map[] && s.remotes[0].start == ONE;
    assert !InLine(s, 0);
    hide Strings, WellFormed, InLine;
    var s' := Step(s, Psync(0, [], 0));
    assert s'.m.outlets == map[0 := Outlet(0, [i], [], 0, 0, 0)];
    assert s'.remotes == s.remotes;
  }

  lemma WritesTheSameKey()
    requires Modelled(FIRST) && Charge(Write(FIRST)) == 27
    ensures var i := Snapshot(map[], [], 0); var m := Master(map[], 0, map[], map[], []);
      Step(Brought(m, [i]), Receive(0, FIRST, 0)) ==
        Brought(Master(ONE, 27, map[0 := Session(27, NO_TX)], map[], [Logged(0, FIRST, 27)]), [i, Write(FIRST)])
  {
    var i := Snapshot(map[], [], 0);
    var m := Master(map[], 0, map[], map[], []);
    HandleSet(Brought(m, [i]).m, 0, [97]);
    hide Handle, Charge;
    assert map[][[97] := Str([120], 0)] == ONE;
    assert [] + [Logged(0, FIRST, 27)] == [Logged(0, FIRST, 27)] && [i] + [Write(FIRST)] == [i, Write(FIRST)];
    var m' := Step(Brought(m, [i]), Receive(0, FIRST, 0)).m;
    assert m'.outlets == map[0 := Outlet(0, [i, Write(FIRST)], [], 0, 0, 0)];
    assert m'.sessions == map[0 := Session(27, NO_TX)];
  }

  lemma ReplayOnOne()
    requires Modelled(FIRST)
    ensures var i := Snapshot(map[], [], 0); Replay(ONE, [i]) == ONE && Replay(ONE, [i, Write(FIRST)]) == ONE
  {
    var i := Snapshot(map[], [], 0);
    assert WellFormed(i);
    SnapshotApplied(ONE, i, 0);
    SetExecutes(ONE, [97], 0);
    hide ParseFile, SnapshotFile, Execute, WellFormed;
    assert ONE[[97] := Str([120], 0)] == ONE;
    assert [i][1..] == [] && [i, Write(FIRST)][1..] == [Write(FIRST)] && [Write(FIRST)][1..] == [];
    assert Applied(ONE, Write(FIRST), 0) == ONE;
    hide Applied;
    assert Replay(ONE, []) == ONE;
    assert Replay(ONE, [Write(FIRST)]) == Replay(ONE, []);
  }

  lemma BroughtDestined(m: Master, sent: seq<Item>)
    ensures var s := Brought(m, sent);
      && 0 in s.m.outlets && 0 in s.remotes && s.remotes[0].taken == 0 && !s.remotes[0].exact && s.m.store == m.store
      && Destined(s, 0) == Strings(Replay(ONE, sent))
  {
    assert sent[0..] == sent;
  }

  lemma StringsOfOne()
    ensures Strings(ONE) == map[[97] := [120]] && Strings(map[]) == map[]
  {
  }

  /** An empty snapshot leaves the replica apart from the master. */
  lemma EmptySnapshotLeavesApart()
    ensures var s := Run(Init(map[]), [Join(ONE), Psync(0, [], 0)]);
      && 0 in s.m.outlets && 0 in s.remotes && s.remotes[0].taken == 0
      && Strings(s.m.store) == map[] && Destined(s, 0) == map[[97] := [120]]
  {
    BothModelled();
    JoinsWithKey();
    EmptySnapshotSent();
    ReplayOnOne();
    StringsOfOne();
    hide *;
    BroughtDestined(Master(map[], 0, map[], map[], []), [Snapshot(map[], [], 0)]);
    RunThree(Init(map[]), Join(ONE), Psync(0, [], 0), GetAckTick);
  }

  /** They agree again once the master happens to write the same value under the replica's own key. */
  lemma SameWriteBringsTogether()
    ensures Modelled(FIRST)
    ensures var s := Run(Init(map[]), [Join(ONE), Psync(0, [], 0), Receive(0, FIRST, 0)]);
      && 0 in s.m.outlets && 0 in s.remotes && s.remotes[0].taken == 0
      && !s.remotes[0].exact && Destined(s, 0) == Strings(s.m.store) == map[[97] := [120]]
  {
    BothModelled();
    JoinsWithKey();
    EmptySnapshotSent();
    WritesTheSameKey();
    ReplayOnOne();
    StringsOfOne();
    hide *;
    var m' := Master(ONE, 27, map[0 := Session(27, NO_TX)], map[], [Logged(0, FIRST, 27)]);
    BroughtDestined(m', [Snapshot(map[], [], 0), Write(FIRST)]);
    RunThree(Init(map[]), Join(ONE), Psync(0, [], 0), Receive(0, FIRST, 0));
  }

  lemma RunThree(s: State, a: Event, b: Event, c: Event)
    ensures Run(s, [a, b]) == Step(Step(s, a), b)
    ensures Run(s, [a, b, c]) == Step(Step(Step(s, a), b), c)
  {
    hide Step, Run;
    RunNext(s, a, [b] + []);
    RunNext(Step(s, a), b, []);
    RunNothing(Step(Step(s, a), b));
    assert [a] + ([b] + []) == [a, b];
    RunNext(s, a, [b] + ([c] + []));
    RunNext(Step(s, a), b, [c] + []);
    RunNext(Step(Step(s, a), b), c, []);
    RunNothing(Step(Step(Step(s, a), b), c));
    assert [a] + ([b] + ([c] + [])) == [a, b, c];
  }

  // ---- A command that ends early --------------------------------------------------------------

  // SET a to the empty string.
  const EMPTYING: seq<bytes> := [SET_NAME, [97], []]

  lemma EmptyingModelled()
    ensures Modelled(EMPTYING) && Charge(Write(EMPTYING)) == 26 && Count(Write(EMPTYING)) == 24
  {
    assert Lower(SET_NAME) == SET_NAME;
    NoOptions(EMPTYING[1..]);
    ShortCharge(EMPTYING);
    TotalOfThree(SET_NAME, [97], []);
    assert Framing.EndsEarly(AsResp(EMPTYING));
    CountOf(EMPTYING);
    hide Resp.Raw;
  }

  /** SET with an empty value is charged 26 bytes; the replica's read loop delivers it with a buffer of 24,
      so its offset falls behind by two. */
  lemma EmptyValueDrifts()
    ensures var r := AsResp(EMPTYING); var frames := Framing.Serve(Framing.FromMaster, [], Resp.RawAll([r]));
      && |Resp.RawAll([r])| == 26 && |frames| == 1 && frames[0].value == r && |frames[0].buffer| == 24
  {
    EmptyingModelled();
    var items: seq<Item> := [Write(EMPTYING)];
    assert ReplicaWire.OnlyCommands(items);
    hide Resp.Raw, Resp.RawAll, Framing.Serve, Charge, Count;
    ReplicaWire.WireIsTaken(items);
    assert ReplicaWire.Values(items) == [AsResp(EMPTYING)];
    AppendItem([], Write(EMPTYING));
    assert [] + [Write(EMPTYING)] == items;
  }
}
