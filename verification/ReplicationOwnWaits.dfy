/** WAITs that clients send to a replica itself: how many of them its acknowledgement can take before it is
    counted for a write that it has not executed. */
module ReplicationOwnWaits {
  import opened Bytes
  import opened RdbFormat
  import opened Commands
  import opened Replication
  import opened ReplicationCharges
  import opened ReplicationSafety

  /** The client's message is a write that is executed at once and propagated. */
  predicate IsPropagated(m: Master, who: nat, c: Command, now: nat) {
    && !SessionOf(m.sessions, who).tx.isOpen && Name(c) in WRITEABLE && Name(c) in REGISTERED
    && Execute(m.store, c, now).1 != Aborted
  }

  /** Replica r is counted for write number j, which is c and was propagated to it; it was registered at the
      offset `base` and has received n WAITs itself. */
  predicate IsCounted(s: State, r: nat, j: nat, c: Command, base: nat, n: nat) {
    && r in s.m.outlets && r in s.remotes && j < |s.m.log| && s.m.outlets[r].first <= j
    && s.m.log[j].c == c && r in Acknowledged(s.m.outlets, s.m.log[j].offset)
    && s.m.outlets[r].base == base && s.remotes[r].own == n
  }

  /** WAIT is safe for a write c, over all runs, all replicas registered at the offset `base` and all that have
      received n WAITs themselves, if and only if 37 * n < 37 + base + the length of c. */
  lemma WaitSafetyIff(store: Store, pre: seq<Event>, who: nat, c: Command, now: nat, n: nat)
    requires IsPropagated(Run(Init(store), pre).m, who, c, now)
    ensures var base := Run(Init(store), pre).m.offset;
      (forall es: seq<Event>, r: nat, j: nat ::
        IsCounted(Run(Init(store), es), r, j, c, base, n) ==> HasExecuted(Run(Init(store), es), r, j))
      <==> GETACK_LENGTH * n < GETACK_LENGTH + base + Charge(Write(c))
  {
    hide Run, Init, HasExecuted, IsPropagated, Charge;
    var s0 := Run(Init(store), pre);
    if GETACK_LENGTH * n < GETACK_LENGTH + s0.m.offset + Charge(Write(c)) {
      forall es: seq<Event>, r: nat, j: nat | IsCounted(Run(Init(store), es), r, j, c, s0.m.offset, n)
        ensures HasExecuted(Run(Init(store), es), r, j)
      {
        WaitSafety(store, es, r, j);
      }
    } else {
      OwnWaitsMislead(store, pre, who, c, now, n);
      var es := pre + Misleading(s0.next, who, c, now, n);
      assert IsCounted(Run(Init(store), es), s0.next, |s0.m.log|, c, s0.m.offset, n);
    }
  }

  // ---- The run in which it fails --------------------------------------------------------------

  function OwnWaits(r: nat, n: nat): seq<Event> {
    if n == 0 then [] else [OwnWait(r)] + OwnWaits(r, n - 1)
  }

  /** A replica joins, GETACK is charged for it, it receives n WAITs, is sent the GETACK and answers it; a
      client writes, and the answer arrives while the write is still on the wire. */
  function Misleading(r: nat, who: nat, c: Command, now: nat, n: nat): seq<Event> {
    Beginning() + (OwnWaits(r, n) + Ending(r, who, c, now))
  }

  function Beginning(): seq<Event> {
    [Join(map[]), GetAckTick]
  }

  function Ending(r: nat, who: nat, c: Command, now: nat): seq<Event> {
    [Send(r, 0), Take(r, 0)] + [Receive(who, c, now), AckArrives(r)]
  }

  /** It is counted, but has executed nothing and holds nothing. */
  predicate IsMisled(s: State, r: nat, j: nat, c: Command, base: nat, n: nat) {
    IsCounted(s, r, j, c, base, n) && s.remotes[r].executed == [] && s.remotes[r].store == map[]
  }

  /** After any run: the replica is counted for the write with an empty store, having executed nothing. */
  lemma OwnWaitsMislead(store: Store, pre: seq<Event>, who: nat, c: Command, now: nat, n: nat)
    requires IsPropagated(Run(Init(store), pre).m, who, c, now)
    requires GETACK_LENGTH * n >= GETACK_LENGTH + Run(Init(store), pre).m.offset + Charge(Write(c))
    ensures var s0 := Run(Init(store), pre);
      var s := Run(Init(store), pre + Misleading(s0.next, who, c, now, n));
      IsMisled(s, s0.next, |s0.m.log|, c, s0.m.offset, n) && !HasExecuted(s, s0.next, |s0.m.log|)
  {
    hide Run, Init, IsPropagated, Charge, IsMisled, HasExecuted, Misleading;
    var s0 := Run(Init(store), pre);
    RunConcat(Init(store), pre, Misleading(s0.next, who, c, now, n));
    MisledFrom(s0, who, c, now, n);
    NothingExecuted(Run(s0, Misleading(s0.next, who, c, now, n)), s0.next, |s0.m.log|, c, s0.m.offset, n);
  }

  lemma NothingExecuted(s: State, r: nat, j: nat, c: Command, base: nat, n: nat)
    requires IsMisled(s, r, j, c, base, n)
    ensures !HasExecuted(s, r, j)
  {
  }

  lemma MisledFrom(s: State, who: nat, c: Command, now: nat, n: nat)
    requires IsPropagated(s.m, who, c, now) && GETACK_LENGTH * n >= GETACK_LENGTH + s.m.offset + Charge(Write(c))
    ensures IsMisled(Run(s, Misleading(s.next, who, c, now, n)), s.next, |s.m.log|, c, s.m.offset, n)
  {
    var r := s.next;
    var end := Ending(r, who, c, now);
    hide Run, OwnWaits, IsPropagated, Charge, IsMisled, Beginning, Ending;
    RunConcat(s, Beginning(), OwnWaits(r, n) + end);
    var s2 := Run(s, Beginning());
    RunConcat(s2, OwnWaits(r, n), end);
    JoinsAndIsAsked(s);
    WaitsCounted(s2, r, n);
    var s3 := Run(s2, OwnWaits(r, n));
    SamePropagated(s.m, s3.m, who, c, now);
    AnswersTooEarly(s3, r, who, c, now, n, s.m.offset);
  }

  /** What is known of the replica and of what the client's write depends on. */
  predicate Stands(s: State, r: nat, o: Outlet, x: Remote) {
    r in s.m.outlets && r in s.remotes && s.m.outlets[r] == o && s.remotes[r] == x
  }

  predicate SameData(m: Master, m': Master) {
    m'.store == m.store && m'.sessions == m.sessions && m'.log == m.log
  }

  lemma RunTwo(s: State, a: Event, b: Event)
    ensures Run(s, [a, b]) == Step(Step(s, a), b)
  {
    hide Step;
    assert [a, b][1..] == [b] && [b][1..] == [];
    assert Run(Step(s, a), [b]) == Run(Step(Step(s, a), b), []);
  }

  lemma JoinsAndIsAsked(s: State)
    ensures var s' := Run(s, Beginning());
      && Stands(s', s.next, Outlet(0, [], [GetAck], s.m.offset, |s.m.log|, 0), NewRemote(map[]))
      && SameData(s.m, s'.m) && s'.m.offset == s.m.offset + GETACK_LENGTH
  {
    RunTwo(s, Join(map[]), GetAckTick);
    Joins(s);
    IsAsked(Step(s, Join(map[])), s.next);
    hide Run, Step;
  }

  lemma Joins(s: State)
    ensures var s' := Step(s, Join(map[]));
      && Stands(s', s.next, Outlet(0, [], [], s.m.offset, |s.m.log|, 0), NewRemote(map[]))
      && SameData(s.m, s'.m) && s'.m.offset == s.m.offset
  {
  }

  lemma IsAsked(s: State, r: nat)
    requires r in s.m.outlets && r in s.remotes && s.m.outlets[r].pending == []
    ensures var s' := Step(s, GetAckTick);
      && Stands(s', r, s.m.outlets[r].(pending := [GetAck]), s.remotes[r])
      && SameData(s.m, s'.m) && s'.m.offset == s.m.offset + GETACK_LENGTH
  {
    FixedCharges();
    hide Charge;
    assert [] + [GetAck] == [GetAck];
  }

  lemma OneOwnWait(s: State, r: nat)
    requires r in s.remotes
    ensures var x := s.remotes[r];
      Step(s, OwnWait(r)) == s.(remotes := s.remotes[r := x.(processed := x.processed + GETACK_LENGTH, own := x.own + 1)])
  {
    FixedCharges();
    hide Charge;
  }

  lemma {:induction false} WaitsCounted(s: State, r: nat, n: nat)
    requires r in s.remotes
    ensures var x := s.remotes[r];
      Run(s, OwnWaits(r, n)) == s.(remotes := s.remotes[r := x.(processed := x.processed + GETACK_LENGTH * n, own := x.own + n)])
    decreases n
  {
    if n == 0 {
      assert s.remotes[r := s.remotes[r]] == s.remotes;
    } else {
      var s1 := Step(s, OwnWait(r));
      OneOwnWait(s, r);
      assert OwnWaits(r, n)[1..] == OwnWaits(r, n - 1);
      hide Step;
      WaitsCounted(s1, r, n - 1);
      assert Run(s, OwnWaits(r, n)) == Run(s1, OwnWaits(r, n - 1));
    }
  }

  /** The GETACK is sent, answered with all that was counted, and the answer arrives after the write. */
  lemma AnswersTooEarly(s: State, r: nat, who: nat, c: Command, now: nat, n: nat, base: nat)
    requires IsPropagated(s.m, who, c, now) && s.m.offset == base + GETACK_LENGTH
    requires Stands(s, r, Outlet(0, [], [GetAck], base, |s.m.log|, 0), NewRemote(map[]).(processed := GETACK_LENGTH * n, own := n))
    requires GETACK_LENGTH * n >= GETACK_LENGTH + base + Charge(Write(c))
    ensures IsMisled(Run(s, Ending(r, who, c, now)), r, |s.m.log|, c, base, n)
  {
    hide IsPropagated, Charge, Step, Run;
    RunConcat(s, [Send(r, 0), Take(r, 0)], [Receive(who, c, now), AckArrives(r)]);
    SentAndAnswered(s, r, base, n);
    var s2 := Run(s, [Send(r, 0), Take(r, 0)]);
    SamePropagated(s.m, s2.m, who, c, now);
    WrittenAndAcknowledged(s2, r, who, c, now);
  }

  lemma SamePropagated(m: Master, m': Master, who: nat, c: Command, now: nat)
    requires IsPropagated(m, who, c, now) && SameData(m, m')
    ensures IsPropagated(m', who, c, now)
  {
    hide Execute;
  }

  lemma SentAndAnswered(s: State, r: nat, base: nat, n: nat)
    requires Stands(s, r, Outlet(0, [], [GetAck], base, |s.m.log|, 0), NewRemote(map[]).(processed := GETACK_LENGTH * n, own := n))
    ensures var s' := Run(s, [Send(r, 0), Take(r, 0)]);
      && r in s'.remotes && Stands(s', r, Outlet(0, [GetAck], [], base, |s.m.log|, 0), s'.remotes[r])
      && s'.remotes[r].acks == [GETACK_LENGTH * n] && s'.remotes[r].own == n
      && s'.remotes[r].executed == [] && s'.remotes[r].store == map[]
      && SameData(s.m, s'.m) && s'.m.offset == s.m.offset
  {
    RunTwo(s, Send(r, 0), Take(r, 0));
    hide Run, Count, Lost;
    assert Without([GetAck], 0) == [];
  }

  lemma WrittenAndAcknowledged(s: State, r: nat, who: nat, c: Command, now: nat)
    requires IsPropagated(s.m, who, c, now) && r in s.m.outlets && r in s.remotes && s.remotes[r].acks != []
    ensures var s' := Run(s, [Receive(who, c, now), AckArrives(r)]);
      && r in s'.m.outlets && r in s'.remotes && s'.m.log == s.m.log + [Logged(who, c, s.m.offset + Charge(Write(c)))]
      && s'.m.outlets[r].acked == s.remotes[r].acks[0]
      && s'.m.outlets[r].base == s.m.outlets[r].base && s'.m.outlets[r].first == s.m.outlets[r].first
      && s'.remotes[r] == s.remotes[r].(acks := s.remotes[r].acks[1..])
  {
    RunTwo(s, Receive(who, c, now), AckArrives(r));
    Written(s, r, who, c, now);
    Acknowledges(Step(s, Receive(who, c, now)), r);
    hide Run, Step, Charge, IsPropagated;
  }

  lemma Written(s: State, r: nat, who: nat, c: Command, now: nat)
    requires IsPropagated(s.m, who, c, now) && r in s.m.outlets
    ensures var s' := Step(s, Receive(who, c, now));
      && r in s'.m.outlets && s'.m.log == s.m.log + [Logged(who, c, s.m.offset + Charge(Write(c)))] && s'.remotes == s.remotes
      && s'.m.outlets[r] == s.m.outlets[r].(sent := s.m.outlets[r].sent + [Write(c)])
  {
    HandleWrite(s.m, who, c, now);
    hide Handle, Charge, IsPropagated, Execute;
  }

  lemma Acknowledges(s: State, r: nat)
    requires r in s.m.outlets && r in s.remotes && s.remotes[r].acks != []
    ensures var s', x := Step(s, AckArrives(r)), s.remotes[r];
      && s'.m.log == s.m.log
      && Stands(s', r, s.m.outlets[r].(acked := x.acks[0]), x.(acks := x.acks[1..]))
  {
  }

  lemma HandleWrite(m: Master, who: nat, c: Command, now: nat)
    requires IsPropagated(m, who, c, now)
    ensures Handle(m, who, c, now) ==
      Propagate(m.(store := Execute(m.store, c, now).0, sessions := m.sessions[who := SessionOf(m.sessions, who)]), who, c)
  {
    var s := SessionOf(m.sessions, who);
    assert Decide(s.tx, c) == (s.tx, [c]) && !Waits(s.tx, c);
    var m1 := m.(sessions := m.sessions[who := s]);
    hide Execute, Propagate, Decide, Waits;
    var m2 := RunOne(m1, who, c, now, false);
    assert [c][1..] == [];
    assert RunAll(m1, who, [c], now, s.tx.isOpen) == RunAll(m2, who, [], now, s.tx.isOpen);
  }
}
