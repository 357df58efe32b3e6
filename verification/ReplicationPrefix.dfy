/** Prefix consistency: at every moment, a replica that has restored a snapshot holds the strings of some
    prefix of the master's log. */
module ReplicationPrefix {
  import opened Bytes
  import opened RdbFormat
  import opened Commands
  import opened Replication
  import opened ReplicationSafety
  import opened SerialTransactions
  import opened ReplicationConvergence

  /** The strings after the first n writes of the log. */
  function StringsAt(store: Store, log: seq<Logged>, n: nat): map<bytes, bytes>
    requires n <= |log|
  {
    Strings(Replayed(store, CommandsOf(log[..n])))
  }

  /** The replica came with the very strings that the master had when it was registered, as two empty stores
      do, or it has restored a snapshot since. */
  predicate Restored(store: Store, log: seq<Logged>, o: Outlet, x: Remote)
    requires o.first <= |log|
  {
    Strings(x.start) == StringsAt(store, log, o.first) || TookSnapshot(o, x)
  }

  predicate TookSnapshot(o: Outlet, x: Remote) {
    exists q :: 0 <= q < x.taken && q < |o.sent| && o.sent[q].Snapshot? && o.sent[q].data != map[]
  }

  /** How many writes of the log have become part of the replica's data: those before its registration, and
      those that it has executed. */
  function Reached(o: Outlet, x: Remote): nat {
    o.first + |x.executed|
  }

  /** In every reachable state, a replica that has restored a snapshot has exactly the strings of a prefix of
      the log: of the writes propagated before it was registered and of those that it has executed. */
  lemma PrefixConsistency(store: Store, es: seq<Event>, r: nat)
    requires NoExpiry(store) && AllExpiryFree(es) && r in Run(Init(store), es).m.outlets
    ensures var s := Run(Init(store), es);
      && r in s.remotes && s.m.outlets[r].first <= Reached(s.m.outlets[r], s.remotes[r]) <= |s.m.log|
      && (Restored(store, s.m.log, s.m.outlets[r], s.remotes[r]) ==>
        Strings(s.remotes[r].store) == StringsAt(store, s.m.log, Reached(s.m.outlets[r], s.remotes[r])))
  {
    hide *;
    var s := Run(Init(store), es);
    InitGood(store);
    RunOk(Init(store), es);
    SameKeys(s);
    RunInStep(store, es);
    InStepOf(store, s, r);
  }

  /** So a replica that WAIT counts and that has restored a snapshot holds the write: its strings are those of
      a prefix of the log that has the write in it, whether it was registered in time and is to be trusted, or
      joined late. */
  lemma CountedHoldsWrite(store: Store, es: seq<Event>, r: nat, j: nat)
    requires NoExpiry(store) && AllExpiryFree(es)
    requires var s := Run(Init(store), es);
      && r in s.m.outlets && r in s.remotes && j < |s.m.log| && s.m.outlets[r].first <= |s.m.log|
      && r in Acknowledged(s.m.outlets, s.m.log[j].offset)
      && (j < s.m.outlets[r].first || Trusted(s.m.outlets[r], s.remotes[r], s.m.log[j].c))
      && Restored(store, s.m.log, s.m.outlets[r], s.remotes[r])
    ensures var s := Run(Init(store), es);
      var n := Reached(s.m.outlets[r], s.remotes[r]);
      j < n <= |s.m.log| && Strings(s.remotes[r].store) == StringsAt(store, s.m.log, n)
  {
    hide Run, Init, Trusted, Restored, StringsAt, Strings;
    PrefixConsistency(store, es, r);
    if Run(Init(store), es).m.outlets[r].first <= j {
      WaitSafety(store, es, r, j);
      assert HasExecuted(Run(Init(store), es), r, j);
    }
  }

  // ---- What holds in every state --------------------------------------------------------------

  predicate StampedAt(store: Store, log: seq<Logged>, first: nat, sent: seq<Item>, q: nat)
    requires q < |sent|
  {
    var n := first + |WritesOf(sent[..q])|;
    sent[q].Snapshot? ==> n <= |log| && Strings(sent[q].data) == StringsAt(store, log, n)
  }

  /** Every snapshot that was sent is of the strings after the writes that were sent before it. */
  predicate Stamped(store: Store, log: seq<Logged>, first: nat, sent: seq<Item>) {
    forall q :: 0 <= q < |sent| ==> StampedAt(store, log, first, sent, q)
  }

  predicate InStep(store: Store, log: seq<Logged>, o: Outlet, x: Remote) {
    && o.first <= |log| && Reached(o, x) <= |log| && Stamped(store, log, o.first, o.sent)
    && (Restored(store, log, o, x) ==> Strings(x.store) == StringsAt(store, log, Reached(o, x)))
  }

  predicate AllInStep(store: Store, s: State) {
    forall r :: r in s.m.outlets && r in s.remotes ==> InStep(store, s.m.log, s.m.outlets[r], s.remotes[r])
  }

  lemma InStepOf(store: Store, s: State, r: nat)
    requires AllInStep(store, s) && r in s.m.outlets && r in s.remotes
    ensures InStep(store, s.m.log, s.m.outlets[r], s.remotes[r])
    ensures s.m.outlets[r].first <= Reached(s.m.outlets[r], s.remotes[r]) <= |s.m.log|
    ensures Restored(store, s.m.log, s.m.outlets[r], s.remotes[r]) ==>
      Strings(s.remotes[r].store) == StringsAt(store, s.m.log, Reached(s.m.outlets[r], s.remotes[r]))
  {
    hide Stamped, Restored, StringsAt, Strings;
  }

  lemma SameStrings(store: Store, log: seq<Logged>, log': seq<Logged>, n: nat)
    requires log <= log' && n <= |log|
    ensures StringsAt(store, log', n) == StringsAt(store, log, n)
  {
    assert log'[..n] == log[..n];
  }

  // ---- The master's steps ---------------------------------------------------------------------

  /** What is sent more are no snapshots. */
  predicate Continues(o: Outlet, o': Outlet) {
    o.sent <= o'.sent && o'.first == o.first && forall q :: |o.sent| <= q < |o'.sent| ==> !o'.sent[q].Snapshot?
  }

  predicate GoesOn(m: Master, m': Master) {
    && m.log <= m'.log && m'.outlets.Keys == m.outlets.Keys
    && forall r :: r in m.outlets ==> Continues(m.outlets[r], m'.outlets[r])
  }

  lemma GoesOnTrans(a: Master, b: Master, c: Master)
    requires GoesOn(a, b) && GoesOn(b, c)
    ensures GoesOn(a, c)
  {
    forall r | r in a.outlets ensures Continues(a.outlets[r], c.outlets[r]) {
      assert Continues(a.outlets[r], b.outlets[r]) && Continues(b.outlets[r], c.outlets[r]);
    }
  }

  lemma RunOneGoesOn(m: Master, who: nat, c: Command, now: nat, inExec: bool)
    ensures GoesOn(m, RunOne(m, who, c, now, inExec))
  {
    hide Execute, Charge;
  }

  lemma {:induction false} RunAllGoesOn(m: Master, who: nat, cs: seq<Command>, now: nat, inExec: bool)
    ensures GoesOn(m, RunAll(m, who, cs, now, inExec))
    decreases |cs|
  {
    if cs != [] {
      var m1 := RunOne(m, who, cs[0], now, inExec);
      RunOneGoesOn(m, who, cs[0], now, inExec);
      hide RunOne, GoesOn;
      RunAllGoesOn(m1, who, cs[1..], now, inExec);
      GoesOnTrans(m, m1, RunAll(m1, who, cs[1..], now, inExec));
    }
  }

  lemma ChargesGoOn(m: Master, r: nat)
    ensures GoesOn(m, ChargeGetAck(m)) && GoesOn(m, ChargePing(m, r))
  {
    hide Charge;
  }

  lemma HandleGoesOn(m: Master, who: nat, c: Command, now: nat)
    ensures GoesOn(m, Handle(m, who, c, now))
  {
    var s := SessionOf(m.sessions, who);
    var (tx, cs) := Decide(s.tx, c);
    var m1 := m.(sessions := m.sessions[who := s.(tx := tx)]);
    var m2 := if Waits(s.tx, c) then ChargeGetAck(m1) else m1;
    ChargesGoOn(m1, 0);
    assert GoesOn(m, m1);
    hide Decide, RunAll, ChargeGetAck, GoesOn;
    RunAllGoesOn(m2, who, cs, now, s.tx.isOpen);
    var m3 := RunAll(m2, who, cs, now, s.tx.isOpen);
    if Waits(s.tx, c) {
      GoesOnTrans(m, m1, m2);
    }
    GoesOnTrans(m, m2, m3);
  }

  lemma StillStamped(store: Store, log: seq<Logged>, log': seq<Logged>, o: Outlet, o': Outlet)
    requires Stamped(store, log, o.first, o.sent) && log <= log' && Continues(o, o')
    ensures Stamped(store, log', o'.first, o'.sent)
  {
    hide WritesOf, StringsAt, Strings;
    forall q | 0 <= q < |o'.sent| ensures StampedAt(store, log', o'.first, o'.sent, q) {
      if q < |o.sent| {
        assert StampedAt(store, log, o.first, o.sent, q);
        assert o'.sent[..q] == o.sent[..q];
        var n := o.first + |WritesOf(o.sent[..q])|;
        if n <= |log| {
          SameStrings(store, log, log', n);
        }
      }
    }
  }

  lemma StillInStep(store: Store, log: seq<Logged>, log': seq<Logged>, o: Outlet, o': Outlet, x: Remote)
    requires InStep(store, log, o, x) && log <= log' && Continues(o, o') && x.taken <= |o.sent|
    ensures InStep(store, log', o', x)
  {
    StillStamped(store, log, log', o, o');
    SameStrings(store, log, log', o.first);
    SameStrings(store, log, log', Reached(o, x));
    assert TookSnapshot(o', x) ==> TookSnapshot(o, x);
    hide StringsAt, Strings, Stamped, TookSnapshot;
  }

  lemma AllStillInStep(store: Store, s: State, m': Master)
    requires AllInStep(store, s) && Good(s) && GoesOn(s.m, m')
    ensures AllInStep(store, s.(m := m'))
  {
    hide InStep, Continues, Accounted, LogInOrder;
    forall r | r in m'.outlets && r in s.remotes ensures InStep(store, m'.log, m'.outlets[r], s.remotes[r]) {
      assert CaughtUp(s.m.outlets[r], s.remotes[r]);
      StillInStep(store, s.m.log, m'.log, s.m.outlets[r], m'.outlets[r], s.remotes[r]);
    }
  }

  // ---- One replica ----------------------------------------------------------------------------

  lemma OneInStep(store: Store, s: State, r: nat, o: Outlet, x: Remote)
    requires AllInStep(store, s) && InStep(store, s.m.log, o, x)
    ensures AllInStep(store, s.(m := s.m.(outlets := s.m.outlets[r := o]), remotes := s.remotes[r := x]))
  {
    hide InStep;
  }

  /** A snapshot of the master's data is sent: all writes since the registration were sent before it. */
  lemma SnapshotInStep(store: Store, m: Master, o: Outlet, x: Remote, i: Item, exact: bool)
    requires InStep(store, m.log, o, x) && Accounted(m.offset, m.log, o) && x.taken <= |o.sent|
    requires i.Snapshot? && i.data == m.store && Alike(Replayed(store, CommandsOf(m.log)), m.store)
    ensures InStep(store, m.log, o.(sent := o.sent + [i]), x.(exact := exact))
  {
    var o' := o.(sent := o.sent + [i]);
    hide WritesOf, ChargeAll, Covered, NoWrites, Replayed, Strings;
    assert m.log[..|m.log|] == m.log;
    assert |WritesOf(o.sent)| == |m.log| - o.first;
    forall q | 0 <= q < |o'.sent| ensures StampedAt(store, m.log, o'.first, o'.sent, q) {
      assert o'.sent[..q] == o.sent[..q];
      if q < |o.sent| {
        assert StampedAt(store, m.log, o.first, o.sent, q);
      } else {
        assert o.sent[..q] == o.sent;
      }
    }
    assert TookSnapshot(o', x.(exact := exact)) ==> TookSnapshot(o, x);
    hide StringsAt, Stamped, TookSnapshot;
  }

  /** The replica takes the next item. */
  lemma TakeInStep(store: Store, m: Master, o: Outlet, x: Remote, now: nat)
    requires InStep(store, m.log, o, x) && Accounted(m.offset, m.log, o) && CaughtUp(o, x) && Follows(m.store, o, x)
    requires x.taken < |o.sent| && NoExpiry(store) && SetNoExpiry(CommandsOf(m.log))
    ensures InStep(store, m.log, o, TakeNext(x, o.sent[x.taken], now))
  {
    var i := o.sent[x.taken];
    var y := TakeNext(x, i, now);
    TakenFields(x, i, now);
    if i.Write? {
      WriteTaken(store, m, o, x, now);
    } else {
      OtherTaken(store, m, o, x, now);
    }
  }

  /** What is executed next is the next write of the log. */
  lemma NextInLog(m: Master, o: Outlet, x: Remote)
    requires Accounted(m.offset, m.log, o) && CaughtUp(o, x) && x.taken < |o.sent| && o.sent[x.taken].Write?
    ensures Reached(o, x) < |m.log| && m.log[Reached(o, x)].c == o.sent[x.taken].c
    ensures CommandsOf(m.log[..Reached(o, x) + 1]) == CommandsOf(m.log[..Reached(o, x)]) + [o.sent[x.taken].c]
  {
    hide ChargeAll, WritesOf, Covered, NoWrites, EndingEarly, AcksInOrder;
    var c := o.sent[x.taken].c;
    var rest := o.sent[x.taken + 1..];
    AppendItem(o.sent[..x.taken], o.sent[x.taken]);
    AppendItems(o.sent[..x.taken + 1], rest);
    assert o.sent[..x.taken + 1] == o.sent[..x.taken] + [o.sent[x.taken]];
    assert o.sent == o.sent[..x.taken + 1] + rest;
    assert CommandsOf(m.log[o.first..]) == x.executed + [c] + WritesOf(rest);
    var n := |x.executed|;
    assert CommandsOf(m.log[o.first..])[n] == c;
    assert m.log[..Reached(o, x) + 1] == m.log[..Reached(o, x)] + [m.log[Reached(o, x)]];
  }

  lemma {:induction false} ReplayedAppend(store: Store, cs: seq<Command>, c: Command)
    ensures Replayed(store, cs + [c]) == Execute(Replayed(store, cs), c, 0).0
    decreases |cs|
  {
    hide Execute;
    if cs == [] {
      assert [] + [c] == [c] && [c][1..] == [];
      assert Replayed(Execute(store, c, 0).0, []) == Execute(store, c, 0).0;
    } else {
      assert (cs + [c])[1..] == cs[1..] + [c];
      ReplayedAppend(Execute(store, cs[0], 0).0, cs[1..], c);
    }
  }

  lemma {:induction false} ReplayedNoExpiry(store: Store, cs: seq<Command>)
    requires NoExpiry(store) && SetNoExpiry(cs)
    ensures NoExpiry(Replayed(store, cs))
    decreases |cs|
  {
    hide Execute, NoExpiry, SetsNoExpiry;
    if cs != [] {
      StringsStay(store, cs[0], 0);
      ReplayedNoExpiry(Execute(store, cs[0], 0).0, cs[1..]);
    }
  }

  lemma SameTook(o: Outlet, x: Remote, y: Remote)
    requires x.taken < |o.sent| && y.taken == x.taken + 1 && (o.sent[x.taken].Snapshot? ==> o.sent[x.taken].data == map[])
    ensures TookSnapshot(o, y) <==> TookSnapshot(o, x)
  {
  }

  /** A write is executed alike on the replica's data and on those of the prefix. */
  lemma WriteOnPrefix(store: Store, log: seq<Logged>, n: nat, a: Store, c: Command, now: nat)
    requires n < |log| && CommandsOf(log[..n + 1]) == CommandsOf(log[..n]) + [c]
    requires NoExpiry(store) && SetNoExpiry(CommandsOf(log)) && Name(c) in WRITEABLE && SetsNoExpiry(c)
    requires NoExpiry(a) && Strings(a) == StringsAt(store, log, n)
    ensures Strings(Execute(a, c, now).0) == StringsAt(store, log, n + 1)
  {
    var b := Replayed(store, CommandsOf(log[..n]));
    SetNoExpiryPrefix(log, n);
    hide SetNoExpiry, SetsNoExpiry, CommandsOf, NoExpiry, Replayed, Strings, Execute, Alike;
    ReplayedNoExpiry(store, CommandsOf(log[..n]));
    ReplayedAppend(store, CommandsOf(log[..n]), c);
    AlikeOf(a, b);
    WritesAlike(a, b, c, now, 0);
    StringsOf(Execute(a, c, now).0, Execute(b, c, 0).0);
  }

  lemma WriteOf(store: Store, o: Outlet, x: Remote)
    requires Follows(store, o, x) && x.taken < |o.sent| && o.sent[x.taken].Write?
    ensures Name(o.sent[x.taken].c) in WRITEABLE && SetsNoExpiry(o.sent[x.taken].c) && NoExpiry(x.store)
  {
    assert Sendable(o.sent[x.taken]);
    hide Replay, Alike, Strings, NoWrites, KeepsKeys, SetsNoExpiry;
  }

  lemma WriteTaken(store: Store, m: Master, o: Outlet, x: Remote, now: nat)
    requires InStep(store, m.log, o, x) && Accounted(m.offset, m.log, o) && CaughtUp(o, x) && Follows(m.store, o, x)
    requires x.taken < |o.sent| && o.sent[x.taken].Write? && NoExpiry(store) && SetNoExpiry(CommandsOf(m.log))
    ensures InStep(store, m.log, o, TakeNext(x, o.sent[x.taken], now))
  {
    hide *;
    var c := o.sent[x.taken].c;
    var y := TakeNext(x, Write(c), now);
    InStepParts(store, m.log, o, x);
    NextInLog(m, o, x);
    WriteTakenFields(x, c, now);
    ReachesOne(o, x, y, c);
    SameTook(o, x, y);
    WriteOf(m.store, o, x);
    if Restored(store, m.log, o, x) {
      WriteOnPrefix(store, m.log, Reached(o, x), x.store, c, now);
    }
    StaysInStep(store, m.log, o, x, y);
  }

  lemma ReachesOne(o: Outlet, x: Remote, y: Remote, c: Command)
    requires y.executed == x.executed + [c]
    ensures Reached(o, y) == Reached(o, x) + 1
  {
  }

  lemma InStepParts(store: Store, log: seq<Logged>, o: Outlet, x: Remote)
    requires InStep(store, log, o, x)
    ensures o.first <= |log| && Reached(o, x) <= |log|
    ensures Restored(store, log, o, x) ==> Strings(x.store) == StringsAt(store, log, Reached(o, x))
  {
    hide Stamped, Restored, Strings, StringsAt;
  }

  lemma StaysInStep(store: Store, log: seq<Logged>, o: Outlet, x: Remote, y: Remote)
    requires InStep(store, log, o, x) && y.start == x.start && (TookSnapshot(o, y) <==> TookSnapshot(o, x))
    requires o.first <= |log| && Reached(o, y) <= |log|
    requires Restored(store, log, o, x) ==> Strings(y.store) == StringsAt(store, log, Reached(o, y))
    ensures InStep(store, log, o, y)
  {
    hide Stamped, Strings, StringsAt, TookSnapshot, Reached;
  }

  lemma AlikeOf(a: Store, b: Store)
    requires NoExpiry(a) && NoExpiry(b) && Strings(a) == Strings(b)
    ensures Alike(a, b)
  {
  }

  lemma StringsOf(a: Store, b: Store)
    requires Alike(a, b)
    ensures Strings(a) == Strings(b)
  {
  }

  lemma SetNoExpiryPrefix(log: seq<Logged>, n: nat)
    requires n <= |log| && SetNoExpiry(CommandsOf(log))
    ensures SetNoExpiry(CommandsOf(log[..n]))
  {
    hide SetsNoExpiry;
    assert forall i :: 0 <= i < n ==> CommandsOf(log[..n])[i] == CommandsOf(log)[i];
  }

  lemma WriteTakenFields(x: Remote, c: Command, now: nat)
    ensures var y := TakeNext(x, Write(c), now);
      && y.taken == x.taken + 1 && y.store == Execute(x.store, c, now).0 && y.start == x.start
      && y.executed == x.executed + [c]
  {
    hide Execute, Count, Lost;
  }

  /** A snapshot brings the strings of the prefix, if it is not empty; anything else changes nothing. */
  lemma OtherTaken(store: Store, m: Master, o: Outlet, x: Remote, now: nat)
    requires InStep(store, m.log, o, x) && CaughtUp(o, x) && Follows(m.store, o, x)
    requires x.taken < |o.sent| && !o.sent[x.taken].Write?
    ensures InStep(store, m.log, o, TakeNext(x, o.sent[x.taken], now))
  {
    hide *;
    var i := o.sent[x.taken];
    var y := TakeNext(x, i, now);
    InStepParts(store, m.log, o, x);
    OtherTakenFields(x, i, now);
    if i.Snapshot? {
      SnapshotTaken(store, m, o, x, now);
    } else {
      SameTook(o, x, y);
      SameReached(o, x, y);
      StaysInStep(store, m.log, o, x, y);
    }
  }

  lemma SameReached(o: Outlet, x: Remote, y: Remote)
    requires y.executed == x.executed
    ensures Reached(o, y) == Reached(o, x)
  {
  }

  lemma SnapshotTaken(store: Store, m: Master, o: Outlet, x: Remote, now: nat)
    requires InStep(store, m.log, o, x) && CaughtUp(o, x) && Follows(m.store, o, x)
    requires x.taken < |o.sent| && o.sent[x.taken].Snapshot?
    ensures InStep(store, m.log, o, TakeNext(x, o.sent[x.taken], now))
  {
    hide *;
    var i := o.sent[x.taken];
    var y := TakeNext(x, i, now);
    InStepParts(store, m.log, o, x);
    OtherTakenFields(x, i, now);
    SnapshotOf(store, m, o, x);
    SnapshotApplied(x.store, i, now);
    SameReached(o, x, y);
    if i.data == map[] {
      SameTook(o, x, y);
      StaysInStep(store, m.log, o, x, y);
    } else {
      ComesInStep(store, m.log, o, x, y);
    }
  }

  lemma SnapshotOf(store: Store, m: Master, o: Outlet, x: Remote)
    requires InStep(store, m.log, o, x) && CaughtUp(o, x) && Follows(m.store, o, x)
    requires x.taken < |o.sent| && o.sent[x.taken].Snapshot?
    ensures WellFormed(o.sent[x.taken]) && NoExpiry(o.sent[x.taken].data) && Reached(o, x) <= |m.log|
    ensures Strings(o.sent[x.taken].data) == StringsAt(store, m.log, Reached(o, x))
  {
    assert Sendable(o.sent[x.taken]);
    assert StampedAt(store, m.log, o.first, o.sent, x.taken);
    hide WellFormed, NoExpiry, Strings, StringsAt, WritesOf, ChargeAll, Replay, Alike, KeepsKeys, NoWrites, Restored, AcksInOrder;
  }

  lemma ComesInStep(store: Store, log: seq<Logged>, o: Outlet, x: Remote, y: Remote)
    requires InStep(store, log, o, x) && y.executed == x.executed
    requires Reached(o, y) <= |log| && Strings(y.store) == StringsAt(store, log, Reached(o, y))
    ensures InStep(store, log, o, y)
  {
    hide Stamped, Strings, StringsAt, Restored;
  }

  lemma OtherTakenFields(x: Remote, i: Item, now: nat)
    requires !i.Write?
    ensures var y := TakeNext(x, i, now);
      && y.taken == x.taken + 1 && y.start == x.start && y.executed == x.executed
      && y.store == Applied(x.store, i, now) && (!i.Snapshot? ==> y.store == x.store)
  {
    hide ParseFile, SnapshotFile, Count, Lost;
  }

  // ---- Every step -----------------------------------------------------------------------------

  /** All that is known in a reachable state. */
  ghost predicate Known(store: Store, s: State) {
    && Good(s) && Tracking(s) && AllInStep(store, s)
    && NoExpiry(store) && SetNoExpiry(CommandsOf(s.m.log)) && Alike(Replayed(store, CommandsOf(s.m.log)), s.m.store)
  }

  /** Of one replica. */
  lemma KnownOf(store: Store, s: State, r: nat)
    requires Known(store, s) && r in s.m.outlets && r in s.remotes
    ensures var o, x := s.m.outlets[r], s.remotes[r];
      && InStep(store, s.m.log, o, x) && Accounted(s.m.offset, s.m.log, o) && CaughtUp(o, x) && Follows(s.m.store, o, x)
      && x.taken <= |o.sent|
    ensures s.m.outlets[r := s.m.outlets[r]] == s.m.outlets && s.remotes[r := s.remotes[r]] == s.remotes
    ensures AllInStep(store, s)
  {
    hide InStep, Accounted, Follows, Replayed, Alike, SetNoExpiry;
    SameRemote(s, r);
    TrackedOne(s, r);
  }

  lemma KnownParts(store: Store, s: State)
    requires Known(store, s)
    ensures Good(s) && AllInStep(store, s) && s.m.outlets.Keys == s.remotes.Keys
    ensures NoExpiry(store) && SetNoExpiry(CommandsOf(s.m.log)) && Alike(Replayed(store, CommandsOf(s.m.log)), s.m.store)
  {
    SameKeys(s);
    hide Good, Tracking, AllInStep, SetNoExpiry, Alike;
  }

  lemma PsyncInStep(store: Store, s: State, r: nat, order: seq<bytes>, ctime: int)
    requires Known(store, s)
    ensures AllInStep(store, Step(s, Psync(r, order, ctime)))
  {
    var i := Snapshot(s.m.store, order, ctime);
    hide *;
    KnownParts(store, s);
    PsyncIs(s, r, order, ctime);
    if r in s.m.outlets && r in s.remotes && WellFormed(i) {
      KnownOf(store, s, r);
      SnapshotInStep(store, s.m, s.m.outlets[r], s.remotes[r], i, InLine(s, r));
      OneInStep(store, s, r, s.m.outlets[r].(sent := s.m.outlets[r].sent + [i]), s.remotes[r].(exact := InLine(s, r)));
    }
  }

  lemma PsyncIs(s: State, r: nat, order: seq<bytes>, ctime: int)
    ensures var i := Snapshot(s.m.store, order, ctime);
      Step(s, Psync(r, order, ctime)) ==
        if r in s.m.outlets && r in s.remotes && WellFormed(i) then
          s.(m := s.m.(outlets := s.m.outlets[r := s.m.outlets[r].(sent := s.m.outlets[r].sent + [i])]),
             remotes := s.remotes[r := s.remotes[r].(exact := InLine(s, r))])
        else s
  {
    hide WellFormed, InLine;
  }

  lemma SentContinues(o: Outlet, i: nat)
    requires i < |o.pending| && NoWrites(o.pending)
    ensures Continues(o, o.(sent := o.sent + [o.pending[i]], pending := Without(o.pending, i)))
  {
  }

  lemma SendInStep(store: Store, s: State, r: nat, i: nat)
    requires Known(store, s)
    ensures AllInStep(store, Step(s, Send(r, i)))
  {
    hide *;
    KnownParts(store, s);
    SendIs(s, r, i);
    if r in s.m.outlets && r in s.remotes && i < |s.m.outlets[r].pending| {
      KnownOf(store, s, r);
      var o, x := s.m.outlets[r], s.remotes[r];
      var o' := o.(sent := o.sent + [o.pending[i]], pending := Without(o.pending, i));
      PendingOf(s.m.store, o, x);
      SentContinues(o, i);
      StillInStep(store, s.m.log, s.m.log, o, o', x);
      OneInStep(store, s, r, o', x);
    }
  }

  lemma SendIs(s: State, r: nat, i: nat)
    ensures Step(s, Send(r, i)) ==
      if r in s.m.outlets && i < |s.m.outlets[r].pending| then
        var o := s.m.outlets[r];
        s.(m := s.m.(outlets := s.m.outlets[r := o.(sent := o.sent + [o.pending[i]], pending := Without(o.pending, i))]))
      else s
  {
    hide Without;
  }

  lemma PendingOf(store: Store, o: Outlet, x: Remote)
    requires Follows(store, o, x)
    ensures NoWrites(o.pending)
  {
    hide NoWrites;
  }

  lemma TakeStepInStep(store: Store, s: State, r: nat, now: nat)
    requires Known(store, s)
    ensures AllInStep(store, Step(s, Take(r, now)))
  {
    hide *;
    KnownParts(store, s);
    TakeIs(s, r, now);
    if r in s.m.outlets && r in s.remotes && s.remotes[r].taken < |s.m.outlets[r].sent| {
      KnownOf(store, s, r);
      var o, x := s.m.outlets[r], s.remotes[r];
      TakeInStep(store, s.m, o, x, now);
      OneInStep(store, s, r, o, TakeNext(x, o.sent[x.taken], now));
    }
  }

  lemma TakeIs(s: State, r: nat, now: nat)
    ensures Step(s, Take(r, now)) ==
      if r in s.m.outlets && r in s.remotes && s.remotes[r].taken < |s.m.outlets[r].sent| then
        s.(remotes := s.remotes[r := TakeNext(s.remotes[r], s.m.outlets[r].sent[s.remotes[r].taken], now)])
      else s
  {
    hide TakeNext;
  }

  lemma SmallInStep(store: Store, log: seq<Logged>, o: Outlet, x: Remote, acked: nat, acks: seq<nat>)
    requires InStep(store, log, o, x)
    ensures InStep(store, log, o.(acked := acked), x.(acks := acks)) && InStep(store, log, o, OwnGetAck(x))
  {
    hide StringsAt, Strings, Stamped, Charge;
    assert TookSnapshot(o.(acked := acked), x.(acks := acks)) ==> TookSnapshot(o, x);
    assert TookSnapshot(o, OwnGetAck(x)) ==> TookSnapshot(o, x);
  }

  lemma AckIs(s: State, r: nat)
    ensures Step(s, AckArrives(r)) ==
      if r in s.m.outlets && r in s.remotes && s.remotes[r].acks != [] then
        s.(m := s.m.(outlets := s.m.outlets[r := s.m.outlets[r].(acked := s.remotes[r].acks[0])]),
           remotes := s.remotes[r := s.remotes[r].(acks := s.remotes[r].acks[1..])])
      else s
    ensures Step(s, OwnWait(r)) == if r in s.remotes then s.(remotes := s.remotes[r := OwnGetAck(s.remotes[r])]) else s
  {
    hide OwnGetAck;
  }

  lemma AckInStep(store: Store, s: State, r: nat)
    requires Known(store, s)
    ensures AllInStep(store, Step(s, AckArrives(r)))
  {
    hide *;
    KnownParts(store, s);
    AckIs(s, r);
    if r in s.m.outlets && r in s.remotes && s.remotes[r].acks != [] {
      KnownOf(store, s, r);
      var o, x := s.m.outlets[r], s.remotes[r];
      SmallInStep(store, s.m.log, o, x, x.acks[0], x.acks[1..]);
      OneInStep(store, s, r, o.(acked := x.acks[0]), x.(acks := x.acks[1..]));
    }
  }

  lemma OwnWaitInStep(store: Store, s: State, r: nat)
    requires Known(store, s)
    ensures AllInStep(store, Step(s, OwnWait(r)))
  {
    hide *;
    KnownParts(store, s);
    AckIs(s, r);
    if r in s.remotes {
      KnownOf(store, s, r);
      SmallInStep(store, s.m.log, s.m.outlets[r], s.remotes[r], 0, []);
      OneInStep(store, s, r, s.m.outlets[r], OwnGetAck(s.remotes[r]));
    }
  }

  lemma NewInStep(store: Store, m: Master, start: Store)
    ensures InStep(store, m.log, Outlet(0, [], [], m.offset, |m.log|, 0), NewRemote(start))
  {
    assert !TookSnapshot(Outlet(0, [], [], m.offset, |m.log|, 0), NewRemote(start));
    hide StringsAt, Strings;
  }

  lemma JoinInStep(store: Store, s: State, start: Store)
    requires AllInStep(store, s)
    ensures AllInStep(store, Step(s, Join(start)))
  {
    NewInStep(store, s.m, start);
    hide InStep, NewRemote;
    OneInStep(store, s, s.next, Outlet(0, [], [], s.m.offset, |s.m.log|, 0), NewRemote(start));
  }

  lemma DropInStep(store: Store, s: State, r: nat)
    requires AllInStep(store, s)
    ensures AllInStep(store, Step(s, Drop(r)))
  {
    hide InStep;
  }

  lemma StepInStep(store: Store, s: State, e: Event)
    requires Known(store, s)
    ensures AllInStep(store, Step(s, e))
  {
    assert AllInStep(store, s) && Good(s);
    hide *;
    match e
    case Receive(who, c, now) =>
      HandleGoesOn(s.m, who, c, now);
      AllStillInStep(store, s, Handle(s.m, who, c, now));
      StepIs(s, e);
    case Join(start) => JoinInStep(store, s, start);
    case Psync(r, order, ctime) => PsyncInStep(store, s, r, order, ctime);
    case GetAckTick => TickInStep(store, s, e);
    case PingTick(r) => TickInStep(store, s, e);
    case Send(r, i) => SendInStep(store, s, r, i);
    case Take(r, now) => TakeStepInStep(store, s, r, now);
    case AckArrives(r) => AckInStep(store, s, r);
    case Drop(r) => DropInStep(store, s, r);
    case OwnWait(r) => OwnWaitInStep(store, s, r);
  }

  lemma TickInStep(store: Store, s: State, e: Event)
    requires Good(s) && AllInStep(store, s) && (e.GetAckTick? || e.PingTick?)
    ensures AllInStep(store, Step(s, e))
  {
    ChargesGoOn(s.m, if e.PingTick? then e.r else 0);
    hide Good, AllInStep, GoesOn, ChargeGetAck, ChargePing;
    AllStillInStep(store, s, Step(s, e).m);
  }

  lemma InitInStep(store: Store)
    ensures AllInStep(store, Init(store))
  {
  }

  lemma {:induction false} RunInStep(store: Store, es: seq<Event>)
    requires NoExpiry(store) && AllExpiryFree(es)
    ensures AllInStep(store, Run(Init(store), es))
    decreases |es|
  {
    if es == [] {
      InitInStep(store);
    } else {
      var init, last := es[..|es| - 1], es[|es| - 1];
      var s := Run(Init(store), init);
      assert AllExpiryFree(init);
      hide *;
      RunInStep(store, init);
      InitGood(store);
      RunOk(Init(store), init);
      InitTracks(store);
      RunTracks(Init(store), init);
      LogSetsNoExpiry(store, init);
      LogDeterminesStrings(store, init);
      KnownFrom(store, s);
      StepInStep(store, s, last);
      assert es == init + [last];
      RunConcat(Init(store), init, [last]);
      RunOneEvent(s, last);
    }
  }

  lemma KnownFrom(store: Store, s: State)
    requires Good(s) && Tracking(s) && AllInStep(store, s)
    requires NoExpiry(store) && SetNoExpiry(CommandsOf(s.m.log)) && Alike(Replayed(store, CommandsOf(s.m.log)), s.m.store)
    ensures Known(store, s)
  {
  }
}
