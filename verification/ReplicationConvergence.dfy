/** Why replicas converge: replaying what is still on the wire of a replica in line gives the
    master's strings, in every reachable state. */
module ReplicationConvergence {
  import opened Bytes
  import opened RdbFormat
  import opened Commands
  import opened Replication
  import opened ReplicationSafety
  import opened SerialTransactions
  import Rdb

  /** The data of a replica once it has taken all these items. */
  function Replay(store: Store, items: seq<Item>): Store
    decreases |items|
  {
    if items == [] then store else Replay(Applied(store, items[0], 0), items[1..])
  }

  predicate Sendable(i: Item) {
    WellFormed(i) && (i.Write? ==> Name(i.c) in WRITEABLE && SetsNoExpiry(i.c)) && (i.Snapshot? ==> NoExpiry(i.data))
  }

  predicate AllSendable(items: seq<Item>) {
    forall p :: 0 <= p < |items| ==> Sendable(items[p])
  }

  // ---- Single items ---------------------------------------------------------------------------

  /** The snapshot's file is parsed back to the data it was made from. */
  lemma SnapshotApplied(store: Store, i: Item, now: nat)
    requires i.Snapshot? && WellFormed(i) && NoExpiry(i.data)
    ensures Applied(store, i, now) == if i.data == map[] then store else i.data
  {
    hide ParseFile, File, Entries, Preamble;
    SavedFileParses(i.order, i.data, i.ctime, |i.data|, Rdb.Expiring(i.data), now);
    assert Unexpired(i.data, now) == i.data;
  }

  lemma AppliedAlike(a: Store, b: Store, i: Item, m: nat, n: nat)
    requires Alike(a, b) && Sendable(i)
    ensures Alike(Applied(a, i, m), Applied(b, i, n))
  {
    if i.Write? {
      WritesAlike(a, b, i.c, m, n);
    } else if i.Snapshot? {
      SnapshotApplied(a, i, m);
      SnapshotApplied(b, i, n);
    }
    hide Execute, ParseFile, SnapshotFile, Enumerates, AllStrings, Short;
  }

  lemma AlikeSelf(a: Store)
    requires NoExpiry(a)
    ensures Alike(a, a)
  {
  }

  lemma {:induction false} ReplayAlike(a: Store, b: Store, items: seq<Item>)
    requires Alike(a, b) && AllSendable(items)
    ensures Alike(Replay(a, items), Replay(b, items))
    decreases |items|
  {
    hide Applied, Sendable, Alike;
    if items != [] {
      AppliedAlike(a, b, items[0], 0, 0);
      ReplayAlike(Applied(a, items[0], 0), Applied(b, items[0], 0), items[1..]);
    }
  }

  lemma {:induction false} ReplayAppend(store: Store, items: seq<Item>, i: Item)
    ensures Replay(store, items + [i]) == Applied(Replay(store, items), i, 0)
    decreases |items|
  {
    hide Applied;
    if items == [] {
      assert [] + [i] == [i] && [i][1..] == [];
      assert Replay(Applied(store, i, 0), []) == Applied(store, i, 0);
    } else {
      assert (items + [i])[1..] == items[1..] + [i];
      ReplayAppend(Applied(store, items[0], 0), items[1..], i);
    }
  }

  // ---- One replica ----------------------------------------------------------------------------

  function Wire(o: Outlet, x: Remote): seq<Item>
    requires x.taken <= |o.sent|
  {
    o.sent[x.taken..]
  }

  /** A replica that is in line, or that came with nothing to a master that still has nothing, will
      have the master's strings. One that is not keeps the keys it came with. */
  predicate Follows(store: Store, o: Outlet, x: Remote) {
    && x.taken <= |o.sent| && AllSendable(o.sent) && NoWrites(o.pending) && NoExpiry(store) && NoExpiry(x.store) && NoExpiry(x.start)
    && (x.exact || (Strings(x.start) == map[] && Strings(store) == map[]) ==> Alike(Replay(x.store, Wire(o, x)), store))
    && (!x.exact ==> KeepsKeys(x.start, Replay(x.store, Wire(o, x))))
    && (x.exact ==> store != map[] || Strings(x.start) == map[])
  }

  predicate KeepsKeys(a: Store, b: Store) {
    NoExpiry(b) && Strings(a).Keys <= Strings(b).Keys
  }

  lemma WireAppend(o: Outlet, x: Remote, i: Item)
    requires x.taken <= |o.sent|
    ensures Replay(x.store, Wire(o.(sent := o.sent + [i]), x)) == Applied(Replay(x.store, Wire(o, x)), i, 0)
  {
    assert (o.sent + [i])[x.taken..] == o.sent[x.taken..] + [i];
    ReplayAppend(x.store, Wire(o, x), i);
  }

  lemma AppliedKeepsKeys(a: Store, b: Store, i: Item, now: nat)
    requires KeepsKeys(a, b) && Sendable(i) && (i.Snapshot? ==> i.data == map[])
    ensures KeepsKeys(a, Applied(b, i, now))
  {
    if i.Write? {
      StringsStay(b, i.c, now);
    } else if i.Snapshot? {
      SnapshotApplied(b, i, now);
    }
    hide Execute, ParseFile, SnapshotFile, Enumerates, AllStrings, Short, Strings;
  }

  lemma SendableAppend(items: seq<Item>, i: Item)
    requires AllSendable(items) && Sendable(i)
    ensures AllSendable(items + [i])
  {
  }

  /** A write executed by the master and sent to the replica. */
  lemma WriteFollows(store: Store, o: Outlet, x: Remote, c: Command, now: nat)
    requires Follows(store, o, x) && Name(c) in WRITEABLE && SetsNoExpiry(c)
    ensures Follows(Execute(store, c, now).0, o.(sent := o.sent + [Write(c)]), x)
  {
    var i := Write(c);
    WireAppend(o, x, i);
    StringsStay(store, c, now);
    SendableAppend(o.sent, i);
    var r := Replay(x.store, Wire(o, x));
    if Alike(r, store) {
      WritesAlike(r, store, c, 0, now);
    }
    if !x.exact {
      AppliedKeepsKeys(x.start, r, i, 0);
    }
    assert Applied(r, i, 0) == Execute(r, c, 0).0;
    var store' := Execute(store, c, now).0;
    assert Strings(store') == map[] ==> Strings(store) == map[] by {
      if Strings(store') == map[] {
        assert Strings(store).Keys <= {};
      }
    }
    hide Execute, Applied, Replay, Alike, Strings, NoExpiry, AllSendable, NoWrites;
  }

  /** Anything else that the master executes. */
  lemma OtherFollows(store: Store, store': Store, o: Outlet, x: Remote)
    requires Follows(store, o, x) && NoExpiry(store') && Strings(store') == Strings(store) && store.Keys <= store'.Keys
    ensures Follows(store', o, x)
  {
    hide Replay, Strings, AllSendable, NoWrites, KeepsKeys, NoExpiry;
  }

  /** A snapshot of the master's data. */
  lemma SnapshotFollows(store: Store, o: Outlet, x: Remote, i: Item, inLine: bool)
    requires Follows(store, o, x) && i.Snapshot? && i.data == store && WellFormed(i)
    requires inLine == (store != map[] || Strings(x.start) == map[])
    ensures Follows(store, o.(sent := o.sent + [i]), x.(exact := inLine))
  {
    var r := Replay(x.store, Wire(o, x));
    WireAppend(o, x, i);
    SendableAppend(o.sent, i);
    SnapshotApplied(r, i, 0);
    AlikeSelf(store);
    assert store == map[] ==> Strings(store) == map[];
    hide Applied, Replay, Strings, AllSendable, NoWrites, NoExpiry, WellFormed;
  }

  /** The replica takes the next item. */
  lemma TakeFollows(store: Store, o: Outlet, x: Remote, now: nat)
    requires Follows(store, o, x) && x.taken < |o.sent|
    ensures Follows(store, o, TakeNext(x, o.sent[x.taken], now))
  {
    var i := o.sent[x.taken];
    var a, b := Applied(x.store, i, 0), Applied(x.store, i, now);
    var rest := o.sent[x.taken + 1..];
    var y := TakeNext(x, i, now);
    assert Sendable(i) && AllSendable(rest) && NoExpiry(x.store);
    TakenFields(x, i, now);
    hide Follows, Applied, Replay, Sendable, AllSendable, TakeNext, Alike, NoExpiry;
    ReplayNext(o, x);
    AlikeSelf(x.store);
    AppliedAlike(x.store, x.store, i, 0, now);
    ReplayAlike(a, b, rest);
    AlikeExpiry(a, b);
    TookFollows(store, o, x, y, Replay(a, rest), Replay(b, rest));
  }

  lemma TakenFields(x: Remote, i: Item, now: nat)
    ensures var y := TakeNext(x, i, now);
      y.taken == x.taken + 1 && y.store == Applied(x.store, i, now) && y.start == x.start && y.exact == x.exact
  {
    hide Applied, Count, Lost;
  }

  lemma ReplayNext(o: Outlet, x: Remote)
    requires x.taken < |o.sent|
    ensures Replay(x.store, Wire(o, x)) == Replay(Applied(x.store, o.sent[x.taken], 0), o.sent[x.taken + 1..])
  {
    hide Applied;
    assert Wire(o, x)[0] == o.sent[x.taken] && Wire(o, x)[1..] == o.sent[x.taken + 1..];
  }

  lemma AlikeExpiry(a: Store, b: Store)
    requires Alike(a, b)
    ensures NoExpiry(b)
  {
  }

  lemma TookFollows(store: Store, o: Outlet, x: Remote, y: Remote, r: Store, r': Store)
    requires Follows(store, o, x) && r == Replay(x.store, Wire(o, x)) && Alike(r, r')
    requires y.taken <= |o.sent| && r' == Replay(y.store, Wire(o, y)) && NoExpiry(y.store) && y.start == x.start && y.exact == x.exact
    ensures Follows(store, o, y)
  {
    hide Replay, AllSendable, NoWrites;
  }

  /** A pending GETACK or PING is written. */
  lemma SendFollows(store: Store, o: Outlet, x: Remote, i: nat)
    requires Follows(store, o, x) && i < |o.pending|
    ensures Follows(store, o.(sent := o.sent + [o.pending[i]], pending := Without(o.pending, i)), x)
  {
    var item := o.pending[i];
    WireAppend(o, x, item);
    SendableAppend(o.sent, item);
    assert NoWrites(Without(o.pending, i));
    assert Applied(Replay(x.store, Wire(o, x)), item, 0) == Replay(x.store, Wire(o, x));
    hide Applied, Replay, Alike, Strings, AllSendable, NoWrites, KeepsKeys;
  }

  lemma JoinFollows(store: Store, start: Store, base: nat, first: nat)
    requires NoExpiry(store) && NoExpiry(start)
    ensures Follows(store, Outlet(0, [], [], base, first, 0), NewRemote(start))
  {
  }

  // ---- The master's steps ---------------------------------------------------------------------

  /** The aborted writes and all other commands leave the strings alone. */
  lemma NotPropagated(store: Store, c: Command, now: nat)
    requires NoExpiry(store) && (Name(c) !in WRITEABLE || Execute(store, c, now).1 == Aborted)
    ensures NoExpiry(Execute(store, c, now).0) && Strings(Execute(store, c, now).0) == Strings(store)
  {
    if Name(c) !in WRITEABLE {
      OthersKeepStrings(store, c, now);
    }
    hide ParseOptions, Timeless;
  }

  lemma RunOneFollows(m: Master, who: nat, c: Command, now: nat, inExec: bool, r: nat, x: Remote)
    requires r in m.outlets && Follows(m.store, m.outlets[r], x) && SetsNoExpiry(c)
    ensures var m' := RunOne(m, who, c, now, inExec); r in m'.outlets && Follows(m'.store, m'.outlets[r], x)
  {
    if Name(c) in WRITEABLE && (inExec || Execute(m.store, c, now).1 != Aborted) {
      WriteFollows(m.store, m.outlets[r], x, c, now);
    } else {
      NotPropagated(m.store, c, now);
      StringsStay(m.store, c, now);
      OtherFollows(m.store, Execute(m.store, c, now).0, m.outlets[r], x);
    }
    hide Execute, Follows, Charge;
  }

  lemma {:induction false} RunAllFollows(m: Master, who: nat, cs: seq<Command>, now: nat, inExec: bool, r: nat, x: Remote)
    requires r in m.outlets && Follows(m.store, m.outlets[r], x) && SetNoExpiry(cs)
    ensures var m' := RunAll(m, who, cs, now, inExec); r in m'.outlets && Follows(m'.store, m'.outlets[r], x)
    decreases |cs|
  {
    hide RunOne, Follows;
    if cs != [] {
      RunOneFollows(m, who, cs[0], now, inExec, r, x);
      RunAllFollows(RunOne(m, who, cs[0], now, inExec), who, cs[1..], now, inExec, r, x);
    }
  }

  lemma ChargedFollows(store: Store, o: Outlet, x: Remote, i: Item, elsewhere: nat)
    requires Follows(store, o, x) && (i.GetAck? || i.Ping?)
    ensures Follows(store, o.(pending := o.pending + [i]), x) && Follows(store, o.(elsewhere := elsewhere), x)
  {
    hide Replay, Alike, Strings, AllSendable, KeepsKeys;
  }

  lemma HandleFollows(m: Master, who: nat, c: Command, now: nat, r: nat, x: Remote)
    requires r in m.outlets && Follows(m.store, m.outlets[r], x)
    requires SetsNoExpiry(c) && SetNoExpiry(SessionOf(m.sessions, who).tx.queue)
    ensures var m' := Handle(m, who, c, now); r in m'.outlets && Follows(m'.store, m'.outlets[r], x)
  {
    var s := SessionOf(m.sessions, who);
    var (tx, cs) := Decide(s.tx, c);
    var m1 := m.(sessions := m.sessions[who := s.(tx := tx)]);
    var m2 := if Waits(s.tx, c) then ChargeGetAck(m1) else m1;
    DecideSetsNoExpiry(s.tx, c);
    ChargedFollows(m.store, m.outlets[r], x, GetAck, 0);
    assert r in m2.outlets && Follows(m2.store, m2.outlets[r], x);
    hide Follows, Decide, RunAll, ChargeGetAck, SetNoExpiry, SetsNoExpiry;
    RunAllFollows(m2, who, cs, now, s.tx.isOpen, r, x);
  }

  // ---- Every step -----------------------------------------------------------------------------

  predicate Tracking(s: State) {
    && NoExpiry(s.m.store) && QueuesSetNoExpiry(Txs(s.m.sessions)) && s.m.outlets.Keys == s.remotes.Keys
    && forall r :: r in s.remotes ==> r < s.next && Follows(s.m.store, s.m.outlets[r], s.remotes[r])
  }

  lemma ExecuteKeepsNoExpiry(m: Master, who: nat, c: Command, now: nat, inExec: bool)
    requires NoExpiry(m.store) && SetsNoExpiry(c)
    ensures NoExpiry(RunOne(m, who, c, now, inExec).store) && RunOne(m, who, c, now, inExec).outlets.Keys == m.outlets.Keys
  {
    StringsStay(m.store, c, now);
    hide Execute, Charge;
  }

  lemma {:induction false} RunAllKeeps(m: Master, who: nat, cs: seq<Command>, now: nat, inExec: bool)
    requires NoExpiry(m.store) && SetNoExpiry(cs)
    ensures NoExpiry(RunAll(m, who, cs, now, inExec).store) && RunAll(m, who, cs, now, inExec).outlets.Keys == m.outlets.Keys
    decreases |cs|
  {
    hide RunOne, NoExpiry;
    if cs != [] {
      ExecuteKeepsNoExpiry(m, who, cs[0], now, inExec);
      RunAllKeeps(RunOne(m, who, cs[0], now, inExec), who, cs[1..], now, inExec);
    }
  }

  lemma HandleKeeps(m: Master, who: nat, c: Command, now: nat)
    requires NoExpiry(m.store) && SetsNoExpiry(c) && QueuesSetNoExpiry(Txs(m.sessions))
    ensures var m' := Handle(m, who, c, now);
      NoExpiry(m'.store) && QueuesSetNoExpiry(Txs(m'.sessions)) && m'.outlets.Keys == m.outlets.Keys
  {
    var was := SessionOf(m.sessions, who);
    var (tx, cs) := Decide(was.tx, c);
    var m1 := m.(sessions := m.sessions[who := was.(tx := tx)]);
    var m2 := if Waits(was.tx, c) then ChargeGetAck(m1) else m1;
    assert m2.outlets.Keys == m.outlets.Keys && m2.store == m.store;
    TxSetsNoExpiry(Txs(m.sessions), who);
    TxSame(m.sessions, who);
    DecideSetsNoExpiry(was.tx, c);
    HandleSerially(m, who, c, now);
    hide Decide, RunAll, ChargeGetAck, NoExpiry, SetNoExpiry, Txs, SetsNoExpiry;
    RunAllKeeps(m2, who, cs, now, was.tx.isOpen);
  }

  lemma ReceiveTracks(s: State, who: nat, c: Command, now: nat)
    requires Tracking(s) && SetsNoExpiry(c)
    ensures Tracking(s.(m := Handle(s.m, who, c, now)))
  {
    HandleKeeps(s.m, who, c, now);
    TxSetsNoExpiry(Txs(s.m.sessions), who);
    TxSame(s.m.sessions, who);
    hide Follows, Handle, NoExpiry, QueuesSetNoExpiry, SetNoExpiry, SetsNoExpiry, Txs;
    forall r | r in s.remotes ensures Follows(Handle(s.m, who, c, now).store, Handle(s.m, who, c, now).outlets[r], s.remotes[r]) {
      HandleFollows(s.m, who, c, now, r, s.remotes[r]);
    }
  }

  lemma ChargesTrack(s: State, m': Master)
    requires Tracking(s) && m'.store == s.m.store && m'.sessions == s.m.sessions && m'.outlets.Keys == s.m.outlets.Keys
    requires forall r :: r in s.m.outlets ==> ChargedOutlet(s.m.outlets[r], m'.outlets[r])
    ensures Tracking(s.(m := m'))
  {
    hide Follows, NoExpiry;
    forall r | r in s.remotes ensures Follows(m'.store, m'.outlets[r], s.remotes[r]) {
      assert ChargedOutlet(s.m.outlets[r], m'.outlets[r]);
      ChargedFollows(s.m.store, s.m.outlets[r], s.remotes[r], GetAck, m'.outlets[r].elsewhere);
      ChargedFollows(s.m.store, s.m.outlets[r], s.remotes[r], Ping, m'.outlets[r].elsewhere);
    }
  }

  predicate ChargedOutlet(o: Outlet, o': Outlet) {
    o' == o.(pending := o.pending + [GetAck]) || o' == o.(pending := o.pending + [Ping]) || o' == o.(elsewhere := o'.elsewhere)
  }

  lemma OneTracks(s: State, r: nat, o: Outlet, x: Remote)
    requires Tracking(s) && r in s.remotes && Follows(s.m.store, o, x)
    ensures Tracking(s.(m := s.m.(outlets := s.m.outlets[r := o]), remotes := s.remotes[r := x]))
  {
    hide Follows, NoExpiry;
  }

  lemma TrackedOne(s: State, r: nat)
    requires Tracking(s) && r in s.m.outlets
    ensures r in s.remotes && Follows(s.m.store, s.m.outlets[r], s.remotes[r])
    ensures s.m.outlets[r := s.m.outlets[r]] == s.m.outlets && s.remotes[r := s.remotes[r]] == s.remotes
  {
    hide Follows, NoExpiry;
  }

  lemma PsyncTracks(s: State, r: nat, order: seq<bytes>, ctime: int)
    requires Tracking(s)
    ensures Tracking(Step(s, Psync(r, order, ctime)))
  {
    var i := Snapshot(s.m.store, order, ctime);
    hide WellFormed, Tracking, Follows;
    if r in s.m.outlets && r in s.remotes && WellFormed(i) {
      TrackedOne(s, r);
      var o, x := s.m.outlets[r], s.remotes[r];
      SnapshotFollows(s.m.store, o, x, i, InLine(s, r));
      OneTracks(s, r, o.(sent := o.sent + [i]), x.(exact := InLine(s, r)));
    }
  }

  lemma SendTracks(s: State, r: nat, i: nat)
    requires Tracking(s)
    ensures Tracking(Step(s, Send(r, i)))
  {
    hide Tracking, Follows;
    if r in s.m.outlets && i < |s.m.outlets[r].pending| {
      TrackedOne(s, r);
      var o, x := s.m.outlets[r], s.remotes[r];
      SendFollows(s.m.store, o, x, i);
      OneTracks(s, r, o.(sent := o.sent + [o.pending[i]], pending := Without(o.pending, i)), x);
    }
  }

  lemma TakeTracks(s: State, r: nat, now: nat)
    requires Tracking(s)
    ensures Tracking(Step(s, Take(r, now)))
  {
    hide Tracking, Follows, TakeNext;
    if r in s.m.outlets && r in s.remotes && s.remotes[r].taken < |s.m.outlets[r].sent| {
      TrackedOne(s, r);
      var o, x := s.m.outlets[r], s.remotes[r];
      TakeFollows(s.m.store, o, x, now);
      OneTracks(s, r, o, TakeNext(x, o.sent[x.taken], now));
    }
  }

  lemma AckFollows(store: Store, o: Outlet, x: Remote, acked: nat, acks: seq<nat>)
    requires Follows(store, o, x)
    ensures Follows(store, o.(acked := acked), x.(acks := acks))
  {
    hide Replay, Alike, Strings, AllSendable, NoWrites, KeepsKeys, NoExpiry;
  }

  lemma AckTracks(s: State, r: nat)
    requires Tracking(s)
    ensures Tracking(Step(s, AckArrives(r)))
  {
    hide Tracking, Follows;
    if r in s.m.outlets && r in s.remotes && s.remotes[r].acks != [] {
      TrackedOne(s, r);
      var o, x := s.m.outlets[r], s.remotes[r];
      AckFollows(s.m.store, o, x, x.acks[0], x.acks[1..]);
      OneTracks(s, r, o.(acked := x.acks[0]), x.(acks := x.acks[1..]));
    }
  }

  lemma JoinTracks(s: State, start: Store)
    requires Tracking(s) && NoExpiry(start)
    ensures Tracking(Step(s, Join(start)))
  {
    JoinFollows(s.m.store, start, s.m.offset, |s.m.log|);
    hide Follows, NoExpiry;
  }

  lemma OwnWaitFollows(store: Store, o: Outlet, x: Remote)
    requires Follows(store, o, x)
    ensures Follows(store, o, OwnGetAck(x))
  {
    hide Replay, Alike, Strings, AllSendable, NoWrites, KeepsKeys, NoExpiry, Charge;
  }

  lemma OwnWaitTracks(s: State, r: nat)
    requires Tracking(s)
    ensures Tracking(Step(s, OwnWait(r)))
  {
    if r in s.remotes {
      assert r in s.m.outlets;
      hide Tracking, Follows, OwnGetAck;
      TrackedOne(s, r);
      OwnWaitFollows(s.m.store, s.m.outlets[r], s.remotes[r]);
      OneTracks(s, r, s.m.outlets[r], OwnGetAck(s.remotes[r]));
    }
  }

  lemma StepTracks(s: State, e: Event)
    requires Tracking(s) && ExpiryFree(e)
    ensures Tracking(Step(s, e))
  {
    assert (e.Receive? ==> SetsNoExpiry(e.c)) && (e.Join? ==> NoExpiry(e.start));
    hide *;
    match e
    case Receive(who, c, now) =>
      ReceiveTracks(s, who, c, now);
      StepIs(s, e);
    case Join(start) => JoinTracks(s, start);
    case Psync(r, order, ctime) => PsyncTracks(s, r, order, ctime);
    case GetAckTick => TickTracks(s, e);
    case PingTick(r) => TickTracks(s, e);
    case Send(r, i) => SendTracks(s, r, i);
    case Take(r, now) => TakeTracks(s, r, now);
    case AckArrives(r) => AckTracks(s, r);
    case Drop(r) => DropTracks(s, r);
    case OwnWait(r) => OwnWaitTracks(s, r);
  }

  lemma StepIs(s: State, e: Event)
    requires e.Receive?
    ensures Step(s, e) == s.(m := Handle(s.m, e.who, e.c, e.now))
  {
    hide Handle;
  }

  lemma TickTracks(s: State, e: Event)
    requires Tracking(s) && (e.GetAckTick? || e.PingTick?)
    ensures Tracking(Step(s, e))
  {
    hide Tracking, Charge;
    ChargesTrack(s, Step(s, e).m);
  }

  lemma DropTracks(s: State, r: nat)
    requires Tracking(s)
    ensures Tracking(Step(s, Drop(r)))
  {
    hide Follows, NoExpiry;
  }

  lemma {:induction false} RunTracks(s: State, es: seq<Event>)
    requires Tracking(s) && AllExpiryFree(es)
    ensures Tracking(Run(s, es))
    decreases |es|
  {
    hide Tracking, Step, ExpiryFree;
    if es != [] {
      StepTracks(s, es[0]);
      RunTracks(Step(s, es[0]), es[1..]);
    }
  }

  lemma InitTracks(store: Store)
    requires NoExpiry(store)
    ensures Tracking(Init(store))
  {
  }

  // ---- The results ----------------------------------------------------------------------------

  /** What the strings of replica r will be once it has taken all that is on its wire. */
  function Destined(s: State, r: nat): map<bytes, bytes>
    requires r in s.m.outlets && r in s.remotes && s.remotes[r].taken <= |s.m.outlets[r].sent|
  {
    Strings(Replay(s.remotes[r].store, Wire(s.m.outlets[r], s.remotes[r])))
  }

  /** Convergence: after any run, a replica in line that takes what is still on its wire has exactly
      the master's strings; one with nothing left on its wire has them already. */
  lemma Convergence(store: Store, es: seq<Event>, r: nat)
    requires NoExpiry(store) && AllExpiryFree(es) && r in Run(Init(store), es).m.outlets
    ensures var s := Run(Init(store), es);
      && r in s.remotes && s.remotes[r].taken <= |s.m.outlets[r].sent|
      && (s.remotes[r].exact ==> Destined(s, r) == Strings(s.m.store))
      && (s.remotes[r].exact && s.remotes[r].taken == |s.m.outlets[r].sent| ==> Strings(s.remotes[r].store) == Strings(s.m.store))
  {
    InitTracks(store);
    hide Tracking, Run, Init, Replay, Strings, NoExpiry;
    RunTracks(Init(store), es);
    var s := Run(Init(store), es);
    TrackedOne(s, r);
    if s.remotes[r].taken == |s.m.outlets[r].sent| {
      ReplayNothing(s.remotes[r].store);
    }
  }

  lemma ReplayNothing(store: Store)
    ensures Replay(store, []) == store
  {
  }

  /** A full resynchronization puts a replica in line exactly if there is something to restore, it was
      in line already, or it came without strings: an empty snapshot is not restored. */
  lemma ResyncConverges(store: Store, es: seq<Event>, r: nat, order: seq<bytes>, ctime: int)
    requires NoExpiry(store) && AllExpiryFree(es)
    requires var s := Run(Init(store), es); r in s.m.outlets && WellFormed(Snapshot(s.m.store, order, ctime))
    ensures var s := Run(Init(store), es);
      var s' := Step(s, Psync(r, order, ctime));
      && r in s.remotes && r in s'.m.outlets && r in s'.remotes && s'.remotes[r].taken <= |s'.m.outlets[r].sent|
      && (Destined(s', r) == Strings(s'.m.store) <==> InLine(s, r))
  {
    InitTracks(store);
    hide Tracking, Run, Init, Replay, Strings, NoExpiry, WellFormed, Follows;
    RunTracks(Init(store), es);
    var s := Run(Init(store), es);
    var s' := Step(s, Psync(r, order, ctime));
    TrackedOne(s, r);
    PsyncTracks(s, r, order, ctime);
    assert s'.m.store == s.m.store && s'.remotes[r] == s.remotes[r].(exact := InLine(s, r));
    TrackedOne(s', r);
    DestinedIff(s', r);
    EmptyStrings();
  }

  lemma EmptyStrings()
    ensures Strings(map[]) == map[]
  {
  }

  lemma DestinedIff(s: State, r: nat)
    requires r in s.m.outlets && r in s.remotes && Follows(s.m.store, s.m.outlets[r], s.remotes[r])
    ensures s.remotes[r].taken <= |s.m.outlets[r].sent|
    ensures s.remotes[r].exact ==> Destined(s, r) == Strings(s.m.store)
    ensures !s.remotes[r].exact && Strings(s.m.store) == map[] && Strings(s.remotes[r].start) != map[] ==> Destined(s, r) != Strings(s.m.store)
  {
    hide Replay, NoExpiry, Strings;
    if !s.remotes[r].exact && Strings(s.remotes[r].start) != map[] {
      assert Strings(s.remotes[r].start).Keys != {};
    }
  }

  // ---- Replicas that are not in line ----------------------------------------------------------

  /** A replica that no PSYNC has put in line keeps the string keys it came with, in every reachable state:
      it cannot agree with the master before the master has all of them. */
  lemma OwnKeysStay(store: Store, es: seq<Event>, r: nat)
    requires NoExpiry(store) && AllExpiryFree(es)
    requires var s := Run(Init(store), es); r in s.m.outlets && r in s.remotes && !s.remotes[r].exact
    ensures var s := Run(Init(store), es);
      && s.remotes[r].taken <= |s.m.outlets[r].sent|
      && Strings(s.remotes[r].start).Keys <= Destined(s, r).Keys
      && (Destined(s, r) == Strings(s.m.store) ==> Strings(s.remotes[r].start).Keys <= Strings(s.m.store).Keys)
  {
    InitTracks(store);
    hide Tracking, Run, Init, Replay, Strings, NoExpiry;
    RunTracks(Init(store), es);
    TrackedOne(Run(Init(store), es), r);
  }

  /** Other steps neither put a replica in line nor change what it came with. */
  lemma OnlyPsyncPutsInLine(s: State, e: Event, r: nat)
    requires r in s.remotes && r < s.next && r in Step(s, e).remotes && !(e.Psync? && e.r == r)
    ensures Step(s, e).remotes[r].exact == s.remotes[r].exact && Step(s, e).remotes[r].start == s.remotes[r].start
    ensures r < Step(s, e).next
  {
    hide Handle, ChargeGetAck, ChargePing, WellFormed, InLine, Without, Applied, Count, Lost;
  }

  lemma {:induction false} NotInLineMeanwhile(s: State, es: seq<Event>, r: nat)
    requires Good(s) && r in s.remotes && r in Run(s, es).remotes
    requires forall i :: 0 <= i < |es| ==> !(es[i].Psync? && es[i].r == r)
    ensures Run(s, es).remotes[r].exact == s.remotes[r].exact && Run(s, es).remotes[r].start == s.remotes[r].start
    decreases |es|
  {
    if es != [] {
      assert r < s.next;
      StepOk(s, es[0]);
      RunFirst(s, es);
      hide Step, Good, Run;
      var s1 := Step(s, es[0]);
      if r in s1.remotes {
        OnlyPsyncPutsInLine(s, es[0], r);
        NotInLineMeanwhile(s1, es[1..], r);
      } else {
        NextGrows(s, es[0]);
        GoneForGood(s1, es[1..], r);
      }
    }
  }

  lemma NextGrows(s: State, e: Event)
    ensures s.next <= Step(s, e).next
  {
    hide Handle, ChargeGetAck, ChargePing, WellFormed, InLine, TakeNext, Without;
  }

  /** After a PSYNC that does not put the replica in line, and until it resynchronizes again, it stays apart
      from the master at least as long as the master lacks one of the keys that the replica came with. */
  lemma StaysApart(store: Store, es: seq<Event>, r: nat, order: seq<bytes>, ctime: int, later: seq<Event>, k: bytes)
    requires NoExpiry(store) && AllExpiryFree(es) && AllExpiryFree(later)
    requires var s := Run(Init(store), es);
      && r in s.m.outlets && WellFormed(Snapshot(s.m.store, order, ctime)) && r in s.remotes && !InLine(s, r)
      && k in Strings(s.remotes[r].start)
    requires forall i :: 0 <= i < |later| ==> !(later[i].Psync? && later[i].r == r)
    ensures var s := Run(Init(store), es + ([Psync(r, order, ctime)] + later));
      r in s.m.outlets ==>
        && r in s.remotes && s.remotes[r].taken <= |s.m.outlets[r].sent| && k in Destined(s, r)
        && (k !in Strings(s.m.store) ==> Destined(s, r) != Strings(s.m.store))
  {
    hide *;
    InitGood(store);
    RunOk(Init(store), es);
    var s := Run(Init(store), es);
    var later' := [Psync(r, order, ctime)] + later;
    RunConcat(Init(store), es, later');
    ApartMeanwhile(s, r, order, ctime, later);
    ExpiryFreeAround(es, r, order, ctime, later);
    if r in Run(s, later').m.outlets {
      OwnKeysStay(store, es + later', r);
    }
  }

  lemma ExpiryFreeAround(es: seq<Event>, r: nat, order: seq<bytes>, ctime: int, later: seq<Event>)
    requires AllExpiryFree(es) && AllExpiryFree(later)
    ensures AllExpiryFree(es + ([Psync(r, order, ctime)] + later))
  {
    assert ExpiryFree(Psync(r, order, ctime));
    hide ExpiryFree;
  }

  lemma ApartMeanwhile(s: State, r: nat, order: seq<bytes>, ctime: int, later: seq<Event>)
    requires Good(s) && r in s.m.outlets && r in s.remotes && WellFormed(Snapshot(s.m.store, order, ctime)) && !InLine(s, r)
    requires forall i :: 0 <= i < |later| ==> !(later[i].Psync? && later[i].r == r)
    ensures var s' := Run(s, [Psync(r, order, ctime)] + later);
      r in s'.m.outlets ==> r in s'.remotes && !s'.remotes[r].exact && s'.remotes[r].start == s.remotes[r].start
  {
    var e := Psync(r, order, ctime);
    RunConcat(s, [e], later);
    RunOneEvent(s, e);
    PsyncOk(s, r, order, ctime);
    var s1 := Step(s, e);
    NotPutInLine(s, r, order, ctime);
    RunOk(s1, later);
    SameKeys(Run(s1, later));
    hide Good, Run, WellFormed, InLine, Step;
    if r in Run(s1, later).m.outlets {
      NotInLineMeanwhile(s1, later, r);
    }
  }

  lemma NotPutInLine(s: State, r: nat, order: seq<bytes>, ctime: int)
    requires r in s.m.outlets && r in s.remotes && WellFormed(Snapshot(s.m.store, order, ctime)) && !InLine(s, r)
    ensures var s' := Step(s, Psync(r, order, ctime));
      r in s'.remotes && !s'.remotes[r].exact && s'.remotes[r].start == s.remotes[r].start
  {
    hide WellFormed, InLine;
  }

  lemma RunOneEvent(s: State, e: Event)
    ensures Run(s, [e]) == Step(s, e)
  {
    hide Step;
    assert [e][1..] == [];
    assert Run(Step(s, e), []) == Step(s, e);
  }
}
