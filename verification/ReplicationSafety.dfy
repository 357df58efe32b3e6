/** What holds in every reachable state: no charged byte is lost sight of, acknowledgements stay
    behind execution, and so WAIT counts only replicas that have executed the write. */
module ReplicationSafety {
  import opened Bytes
  import opened RdbFormat
  import opened Commands
  import opened Replication
  import opened ReplicationCharges
  import Framing

  // ---- Sums over what was sent ----------------------------------------------------------------

  lemma AppendItem(items: seq<Item>, i: Item)
    ensures ChargeAll(items + [i]) == ChargeAll(items) + Charge(i)
    ensures WritesOf(items + [i]) == WritesOf(items) + if i.Write? then [i.c] else []
    ensures forall p :: 0 <= p <= |items| ==> (items + [i])[..p] == items[..p]
  {
    hide Charge;
    assert (items + [i])[..|items|] == items;
  }

  lemma {:induction false} AppendItems(a: seq<Item>, b: seq<Item>)
    ensures ChargeAll(a + b) == ChargeAll(a) + ChargeAll(b)
    ensures WritesOf(a + b) == WritesOf(a) + WritesOf(b)
    decreases |b|
  {
    hide Charge;
    if b == [] {
      assert a + b == a;
    } else {
      var init, last := b[..|b| - 1], b[|b| - 1];
      AppendItems(a, init);
      AppendItem(a + init, last);
      assert a + b == a + init + [last];
    }
  }

  lemma SumAround(a: seq<Item>, i: Item, b: seq<Item>)
    ensures ChargeAll(a + [i] + b) == ChargeAll(a + b) + Charge(i)
  {
    hide Charge, ChargeAll, WritesOf;
    AppendItems(a, b);
    AppendItem(a, i);
    AppendItems(a + [i], b);
  }

  lemma RemoveItem(items: seq<Item>, i: nat)
    requires i < |items|
    ensures ChargeAll(items) == ChargeAll(Without(items, i)) + Charge(items[i])
  {
    hide Charge, ChargeAll;
    SumAround(items[..i], items[i], items[i + 1..]);
    assert items == items[..i] + [items[i]] + items[i + 1..];
  }

  lemma PrefixSums(items: seq<Item>, p: nat, q: nat)
    requires p <= q <= |items|
    ensures ChargeAll(items[..p]) <= ChargeAll(items[..q])
    ensures |WritesOf(items[..p])| <= |WritesOf(items[..q])|
  {
    hide Charge, ChargeAll, WritesOf;
    AppendItems(items[..p], items[p..q]);
    assert items[..q] == items[..p] + items[p..q];
  }

  /** Write number n of a sequence has a place in it. */
  lemma {:induction false} PlaceOf(items: seq<Item>, n: nat) returns (p: nat)
    requires n < |WritesOf(items)|
    ensures p < |items| && items[p].Write? && |WritesOf(items[..p])| == n && WritesOf(items)[n] == items[p].c
  {
    var init, last := items[..|items| - 1], items[|items| - 1];
    if n < |WritesOf(init)| {
      p := PlaceOf(init, n);
      assert items[..p] == init[..p];
    } else {
      p := |items| - 1;
    }
  }

  // ---- The master's books ---------------------------------------------------------------------

  function CommandsOf(log: seq<Logged>): (cs: seq<Command>)
    ensures |cs| == |log| && forall i :: 0 <= i < |log| ==> cs[i] == log[i].c
  {
    seq(|log|, i requires 0 <= i < |log| => log[i].c)
  }

  predicate NoWrites(items: seq<Item>) {
    forall i :: 0 <= i < |items| ==> items[i].GetAck? || items[i].Ping?
  }

  /** A write was sent no later than the offset that it is logged with: everything sent up to it since the
      registration is charged by then. */
  predicate Covered(log: seq<Logged>, base: nat, first: nat, sent: seq<Item>) {
    forall p :: 0 <= p < |sent| && sent[p].Write? ==> CoveredAt(log, base, first, sent, p)
  }

  predicate CoveredAt(log: seq<Logged>, base: nat, first: nat, sent: seq<Item>, p: nat)
    requires p < |sent|
  {
    var j := first + |WritesOf(sent[..p])|;
    j < |log| && base + ChargeAll(sent[..p + 1]) <= log[j].offset
  }

  /** Every charged byte of a replica is accounted for, and it is sent exactly the writes that were
      propagated since it was registered, in that order. */
  predicate Accounted(offset: nat, log: seq<Logged>, o: Outlet) {
    && o.base + ChargeAll(o.sent) + ChargeAll(o.pending) + o.elsewhere == offset
    && NoWrites(o.pending)
    && o.first <= |log| && WritesOf(o.sent) == CommandsOf(log[o.first..])
    && Covered(log, o.base, o.first, o.sent)
  }

  /** Offsets in the log grow, up to the current one, and each client's last write offset is that of the
      last logged write that came from it, 0 if there is none. */
  ghost predicate LogInOrder(offset: nat, sessions: map<nat, Session>, log: seq<Logged>) {
    && (forall j :: 0 <= j < |log| ==> 0 < log[j].offset <= offset)
    && (forall i, j :: 0 <= i < j < |log| ==> log[i].offset < log[j].offset)
    && (forall who: nat :: SessionOf(sessions, who).lastWrite == LastBy(log, who))
  }

  function LastBy(log: seq<Logged>, who: nat): nat {
    if log == [] then 0
    else if log[|log| - 1].who == who then log[|log| - 1].offset
    else LastBy(log[..|log| - 1], who)
  }

  /** The place of a client's last write in the log. */
  lemma {:induction false} LastByAt(log: seq<Logged>, who: nat) returns (j: nat)
    requires LastBy(log, who) > 0
    ensures j < |log| && log[j].who == who && log[j].offset == LastBy(log, who)
    ensures forall k :: j < k < |log| ==> log[k].who != who
  {
    if log[|log| - 1].who == who {
      j := |log| - 1;
    } else {
      j := LastByAt(log[..|log| - 1], who);
    }
  }

  ghost predicate BooksOk(m: Master) {
    LogInOrder(m.offset, m.sessions, m.log) && forall r :: r in m.outlets ==> Accounted(m.offset, m.log, m.outlets[r])
  }

  /** Nothing is taken back: what has been sent stays sent, in the same order. */
  predicate Extends(m: Master, m': Master) {
    && m.outlets.Keys == m'.outlets.Keys
    && forall r :: r in m.outlets ==> OutletExtends(m.outlets[r], m'.outlets[r])
  }

  predicate OutletExtends(o: Outlet, o': Outlet) {
    o.sent <= o'.sent && o'.acked == o.acked && o'.base == o.base && o'.first == o.first && o.elsewhere <= o'.elsewhere
  }

  lemma CoveredAppend(log: seq<Logged>, more: seq<Logged>, base: nat, first: nat, sent: seq<Item>, i: Item)
    requires Covered(log, base, first, sent)
    requires i.Write? ==> CoveredAt(log + more, base, first, sent + [i], |sent|)
    ensures Covered(log + more, base, first, sent + [i])
  {
    hide ChargeAll, WritesOf;
    var sent' := sent + [i];
    forall p | 0 <= p < |sent'| && sent'[p].Write? ensures CoveredAt(log + more, base, first, sent', p) {
      if p < |sent| {
        assert CoveredAt(log, base, first, sent, p);
        assert sent'[..p] == sent[..p] && sent'[..p + 1] == sent[..p + 1];
      }
    }
  }

  lemma SentWrite(offset: nat, log: seq<Logged>, o: Outlet, who: nat, c: Command)
    requires Accounted(offset, log, o)
    ensures var offset' := offset + Charge(Write(c));
      Accounted(offset', log + [Logged(who, c, offset')], o.(sent := o.sent + [Write(c)]))
  {
    hide ChargeAll, WritesOf, Charge, Covered, NoWrites;
    var offset' := offset + Charge(Write(c));
    var log' := log + [Logged(who, c, offset')];
    var sent' := o.sent + [Write(c)];
    AppendItem(o.sent, Write(c));
    assert log'[o.first..] == log[o.first..] + [Logged(who, c, offset')];
    assert CommandsOf(log'[o.first..]) == CommandsOf(log[o.first..]) + [c];
    assert sent'[..|o.sent|] == o.sent && sent'[..|o.sent| + 1] == sent';
    assert CoveredAt(log', o.base, o.first, sent', |o.sent|);
    CoveredAppend(log, [Logged(who, c, offset')], o.base, o.first, o.sent, Write(c));
  }

  lemma CoveredOther(log: seq<Logged>, base: nat, first: nat, sent: seq<Item>, i: Item)
    requires Covered(log, base, first, sent) && !i.Write?
    ensures Covered(log, base, first, sent + [i])
  {
    hide Covered;
    CoveredAppend(log, [], base, first, sent, i);
    assert log + [] == log;
  }

  lemma SentOther(offset: nat, log: seq<Logged>, o: Outlet, i: Item)
    requires Accounted(offset, log, o) && !i.Write?
    ensures Accounted(offset + Charge(i), log, o.(sent := o.sent + [i]))
  {
    hide ChargeAll, WritesOf, Charge, Covered, NoWrites;
    AppendItem(o.sent, i);
    CoveredOther(log, o.base, o.first, o.sent, i);
  }

  lemma NoWritesWithout(items: seq<Item>, i: nat)
    requires NoWrites(items) && i < |items|
    ensures NoWrites(Without(items, i)) && !items[i].Write?
  {
  }

  lemma SentPending(offset: nat, log: seq<Logged>, o: Outlet, i: nat)
    requires Accounted(offset, log, o) && i < |o.pending|
    ensures Accounted(offset, log, o.(sent := o.sent + [o.pending[i]], pending := Without(o.pending, i)))
  {
    hide ChargeAll, WritesOf, Charge, Covered, NoWrites, Without;
    NoWritesWithout(o.pending, i);
    RemoveItem(o.pending, i);
    AppendItem(o.sent, o.pending[i]);
    CoveredOther(log, o.base, o.first, o.sent, o.pending[i]);
  }

  lemma Charged(offset: nat, log: seq<Logged>, o: Outlet, i: Item)
    requires Accounted(offset, log, o) && (i.GetAck? || i.Ping?)
    ensures Accounted(offset + Charge(i), log, o.(pending := o.pending + [i]))
    ensures Accounted(offset + Charge(i), log, o.(elsewhere := o.elsewhere + Charge(i)))
  {
    hide ChargeAll, WritesOf, Charge, Covered;
    AppendItem(o.pending, i);
  }

  // ---- The master's steps ---------------------------------------------------------------------

  lemma PropagateOk(m: Master, who: nat, c: Command)
    requires BooksOk(m)
    ensures BooksOk(Propagate(m, who, c)) && Extends(m, Propagate(m, who, c))
  {
    var m' := Propagate(m, who, c);
    hide Accounted;
    ChargePositive(Write(c));
    hide Charge;
    forall r | r in m'.outlets ensures Accounted(m'.offset, m'.log, m'.outlets[r]) {
      SentWrite(m.offset, m.log, m.outlets[r], who, c);
    }
    assert m'.log[|m.log|].offset == m'.offset;
    forall k: nat ensures SessionOf(m'.sessions, k).lastWrite == LastBy(m'.log, k) {
      LastByNext(m.log, Logged(who, c, m'.offset), k);
    }
  }

  lemma LastByNext(log: seq<Logged>, x: Logged, who: nat)
    ensures LastBy(log + [x], who) == if x.who == who then x.offset else LastBy(log, who)
  {
    assert (log + [x])[..|log|] == log;
  }

  lemma ChargeGetAckOk(m: Master)
    requires BooksOk(m)
    ensures BooksOk(ChargeGetAck(m)) && Extends(m, ChargeGetAck(m))
  {
    var m' := ChargeGetAck(m);
    hide Accounted, Charge;
    forall r | r in m'.outlets ensures Accounted(m'.offset, m'.log, m'.outlets[r]) {
      Charged(m.offset, m.log, m.outlets[r], GetAck);
    }
  }

  lemma ChargePingOk(m: Master, to: nat)
    requires BooksOk(m)
    ensures BooksOk(ChargePing(m, to)) && Extends(m, ChargePing(m, to))
  {
    var m' := ChargePing(m, to);
    hide Accounted, Charge;
    forall r | r in m'.outlets ensures Accounted(m'.offset, m'.log, m'.outlets[r]) {
      Charged(m.offset, m.log, m.outlets[r], Ping);
    }
  }

  lemma RunOneOk(m: Master, who: nat, c: Command, now: nat, inExec: bool)
    requires BooksOk(m)
    ensures BooksOk(RunOne(m, who, c, now, inExec)) && Extends(m, RunOne(m, who, c, now, inExec))
  {
    hide Execute, Propagate, Accounted;
    var m1 := m.(store := Execute(m.store, c, now).0);
    assert BooksOk(m1) && Extends(m, m1);
    hide BooksOk;
    PropagateOk(m1, who, c);
    ExtendsTrans(m, m1, Propagate(m1, who, c));
  }

  lemma ExtendsTrans(a: Master, b: Master, c: Master)
    requires Extends(a, b) && Extends(b, c)
    ensures Extends(a, c)
  {
    forall r | r in a.outlets ensures OutletExtends(a.outlets[r], c.outlets[r]) {
      assert OutletExtends(a.outlets[r], b.outlets[r]) && OutletExtends(b.outlets[r], c.outlets[r]);
    }
  }

  lemma {:induction false} RunAllOk(m: Master, who: nat, cs: seq<Command>, now: nat, inExec: bool)
    requires BooksOk(m)
    ensures BooksOk(RunAll(m, who, cs, now, inExec)) && Extends(m, RunAll(m, who, cs, now, inExec))
    decreases |cs|
  {
    hide RunOne, BooksOk, Extends;
    if cs == [] {
      ExtendsSelf(m);
    } else {
      var m1 := RunOne(m, who, cs[0], now, inExec);
      RunOneOk(m, who, cs[0], now, inExec);
      RunAllOk(m1, who, cs[1..], now, inExec);
      ExtendsTrans(m, m1, RunAll(m1, who, cs[1..], now, inExec));
    }
  }

  lemma ExtendsSelf(m: Master)
    ensures Extends(m, m)
  {
  }

  lemma HandleOk(m: Master, who: nat, c: Command, now: nat)
    requires BooksOk(m)
    ensures BooksOk(Handle(m, who, c, now)) && Extends(m, Handle(m, who, c, now))
  {
    var s := SessionOf(m.sessions, who);
    var (tx, cs) := Decide(s.tx, c);
    var m1 := m.(sessions := m.sessions[who := s.(tx := tx)]);
    hide Decide, RunAll, ChargeGetAck, Accounted;
    assert BooksOk(m1) && Extends(m, m1);
    hide BooksOk, Extends;
    ChargeGetAckOk(m1);
    var m2 := if Waits(s.tx, c) then ChargeGetAck(m1) else m1;
    ExtendsSelf(m1);
    ExtendsTrans(m, m1, m2);
    RunAllOk(m2, who, cs, now, s.tx.isOpen);
    ExtendsTrans(m, m2, RunAll(m2, who, cs, now, s.tx.isOpen));
  }

  // ---- The replicas ---------------------------------------------------------------------------

  const GETACK_LENGTH: nat := 37

  /** Acknowledgements do not go down, and each answers a GETACK that was counted after it. */
  predicate AcksInOrder(acked: nat, acks: seq<nat>, processed: nat) {
    && (acked == 0 || acked + GETACK_LENGTH <= processed)
    && (forall i :: 0 <= i < |acks| ==> acked <= acks[i] && acks[i] + GETACK_LENGTH <= processed)
    && (forall i, j :: 0 <= i < j < |acks| ==> acks[i] <= acks[j])
  }

  /** A replica has counted and executed what it has taken, and besides that only what it charged for WAITs
      of its own clients; it has acknowledged no more than it has counted. */
  predicate CaughtUp(o: Outlet, x: Remote) {
    && x.taken <= |o.sent|
    && x.processed + x.lost == ChargeAll(o.sent[..x.taken]) + GETACK_LENGTH * x.own
    && x.executed == WritesOf(o.sent[..x.taken])
    && x.lost == 2 * EndingEarly(x.executed)
    && AcksInOrder(o.acked, x.acks, x.processed)
  }

  /** The commands among them that are delivered two bytes short. */
  function EndingEarly(cs: seq<Command>): nat {
    if cs == [] then 0
    else EndingEarly(cs[..|cs| - 1]) + if Framing.EndsEarly(AsResp(cs[|cs| - 1])) then 1 else 0
  }

  ghost predicate Good(s: State) {
    && BooksOk(s.m)
    && s.m.outlets.Keys == s.remotes.Keys
    && (forall r :: r in s.remotes ==> r < s.next && CaughtUp(s.m.outlets[r], s.remotes[r]))
  }

  lemma StillCaughtUp(o: Outlet, o': Outlet, x: Remote)
    requires CaughtUp(o, x) && OutletExtends(o, o')
    ensures CaughtUp(o', x)
  {
    assert o'.sent[..x.taken] == o.sent[..x.taken];
  }

  lemma AllStillCaughtUp(s: State, m': Master)
    requires Good(s) && BooksOk(m') && Extends(s.m, m')
    ensures Good(s.(m := m'))
  {
    hide CaughtUp, BooksOk, OutletExtends;
    forall r | r in s.remotes ensures CaughtUp(m'.outlets[r], s.remotes[r]) {
      StillCaughtUp(s.m.outlets[r], m'.outlets[r], s.remotes[r]);
    }
  }

  lemma TakeOk(o: Outlet, x: Remote, now: nat)
    requires CaughtUp(o, x) && x.taken < |o.sent|
    ensures CaughtUp(o, TakeNext(x, o.sent[x.taken], now))
  {
    var i := o.sent[x.taken];
    var prefix := o.sent[..x.taken];
    assert o.sent[..x.taken + 1] == prefix + [i];
    AppendItem(prefix, i);
    CountOfItem(i);
    FixedCharges();
    hide *;
    TakeCounts(o, x, i, now);
  }

  lemma TakeCounts(o: Outlet, x: Remote, i: Item, now: nat)
    requires CaughtUp(o, x) && x.taken < |o.sent|
    requires ChargeAll(o.sent[..x.taken + 1]) == ChargeAll(o.sent[..x.taken]) + Charge(i)
    requires WritesOf(o.sent[..x.taken + 1]) == WritesOf(o.sent[..x.taken]) + if i.Write? then [i.c] else []
    requires Count(i) + Lost(i) == Charge(i) && Lost(i) == if i.Write? && Framing.EndsEarly(AsResp(i.c)) then 2 else 0
    requires i.GetAck? ==> Charge(i) == GETACK_LENGTH
    ensures CaughtUp(o, TakeNext(x, i, now))
  {
    hide ChargeAll, WritesOf, Charge, Count, Lost, Applied, Framing.EndsEarly, AsResp;
    if i.Write? {
      assert (x.executed + [i.c])[..|x.executed|] == x.executed;
    }
  }

  lemma AckOk(o: Outlet, x: Remote)
    requires CaughtUp(o, x) && x.acks != []
    ensures CaughtUp(o.(acked := x.acks[0]), x.(acks := x.acks[1..])) && o.acked <= x.acks[0]
  {
    hide ChargeAll, WritesOf, EndingEarly;
  }

  // ---- Every step -----------------------------------------------------------------------------

  /** One outlet changes for another one. */
  lemma OneOutlet(s: State, r: nat, o: Outlet, x: Remote)
    requires Good(s) && r in s.m.outlets && Accounted(s.m.offset, s.m.log, o) && CaughtUp(o, x)
    ensures Good(s.(m := s.m.(outlets := s.m.outlets[r := o]), remotes := s.remotes[r := x]))
  {
    hide Accounted, CaughtUp, LogInOrder;
  }

  lemma SameRemote(s: State, r: nat)
    requires Good(s) && r in s.m.outlets
    ensures r in s.remotes && Accounted(s.m.offset, s.m.log, s.m.outlets[r]) && CaughtUp(s.m.outlets[r], s.remotes[r])
    ensures s.m.outlets[r := s.m.outlets[r]] == s.m.outlets && s.remotes[r := s.remotes[r]] == s.remotes
  {
    hide Accounted, CaughtUp;
  }

  lemma NewOutlet(m: Master, start: Store)
    requires BooksOk(m)
    ensures Accounted(m.offset, m.log, Outlet(0, [], [], m.offset, |m.log|, 0))
    ensures CaughtUp(Outlet(0, [], [], m.offset, |m.log|, 0), NewRemote(start))
  {
    assert m.log[|m.log|..] == [];
  }

  lemma JoinOk(s: State, start: Store)
    requires Good(s)
    ensures Good(Step(s, Join(start)))
  {
    NewOutlet(s.m, start);
    hide Accounted, CaughtUp, LogInOrder;
  }

  lemma PsyncOk(s: State, r: nat, order: seq<bytes>, ctime: int)
    requires Good(s)
    ensures Good(Step(s, Psync(r, order, ctime)))
  {
    var i := Snapshot(s.m.store, order, ctime);
    hide WellFormed, InLine, Good, Accounted;
    if r in s.m.outlets && r in s.remotes && WellFormed(i) {
      SameRemote(s, r);
      var o, x := s.m.outlets[r], s.remotes[r];
      SentOther(s.m.offset, s.m.log, o, i);
      var o' := o.(sent := o.sent + [i]);
      StillCaughtUp(o, o', x);
      assert CaughtUp(o', x.(exact := InLine(s, r)));
      OneOutlet(s, r, o', x.(exact := InLine(s, r)));
    }
  }

  lemma SendOk(s: State, r: nat, i: nat)
    requires Good(s)
    ensures Good(Step(s, Send(r, i)))
  {
    hide Good, Accounted, CaughtUp;
    if r in s.m.outlets && i < |s.m.outlets[r].pending| {
      SameRemote(s, r);
      var o, x := s.m.outlets[r], s.remotes[r];
      SentPending(s.m.offset, s.m.log, o, i);
      var o' := o.(sent := o.sent + [o.pending[i]], pending := Without(o.pending, i));
      StillCaughtUp(o, o', x);
      OneOutlet(s, r, o', x);
    }
  }

  lemma TakeStepOk(s: State, r: nat, now: nat)
    requires Good(s)
    ensures Good(Step(s, Take(r, now)))
  {
    hide Good, Accounted, CaughtUp, TakeNext;
    if r in s.m.outlets && r in s.remotes && s.remotes[r].taken < |s.m.outlets[r].sent| {
      SameRemote(s, r);
      var o, x := s.m.outlets[r], s.remotes[r];
      TakeOk(o, x, now);
      OneOutlet(s, r, o, TakeNext(x, o.sent[x.taken], now));
    }
  }

  lemma AckedAccounted(offset: nat, log: seq<Logged>, o: Outlet, acked: nat)
    requires Accounted(offset, log, o)
    ensures Accounted(offset, log, o.(acked := acked))
  {
  }

  lemma AckStepOk(s: State, r: nat)
    requires Good(s)
    ensures Good(Step(s, AckArrives(r)))
  {
    hide Good, Accounted, CaughtUp;
    if r in s.m.outlets && r in s.remotes && s.remotes[r].acks != [] {
      SameRemote(s, r);
      var o, x := s.m.outlets[r], s.remotes[r];
      AckOk(o, x);
      var o' := o.(acked := x.acks[0]);
      AckedAccounted(s.m.offset, s.m.log, o, x.acks[0]);
      OneOutlet(s, r, o', x.(acks := x.acks[1..]));
    }
  }

  lemma OwnGetAckOk(o: Outlet, x: Remote)
    requires CaughtUp(o, x)
    ensures CaughtUp(o, OwnGetAck(x))
  {
    FixedCharges();
    hide ChargeAll, WritesOf, EndingEarly, Charge;
  }

  lemma OwnWaitOk(s: State, r: nat)
    requires Good(s)
    ensures Good(Step(s, OwnWait(r)))
  {
    hide Good, Accounted, CaughtUp, OwnGetAck;
    if r in s.remotes {
      assert r in s.m.outlets by {
        SameKeys(s);
      }
      SameRemote(s, r);
      OwnGetAckOk(s.m.outlets[r], s.remotes[r]);
      OneOutlet(s, r, s.m.outlets[r], OwnGetAck(s.remotes[r]));
    }
  }

  lemma DropOk(s: State, r: nat)
    requires Good(s)
    ensures Good(Step(s, Drop(r)))
  {
    hide Accounted, CaughtUp, LogInOrder;
  }

  lemma StepOk(s: State, e: Event)
    requires Good(s)
    ensures Good(Step(s, e))
  {
    hide Good, Handle, ChargeGetAck, ChargePing;
    match e
    case Receive(who, c, now) =>
      BooksOf(s);
      HandleOk(s.m, who, c, now);
      AllStillCaughtUp(s, Handle(s.m, who, c, now));
    case Join(start) => JoinOk(s, start);
    case Psync(r, order, ctime) => PsyncOk(s, r, order, ctime);
    case GetAckTick =>
      BooksOf(s);
      ChargeGetAckOk(s.m);
      AllStillCaughtUp(s, ChargeGetAck(s.m));
    case PingTick(r) =>
      BooksOf(s);
      ChargePingOk(s.m, r);
      AllStillCaughtUp(s, ChargePing(s.m, r));
    case Send(r, i) => SendOk(s, r, i);
    case Take(r, now) => TakeStepOk(s, r, now);
    case AckArrives(r) => AckStepOk(s, r);
    case Drop(r) => DropOk(s, r);
    case OwnWait(r) => OwnWaitOk(s, r);
  }

  lemma BooksOf(s: State)
    requires Good(s)
    ensures BooksOk(s.m)
  {
  }

  lemma {:induction false} RunOk(s: State, es: seq<Event>)
    requires Good(s)
    ensures Good(Run(s, es))
    decreases |es|
  {
    hide Good, Step;
    if es != [] {
      StepOk(s, es[0]);
      RunOk(Step(s, es[0]), es[1..]);
    }
  }

  lemma InitGood(store: Store)
    ensures Good(Init(store))
  {
  }

  // ---- The results ----------------------------------------------------------------------------

  /** Conservation: after any run, for every registered replica, the master's offset is the offset at
      its registration, plus the bytes the replica has counted for the master and those it missed, plus the
      bytes on its wire and those of pending sends, plus the pings charged for others since. What a replica
      has counted is more by one GETACK for every WAIT that it received itself. */
  lemma OffsetConservation(store: Store, es: seq<Event>, r: nat)
    requires r in Run(Init(store), es).m.outlets
    ensures var s := Run(Init(store), es);
      && r in s.remotes
      && var o, x := s.m.outlets[r], s.remotes[r];
      && x.taken <= |o.sent|
      && s.m.offset + GETACK_LENGTH * x.own ==
          o.base + x.processed + 2 * EndingEarly(x.executed) + ChargeAll(o.sent[x.taken..]) + ChargeAll(o.pending) + o.elsewhere
      && (o.acked == 0 || o.acked + GETACK_LENGTH <= x.processed) && x.processed <= s.m.offset + GETACK_LENGTH * x.own
  {
    hide ChargeAll, WritesOf, EndingEarly, Good, Run, Init;
    InitGood(store);
    RunOk(Init(store), es);
    var s := Run(Init(store), es);
    SameRemote(s, r);
    var o, x := s.m.outlets[r], s.remotes[r];
    AppendItems(o.sent[..x.taken], o.sent[x.taken..]);
    assert o.sent == o.sent[..x.taken] + o.sent[x.taken..];
  }

  /** Acknowledged offsets never decrease. */
  lemma AcksNeverDecrease(s: State, e: Event, r: nat)
    requires Good(s) && r in s.m.outlets && r in Step(s, e).m.outlets
    ensures s.m.outlets[r].acked <= Step(s, e).m.outlets[r].acked
  {
    BooksOf(s);
    assert r < s.next;
    SameRemote(s, r);
    if s.remotes[r].acks != [] {
      AckOk(s.m.outlets[r], s.remotes[r]);
    }
    hide *;
    if e.Receive? {
      HandleOk(s.m, e.who, e.c, e.now);
      AckedSame(s.m, Handle(s.m, e.who, e.c, e.now), r);
      MasterStep(s, e);
    } else if e.GetAckTick? {
      ChargeGetAckOk(s.m);
      AckedSame(s.m, ChargeGetAck(s.m), r);
      MasterStep(s, e);
    } else if e.PingTick? {
      ChargePingOk(s.m, e.r);
      AckedSame(s.m, ChargePing(s.m, e.r), r);
      MasterStep(s, e);
    } else {
      AckedElsewhere(s, e, r);
    }
  }

  lemma MasterStep(s: State, e: Event)
    requires e.Receive? || e.GetAckTick? || e.PingTick?
    ensures Step(s, e).m == if e.Receive? then Handle(s.m, e.who, e.c, e.now) else if e.GetAckTick? then ChargeGetAck(s.m) else ChargePing(s.m, e.r)
  {
    hide Handle, ChargeGetAck, ChargePing;
  }

  lemma AckedElsewhere(s: State, e: Event, r: nat)
    requires r in s.m.outlets && r in s.remotes && r < s.next && r in Step(s, e).m.outlets
    requires s.remotes[r].acks != [] ==> s.m.outlets[r].acked <= s.remotes[r].acks[0]
    requires !e.Receive? && !e.GetAckTick? && !e.PingTick?
    ensures s.m.outlets[r].acked <= Step(s, e).m.outlets[r].acked
  {
    hide Handle, ChargeGetAck, ChargePing, WellFormed, InLine, TakeNext, Without;
  }

  lemma AckedSame(m: Master, m': Master, r: nat)
    requires Extends(m, m') && r in m.outlets
    ensures r in m'.outlets && m'.outlets[r].acked == m.outlets[r].acked
  {
    assert OutletExtends(m.outlets[r], m'.outlets[r]);
  }

  /** The WAITs that a replica has received itself do not make up for the write, the GETACK that it was to
      answer before it, and the offset that it never had to count. */
  predicate Trusted(o: Outlet, x: Remote, c: Command) {
    GETACK_LENGTH * x.own < GETACK_LENGTH + o.base + Charge(Write(c))
  }

  /** Safety of WAIT: a registered replica whose acknowledgement has reached the offset of a write that was
      propagated to it has executed that write, and all that were propagated to it before, as long as it did
      not receive too many WAITs itself. */
  lemma WaitSafety(store: Store, es: seq<Event>, r: nat, j: nat)
    requires var s := Run(Init(store), es);
      && r in s.m.outlets && r in s.remotes && j < |s.m.log| && s.m.outlets[r].first <= j
      && s.m.outlets[r].acked >= s.m.log[j].offset && Trusted(s.m.outlets[r], s.remotes[r], s.m.log[j].c)
    ensures forall k :: Run(Init(store), es).m.outlets[r].first <= k <= j ==> HasExecuted(Run(Init(store), es), r, k)
  {
    hide Good, Run, Init, HasExecuted, Trusted;
    InitGood(store);
    RunOk(Init(store), es);
    WaitSafetyIn(Run(Init(store), es), r, j);
  }

  lemma WaitSafetyIn(s: State, r: nat, j: nat)
    requires Good(s) && r in s.m.outlets && r in s.remotes && j < |s.m.log| && s.m.outlets[r].first <= j
    requires s.m.outlets[r].acked >= s.m.log[j].offset && Trusted(s.m.outlets[r], s.remotes[r], s.m.log[j].c)
    ensures forall k :: s.m.outlets[r].first <= k <= j ==> HasExecuted(s, r, k)
  {
    hide *;
    SameRemote(s, r);
    ExecutedByThen(s.m.offset, s.m.log, s.m.outlets[r], s.remotes[r], j);
    ExecutedInPlace(s, r, j);
  }

  lemma ExecutedInPlace(s: State, r: nat, j: nat)
    requires r in s.m.outlets && r in s.remotes && s.m.outlets[r].first <= j < |s.m.log|
    requires var o, x := s.m.outlets[r], s.remotes[r];
      |x.executed| > j - o.first && forall k :: o.first <= k <= j ==> x.executed[k - o.first] == s.m.log[k].c
    ensures forall k :: s.m.outlets[r].first <= k <= j ==> HasExecuted(s, r, k)
  {
  }

  /** Replica r has executed write number j of the log, in its place. */
  predicate HasExecuted(s: State, r: nat, j: nat) {
    && r in s.m.outlets && r in s.remotes && j < |s.m.log| && s.m.outlets[r].first <= j
    && j - s.m.outlets[r].first < |s.remotes[r].executed|
    && s.remotes[r].executed[j - s.m.outlets[r].first] == s.m.log[j].c
  }

  lemma ExecutedByThen(offset: nat, log: seq<Logged>, o: Outlet, x: Remote, j: nat)
    requires Accounted(offset, log, o) && CaughtUp(o, x) && o.first <= j < |log| && o.acked >= log[j].offset && Trusted(o, x, log[j].c)
    ensures |x.executed| > j - o.first && forall k :: o.first <= k <= j ==> x.executed[k - o.first] == log[k].c
  {
    hide Charge, ChargeAll, WritesOf, EndingEarly;
    var n := j - o.first;
    if |x.executed| <= n {
      var p := PlaceOf(o.sent, n);
      assert o.sent[p].c == CommandsOf(log[o.first..])[n] == log[j].c;
      assert CoveredAt(log, o.base, o.first, o.sent, p);
      if p < x.taken {
        AppendItem(o.sent[..p], o.sent[p]);
        assert o.sent[..p + 1] == o.sent[..p] + [o.sent[p]];
        PrefixSums(o.sent, p + 1, x.taken);
      } else {
        AppendItem(o.sent[..p], o.sent[p]);
        assert o.sent[..p + 1] == o.sent[..p] + [o.sent[p]];
        ChargePositive(o.sent[p]);
        PrefixSums(o.sent, x.taken, p);
      }
    }
    AppendItems(o.sent[..x.taken], o.sent[x.taken..]);
    assert o.sent == o.sent[..x.taken] + o.sent[x.taken..];
    forall k | o.first <= k <= j ensures x.executed[k - o.first] == log[k].c {
      assert WritesOf(o.sent)[k - o.first] == CommandsOf(log[o.first..])[k - o.first] == log[k].c;
    }
  }

  // ---- WAIT -----------------------------------------------------------------------------------

  /** The replicas that `GetReplicaAcknowledgedCount` counts. */
  function Acknowledged(outlets: map<nat, Outlet>, offset: nat): set<nat> {
    set r | r in outlets && outlets[r].acked >= offset
  }

  /** Write number j is the last one that the client had propagated in state s0; it is still where it was in
      the log of s1, and the replicas that s1 counts for its offset, that were registered when it was
      propagated and that are to be trusted have executed it. */
  predicate CountedHaveExecuted(s0: State, s1: State, who: nat, j: nat) {
    && j < |s0.m.log| && s0.m.log <= s1.m.log && s0.m.log[j].offset == SessionOf(s0.m.sessions, who).lastWrite
    && s0.m.log[j].who == who && (forall k :: j < k < |s0.m.log| ==> s0.m.log[k].who != who)
    && forall r :: r in Acknowledged(s1.m.outlets, s0.m.log[j].offset) && s1.m.outlets[r].first <= j ==>
      r in s1.remotes && (Trusted(s1.m.outlets[r], s1.remotes[r], s0.m.log[j].c) ==> HasExecuted(s1, r, j))
  }

  /** WAIT reads the client's offset once, in one state, and counts in later ones, while this and other
      clients go on writing. Whatever it counts: the offset is that of the client's last write propagated
      before WAIT began, and every counted replica that was registered when that write was propagated and is to
      be trusted has executed it. */
  lemma WaitCountsExecuted(store: Store, es: seq<Event>, more: seq<Event>, who: nat)
    requires SessionOf(Run(Init(store), es).m.sessions, who).lastWrite > 0
    ensures exists j: nat :: CountedHaveExecuted(Run(Init(store), es), Run(Init(store), es + more), who, j)
  {
    hide Good, Run, Init, CountedHaveExecuted;
    InitGood(store);
    RunOk(Init(store), es);
    RunConcat(Init(store), es, more);
    var j := WaitCountsIn(Run(Init(store), es), more, who);
  }

  lemma WaitCountsIn(s0: State, more: seq<Event>, who: nat) returns (j: nat)
    requires Good(s0) && SessionOf(s0.m.sessions, who).lastWrite > 0
    ensures CountedHaveExecuted(s0, Run(s0, more), who, j)
  {
    j := LastByAt(s0.m.log, who);
    var s1 := Run(s0, more);
    RunOk(s0, more);
    LogGrows(s0, more);
    SameKeys(s1);
    hide Good, HasExecuted, LastBy, Run, Trusted;
    var at := s0.m.log[j].offset;
    assert s1.m.log[j] == s0.m.log[j];
    forall r | r in Acknowledged(s1.m.outlets, at) && s1.m.outlets[r].first <= j
      ensures r in s1.remotes && (Trusted(s1.m.outlets[r], s1.remotes[r], s1.m.log[j].c) ==> HasExecuted(s1, r, j))
    {
      if Trusted(s1.m.outlets[r], s1.remotes[r], s1.m.log[j].c) {
        WaitSafetyIn(s1, r, j);
      }
    }
  }

  /** The log only grows. */
  lemma {:induction false} LogGrows(s: State, es: seq<Event>)
    ensures s.m.log <= Run(s, es).m.log
    decreases |es|
  {
    if es != [] {
      StepLogGrows(s, es[0]);
      hide Step;
      LogGrows(Step(s, es[0]), es[1..]);
    }
  }

  lemma StepLogGrows(s: State, e: Event)
    ensures s.m.log <= Step(s, e).m.log
  {
    if e.Receive? {
      HandleLogGrows(s.m, e.who, e.c, e.now);
      hide Handle;
    } else {
      hide ChargeGetAck, ChargePing, WellFormed, InLine, TakeNext, Without;
      ChargesKeepLog(s.m, if e.PingTick? then e.r else 0);
    }
  }

  lemma ChargesKeepLog(m: Master, r: nat)
    ensures ChargeGetAck(m).log == m.log && ChargePing(m, r).log == m.log
  {
    hide Charge;
  }

  lemma HandleLogGrows(m: Master, who: nat, c: Command, now: nat)
    ensures m.log <= Handle(m, who, c, now).log
  {
    var s := SessionOf(m.sessions, who);
    var (tx, cs) := Decide(s.tx, c);
    var m1 := m.(sessions := m.sessions[who := s.(tx := tx)]);
    ChargesKeepLog(m1, 0);
    hide ChargeGetAck, Decide, RunAll;
    RunAllLogGrows(if Waits(s.tx, c) then ChargeGetAck(m1) else m1, who, cs, now, s.tx.isOpen);
  }

  lemma {:induction false} RunAllLogGrows(m: Master, who: nat, cs: seq<Command>, now: nat, inExec: bool)
    ensures m.log <= RunAll(m, who, cs, now, inExec).log
    decreases |cs|
  {
    if cs != [] {
      RunOneLogGrows(m, who, cs[0], now, inExec);
      hide RunOne;
      RunAllLogGrows(RunOne(m, who, cs[0], now, inExec), who, cs[1..], now, inExec);
    }
  }

  lemma RunOneLogGrows(m: Master, who: nat, c: Command, now: nat, inExec: bool)
    ensures m.log <= RunOne(m, who, c, now, inExec).log
  {
    hide Execute, Charge;
  }

  /** Nothing to wait for: a client has a last write offset exactly if one of its writes was propagated. */
  lemma NoWriteNoOffset(store: Store, es: seq<Event>, who: nat)
    ensures var m := Run(Init(store), es).m;
      SessionOf(m.sessions, who).lastWrite == 0 <==> forall j :: 0 <= j < |m.log| ==> m.log[j].who != who
  {
    hide Run, Init, Good;
    InitGood(store);
    RunOk(Init(store), es);
    BooksOf(Run(Init(store), es));
    var m := Run(Init(store), es).m;
    if SessionOf(m.sessions, who).lastWrite > 0 {
      var j := LastByAt(m.log, who);
    } else {
      LastByZero(m.log, who);
    }
  }

  lemma {:induction false} LastByZero(log: seq<Logged>, who: nat)
    requires LastBy(log, who) == 0 && forall j :: 0 <= j < |log| ==> log[j].offset > 0
    ensures forall j :: 0 <= j < |log| ==> log[j].who != who
  {
    if log != [] {
      LastByZero(log[..|log| - 1], who);
    }
  }

  // ---- Acknowledgements over whole runs -------------------------------------------------------

  /** Identities are not used again, so a replica that is gone stays gone. */
  lemma {:induction false} GoneForGood(s: State, es: seq<Event>, r: nat)
    requires Good(s) && r < s.next && r !in s.remotes
    ensures r !in Run(s, es).remotes
    decreases |es|
  {
    if es != [] {
      StepOk(s, es[0]);
      NotBack(s, es[0], r);
      hide Step, Good;
      GoneForGood(Step(s, es[0]), es[1..], r);
    }
  }

  lemma NotBack(s: State, e: Event, r: nat)
    requires r < s.next && r !in s.remotes
    ensures r < Step(s, e).next && r !in Step(s, e).remotes
  {
    hide Handle, ChargeGetAck, ChargePing, WellFormed, InLine, TakeNext, Without;
  }

  /** Over any run after which a replica is still registered, its recorded acknowledgement has not gone
      down. */
  lemma {:induction false} AcksMonotone(s: State, es: seq<Event>, r: nat)
    requires Good(s) && r in s.m.outlets && r in Run(s, es).m.outlets
    ensures s.m.outlets[r].acked <= Run(s, es).m.outlets[r].acked
    decreases |es|
  {
    if es != [] {
      var s1 := Step(s, es[0]);
      StepOk(s, es[0]);
      StillKnown(s, es[0], r);
      RunOk(s1, es[1..]);
      SameKeys(Run(s1, es[1..]));
      SameKeys(s1);
      hide Step, Good, Run;
      RunFirst(s, es);
      if r in s1.m.outlets {
        AcksNeverDecrease(s, es[0], r);
        AcksMonotone(s1, es[1..], r);
      } else {
        GoneForGood(s1, es[1..], r);
      }
    }
  }

  lemma RunFirst(s: State, es: seq<Event>)
    requires es != []
    ensures Run(s, es) == Run(Step(s, es[0]), es[1..])
  {
    hide Step;
  }

  lemma {:induction false} RunConcat(s: State, a: seq<Event>, b: seq<Event>)
    ensures Run(s, a + b) == Run(Run(s, a), b)
    decreases |a|
  {
    hide Step;
    if a == [] {
      assert a + b == b;
    } else {
      assert (a + b)[1..] == a[1..] + b;
      RunConcat(Step(s, a[0]), a[1..], b);
    }
  }

  lemma SameKeys(s: State)
    requires Good(s)
    ensures s.m.outlets.Keys == s.remotes.Keys
  {
  }

  lemma StillKnown(s: State, e: Event, r: nat)
    requires Good(s) && r in s.m.outlets
    ensures r < Step(s, e).next
  {
    hide Handle, ChargeGetAck, ChargePing, WellFormed, InLine, TakeNext, Without, BooksOk, CaughtUp;
  }

  // ---- What an acknowledgement says -----------------------------------------------------------

  /** The answer to GETACK is exact: it is what was charged for everything before the GETACK, less two
      bytes for every command that ended early, and more by one GETACK for every WAIT of the replica's own. */
  lemma AnswerIsExact(s: State, r: nat, now: nat)
    requires Good(s) && r in s.m.outlets && r in s.remotes && s.remotes[r].taken < |s.m.outlets[r].sent|
    ensures var x := s.remotes[r];
      && TakeNext(x, GetAck, now).acks == x.acks + [x.processed]
      && x.processed + 2 * EndingEarly(x.executed) == ChargeAll(s.m.outlets[r].sent[..x.taken]) + GETACK_LENGTH * x.own
  {
    SameRemote(s, r);
    hide ChargeAll, EndingEarly, WritesOf, Count, Lost, AcksInOrder, Good;
  }

  /** If a GETACK is the last thing under way to a replica, its answer is the master's offset before
      that GETACK was charged, less what can never reach the replica: its offset at registration, the
      pings of others, and two bytes for every command that ended early; and more by its own WAITs. */
  lemma AnswerIsComplete(s: State, r: nat, now: nat)
    requires Good(s) && r in s.m.outlets && r in s.remotes && s.m.outlets[r].pending == []
    requires s.remotes[r].taken < |s.m.outlets[r].sent| && s.m.outlets[r].sent[s.remotes[r].taken..] == [GetAck]
    ensures var o, x := s.m.outlets[r], s.remotes[r];
      && TakeNext(x, GetAck, now).acks == x.acks + [x.processed]
      && x.processed + Charge(GetAck) + o.base + o.elsewhere + 2 * EndingEarly(x.executed) == s.m.offset + GETACK_LENGTH * x.own
  {
    AnswerIsExact(s, r, now);
    SameRemote(s, r);
    hide Good, TakeNext, CaughtUp, NoWrites, Covered, EndingEarly, WritesOf, Charge;
    var o, x := s.m.outlets[r], s.remotes[r];
    AppendItem(o.sent[..x.taken], GetAck);
    assert o.sent == o.sent[..x.taken] + [GetAck];
    assert ChargeAll([]) == 0;
  }

  /** A WAIT outside a transaction asks every registered replica: one more GETACK is on its way to each,
      charged once. Inside a transaction it asks nobody. */
  lemma WaitAsksEveryone(m: Master, who: nat, c: Command, now: nat)
    requires Name(c) == WAIT_NAME
    ensures var open, m' := SessionOf(m.sessions, who).tx.isOpen, Handle(m, who, c, now);
      && m'.outlets.Keys == m.outlets.Keys && m'.store == m.store && m'.log == m.log
      && m'.offset == m.offset + (if open then 0 else Charge(GetAck))
      && forall r :: r in m.outlets ==>
        m'.outlets[r] == m.outlets[r].(pending := m.outlets[r].pending + if open then [] else [GetAck])
  {
    var s := SessionOf(m.sessions, who);
    var (tx, cs) := Decide(s.tx, c);
    var m1 := m.(sessions := m.sessions[who := s.(tx := tx)]);
    assert cs == if s.tx.isOpen then [] else [c];
    assert forall m2: Master :: RunOne(m2, who, c, now, false) == m2;
    hide Charge, RunOne, Decide;
    var m2 := if Waits(s.tx, c) then ChargeGetAck(m1) else m1;
    if !s.tx.isOpen {
      assert [c][1..] == [];
      assert RunAll(m2, who, [c], now, false) == RunAll(RunOne(m2, who, c, now, false), who, [], now, false);
    }
    assert forall o: seq<Item> :: o + [] == o;
  }
}
