/** The small steps of replication, in numbers: what a ping, a broadcast, a send, an answer and a removal change, and
    that they change nothing else. */
module ReplicationSteps {
  import opened Bytes
  import opened RdbFormat
  import opened Commands
  import opened Replication
  import opened ReplicationCharges
  import opened ReplicationSafety

  /** Store, sessions and log are not touched. */
  predicate OnlySends(m: Master, m': Master) {
    m'.store == m.store && m'.sessions == m.sessions && m'.log == m.log && m'.outlets.Keys == m.outlets.Keys
  }

  /** A ping for one replica is charged 14 bytes; it is on its way to that one, and the others book it. */
  lemma PingMeaning(s: State, r: nat, q: nat)
    requires q in s.m.outlets
    ensures var s' := Step(s, PingTick(r));
      && OnlySends(s.m, s'.m) && s'.remotes == s.remotes && s'.next == s.next && s'.m.offset == s.m.offset + 14
      && s'.m.outlets[q] ==
        (if q == r then s.m.outlets[q].(pending := s.m.outlets[q].pending + [Ping])
         else s.m.outlets[q].(elsewhere := s.m.outlets[q].elsewhere + 14))
  {
    FixedCharges();
    hide Charge;
  }

  /** A GETACK is charged 37 bytes once, and is on its way to all. */
  lemma BroadcastMeaning(s: State, q: nat)
    requires q in s.m.outlets
    ensures var s' := Step(s, GetAckTick);
      && OnlySends(s.m, s'.m) && s'.remotes == s.remotes && s'.next == s.next && s'.m.offset == s.m.offset + 37
      && s'.m.outlets[q] == s.m.outlets[q].(pending := s.m.outlets[q].pending + [GetAck])
  {
    FixedCharges();
    hide Charge;
  }

  /** One of the pending sends goes to the end of what was sent, and no other outlet changes. */
  lemma SendMeaning(s: State, r: nat, i: nat, q: nat)
    requires r in s.m.outlets && i < |s.m.outlets[r].pending| && q in s.m.outlets
    ensures var s' := Step(s, Send(r, i)); var o := s.m.outlets[r];
      && OnlySends(s.m, s'.m) && s'.remotes == s.remotes && s'.m.offset == s.m.offset
      && s'.m.outlets[q] ==
        (if q == r then o.(sent := o.sent + [o.pending[i]], pending := o.pending[..i] + o.pending[i + 1..]) else s.m.outlets[q])
  {
  }

  /** The first acknowledgement under way is recorded. */
  lemma AckMeaning(s: State, r: nat, q: nat)
    requires r in s.m.outlets && r in s.remotes && s.remotes[r].acks != [] && q in s.m.outlets
    ensures var s' := Step(s, AckArrives(r)); var x := s.remotes[r];
      && OnlySends(s.m, s'.m) && s'.m.offset == s.m.offset && s'.remotes == s.remotes[r := x.(acks := x.acks[1..])]
      && s'.m.outlets[q] == if q == r then s.m.outlets[q].(acked := x.acks[0]) else s.m.outlets[q]
  {
  }

  /** PSYNC sends a snapshot of all the data, after what was sent before. */
  lemma PsyncMeaning(s: State, r: nat, order: seq<bytes>, ctime: int, q: nat)
    requires r in s.m.outlets && r in s.remotes && WellFormed(Snapshot(s.m.store, order, ctime)) && q in s.m.outlets
    ensures var s' := Step(s, Psync(r, order, ctime)); var o := s.m.outlets[r];
      && OnlySends(s.m, s'.m) && s'.m.offset == s.m.offset
      && s'.m.outlets[q] == if q == r then o.(sent := o.sent + [Snapshot(s.m.store, order, ctime)]) else s.m.outlets[q]
  {
    hide WellFormed, InLine;
  }

  /** A removed replica is gone, and the others stay. */
  lemma DropMeaning(s: State, r: nat, q: nat)
    ensures var s' := Step(s, Drop(r));
      && r !in s'.m.outlets && r !in s'.remotes
      && s'.m.store == s.m.store && s'.m.offset == s.m.offset && s'.m.sessions == s.m.sessions && s'.m.log == s.m.log
      && (q != r && q in s.m.outlets ==> q in s'.m.outlets && s'.m.outlets[q] == s.m.outlets[q])
      && (q != r && q in s.remotes ==> q in s'.remotes && s'.remotes[q] == s.remotes[q])
  {
  }

  /** A replica that takes an item: a write is executed, GETACK is answered with the offset before it, and both are
      counted afterwards, like a ping. */
  lemma TakeMeaning(s: State, r: nat, now: nat)
    requires r in s.m.outlets && r in s.remotes && s.remotes[r].taken < |s.m.outlets[r].sent|
    ensures var s' := Step(s, Take(r, now)); var x, i := s.remotes[r], s.m.outlets[r].sent[s.remotes[r].taken];
      && s'.m == s.m && r in s'.remotes && s'.remotes.Keys == s.remotes.Keys
      && var y := s'.remotes[r];
      && y.taken == x.taken + 1
      && (i.Write? ==> y.store == Execute(x.store, i.c, now).0 && y.executed == x.executed + [i.c] && y.acks == x.acks)
      && (i.GetAck? ==> y.acks == x.acks + [x.processed] && y.processed == x.processed + 37 && y.store == x.store && y.executed == x.executed)
      && (i.Ping? ==> y.acks == x.acks && y.processed == x.processed + 14 && y.store == x.store && y.executed == x.executed)
  {
    FixedCharges();
    FixedCommands();
    hide Charge, Count, Execute, ParseFile, SnapshotFile;
  }
}
