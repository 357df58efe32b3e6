/** The master as an object: its main loop's handling of a message, its sends to replicas and its
    count of acknowledgements, each proved against the step that the state machine takes. */
module Server {
  import opened Bytes
  import opened RdbFormat
  import opened Commands
  import opened Replication
  import opened ReplicationSafety
  import opened Decimal
  import opened WaitCommand
  import opened CommandWords
  import Kv

  class Server {
    const kv: Kv.Kv
    var offset: nat
    var sessions: map<nat, Session>
    var replicas: map<nat, Outlet>
    // Every write propagated so far; the source keeps no such record.
    var log: seq<Logged>

    ghost function Value(): Master
      reads this, kv
    {
      Master(kv.store, offset, sessions, replicas, log)
    }

    constructor ()
      ensures fresh(kv) && Value() == Master(map[], 0, map[], map[], [])
    {
      kv := new Kv.Kv();
      offset, sessions, replicas, log := 0, map[], map[], [];
    }

    /** The loop over the replicas of `PropagateCommand`. */
    method PropagateCommand(who: nat, c: Command)
      modifies this
      ensures Value() == Propagate(old(Value()), who, c)
    {
      hide Charge;
      offset := offset + Charge(Write(c));
      sessions := sessions[who := SessionOf(sessions, who).(lastWrite := offset)];
      log := log + [Logged(who, c, offset)];
      WriteToReplicas(Write(c));
    }

    /** The loop over the replicas. */
    method WriteToReplicas(i: Item)
      modifies `replicas
      ensures replicas == map r | r in old(replicas) :: old(replicas)[r].(sent := old(replicas)[r].sent + [i])
    {
      var remaining := replicas.Keys;
      while remaining != {}
        invariant remaining <= replicas.Keys == old(replicas.Keys)
        invariant forall r :: r in remaining ==> replicas[r] == old(replicas)[r]
        invariant forall r :: r in replicas && r !in remaining ==> replicas[r] == old(replicas)[r].(sent := old(replicas)[r].sent + [i])
        decreases |remaining|
      {
        var r :| r in remaining;
        replicas := replicas[r := replicas[r].(sent := replicas[r].sent + [i])];
        remaining := remaining - {r};
      }
    }

    /** GETACK is charged once and handed to a sender for every registered replica. */
    method SendReplConfGetAckToAllReplicas()
      modifies this
      ensures Value() == ChargeGetAck(old(Value()))
    {
      hide Charge;
      offset := offset + Charge(GetAck);
      var remaining := replicas.Keys;
      while remaining != {}
        modifies `replicas
        invariant remaining <= replicas.Keys == old(replicas.Keys)
        invariant forall r :: r in remaining ==> replicas[r] == old(replicas)[r]
        invariant forall r :: r in replicas && r !in remaining ==>
          replicas[r] == old(replicas)[r].(pending := old(replicas)[r].pending + [GetAck])
        decreases |remaining|
      {
        var r :| r in remaining;
        replicas := replicas[r := replicas[r].(pending := replicas[r].pending + [GetAck])];
        remaining := remaining - {r};
      }
    }

    /** One ping is charged and handed to the sender of that replica; for the others the record says
        that it went elsewhere. */
    method SendPing(to: nat)
      modifies this
      ensures Value() == ChargePing(old(Value()), to)
    {
      hide Charge;
      offset := offset + Charge(Ping);
      replicas := map r | r in replicas ::
        if r == to then replicas[r].(pending := replicas[r].pending + [Ping])
        else replicas[r].(elsewhere := replicas[r].elsewhere + Charge(Ping));
    }

    /** How many replicas have acknowledged an offset. */
    method GetReplicaAcknowledgedCount(at: nat) returns (count: nat)
      ensures count == |Acknowledged(replicas, at)|
    {
      count := CountAcknowledged(replicas, at);
    }

    /** REPLCONF from the connection of a replica, registered or about to be. */
    method HandleReplConf(r: nat, args: seq<bytes>, ghost s: State, ghost start: Store)
      requires s.m == Value() && Good(s) && (r == s.next || r in replicas)
      modifies `replicas
      ensures Value() == ReplConf(s, r, args, start)
      ensures args != [] && args[0] == Ascii("listening-port") && r !in old(replicas) ==>
        && replicas == old(replicas)[r := Outlet(0, [], [], offset, |log|, 0)]
        && Value() == Step(s, Join(start)).m && Good(Step(s, Join(start)))
      ensures args != [] && args[0] == Ascii("listening-port") && r in old(replicas) ==> replicas == old(replicas)
      ensures forall n: nat :: |args| == 2 && IsWord(args[0], "ack") && IsNumber(args[1], n) && r in old(replicas) ==>
        replicas == old(replicas)[r := old(replicas)[r].(acked := n)]
      ensures args == [] || (args[0] != Ascii("listening-port") && !IsWord(args[0], "ack")) ==> replicas == old(replicas)
      ensures args != [] && IsWord(args[0], "ack") && (|args| != 2 || r !in old(replicas) || forall n: nat :: !IsNumber(args[1], n)) ==>
        replicas == old(replicas)
    {
      ReplConfCases(s, r, args, start);
      hide Good, Step, Lower, Ascii, IsWord, ParseUint, IsNumber, Acks, ReplConf;
      if args == [] {
        return;
      }
      ReplConfWords(args);
      if Lower(args[0]) == ACK && |args| == 2 {
        var reported := ParseUint(args[1]);
        if reported.Some? && r in replicas {
          UpdateOffset(r, reported.value);
        }
      }
      if args[0] == LISTENING_PORT {
        AddReplica(r, s, start);
      }
    }

    /** Registration is the step of the state machine in which a replica joins, and keeps its invariant; a
        replica that is registered already stays as it is. */
    method AddReplica(r: nat, ghost s: State, ghost start: Store)
      requires s.m == Value() && Good(s) && (r == s.next || r in replicas)
      modifies `replicas
      ensures r in old(replicas) ==> Value() == old(Value()) && replicas == old(replicas)
      ensures r !in old(replicas) ==> replicas == old(replicas)[r := Outlet(0, [], [], offset, |log|, 0)]
      ensures r !in old(replicas) ==> Value() == Step(s, Join(start)).m && Good(Step(s, Join(start)))
    {
      JoinOk(s, start);
      hide Good;
      if r !in replicas {
        replicas := replicas[r := Outlet(0, [], [], offset, |log|, 0)];
      }
    }

    /** An acknowledgement: if it is the one that the replica sent first of those under way, recording it is
        the step in which it arrives, and never lowers what is recorded. */
    method UpdateOffset(r: nat, reported: nat)
      requires r in replicas
      modifies `replicas
      ensures replicas == old(replicas)[r := old(replicas)[r].(acked := reported)]
      ensures Value() == Acks(old(Value()), r, reported)
      ensures forall s: State :: s.m == old(Value()) && Good(s) && r in s.remotes && s.remotes[r].acks != [] && reported == s.remotes[r].acks[0] ==>
        Value() == Step(s, AckArrives(r)).m && old(replicas)[r].acked <= reported
    {
      ghost var m := Value();
      hide Good, Step, Acks;
      replicas := replicas[r := replicas[r].(acked := reported)];
      RecordedIs(m, r, reported, Value());
      forall s: State | s.m == m && Good(s) && r in s.remotes && s.remotes[r].acks != [] && reported == s.remotes[r].acks[0]
        ensures Acks(m, r, reported) == Step(s, AckArrives(r)).m && m.outlets[r].acked <= reported
      {
        AckRecorded(s, r);
      }
    }

    /** A message of a client. */
    method HandleMessage(who: nat, c: Command, now: nat)
      modifies this, kv
      ensures Value() == Handle(old(Value()), who, c, now)
    {
      hide Handle, Execute, Propagate, ChargeGetAck, RunAll, RunOne;
      var name, session := Name(c), SessionOf(sessions, who);
      ghost var m := Value();
      HandleByName(m, who, c, now);
      sessions := sessions[who := session];
      assert Value() == WithTx(m, who, session.tx);
      assert forall tx: Tx :: sessions[who := session.(tx := tx)] == m.sessions[who := session.(tx := tx)];
      if name !in REGISTERED {
        return;
      }
      if session.tx.isOpen && name !in TRANSACTION_COMMANDS {
        sessions := sessions[who := session.(tx := session.tx.(queue := session.tx.queue + [c]))];
        return;
      }
      if name == MULTI_NAME {
        Multi(who, c);
      } else if name == EXEC_NAME {
        Exec(who, c, now);
      } else if name == DISCARD_NAME {
        Discard(who, c);
      } else if name == WAIT_NAME {
        SendReplConfGetAckToAllReplicas();
      } else {
        Dispatch(who, c, now);
      }
    }

    /** A plain command: executed, and propagated if it writes and did not end with an error. */
    method Dispatch(who: nat, c: Command, now: nat)
      modifies this, kv
      ensures Value() == RunAll(old(Value()), who, [c], now, false)
    {
      hide Execute, Propagate, RunOne;
      ghost var m := Value();
      var reply := kv.Execute(c, now);
      RunSingle(m, who, c, now, false);
      RunOneIs(m, who, c, now, false);
      if reply == Aborted {
        return;
      }
      if Name(c) in WRITEABLE {
        PropagateCommand(who, c);
      }
    }

    method Multi(who: nat, c: Command)
      requires who in sessions
      modifies `sessions
      ensures var was := old(sessions)[who].tx;
        sessions == old(sessions)[who := old(sessions)[who].(tx := if |c| == 1 && !was.isOpen then Tx(true, []) else was)]
    {
      if |c| != 1 || sessions[who].tx.isOpen {
        return;
      }
      sessions := sessions[who := sessions[who].(tx := Tx(true, []))];
    }

    method Discard(who: nat, c: Command)
      requires who in sessions
      modifies `sessions
      ensures var was := old(sessions)[who].tx;
        sessions == old(sessions)[who := old(sessions)[who].(tx := if |c| == 1 && was.isOpen then NO_TX else was)]
    {
      if |c| != 1 || !sessions[who].tx.isOpen {
        return;
      }
      sessions := sessions[who := sessions[who].(tx := NO_TX)];
    }

    /** EXEC: every queued command in order; a write is propagated whatever it replied. */
    method Exec(who: nat, c: Command, now: nat)
      requires who in sessions
      modifies this, kv
      ensures var m := old(Value()); var tx := m.sessions[who].tx;
        Value() == if |c| == 1 && tx.isOpen then RunAll(WithTx(m, who, NO_TX), who, tx.queue, now, true) else m
    {
      hide Execute, Propagate, RunAll, RunOne, WithTx;
      if |c| != 1 || !sessions[who].tx.isOpen {
        return;
      }
      var queue := sessions[who].tx.queue;
      ghost var outcome := RunAll(WithTx(Value(), who, NO_TX), who, queue, now, true);
      var i := 0;
      while i < |queue|
        invariant i <= |queue| && who in sessions
        invariant RunAll(WithTx(Value(), who, NO_TX), who, queue[i..], now, true) == outcome
      {
        ghost var m := Value();
        RunNext(WithTx(m, who, NO_TX), who, queue[i..], now, true);
        assert queue[i..][1..] == queue[i + 1..];
        ClearedCommutes(m, who, queue[i], now);
        RunOneIs(m, who, queue[i], now, true);
        var reply := kv.Execute(queue[i], now);
        if Name(queue[i]) in WRITEABLE {
          PropagateCommand(who, queue[i]);
        }
        assert Value() == RunOne(m, who, queue[i], now, true);
        i := i + 1;
      }
      RunNone(WithTx(Value(), who, NO_TX), who, now, true);
      assert queue[i..] == [];
      ClearedIs(Value(), who);
      sessions := sessions[who := sessions[who].(tx := NO_TX)];
    }
  }

  // ---- REPLCONF -------------------------------------------------------------------------------

  // "listening-port" and "ack".
  const LISTENING_PORT: bytes := [108, 105, 115, 116, 101, 110, 105, 110, 103, 45, 112, 111, 114, 116]
  const ACK: bytes := [97, 99, 107]

  const MAX_UINT64: int := 0xffff_ffff_ffff_ffff

  /** `strconv.ParseUint(s, 10, 64)`. */
  function ParseUint(s: bytes): Option<nat> {
    if s == [] || !AllDigits(s) || Decimal.Value(s) > MAX_UINT64 then None else Some(Decimal.Value(s))
  }

  /** The decimal digits of a number that fits 64 bits, with or without leading zeros. */
  predicate IsNumber(s: bytes, n: nat) {
    s != [] && (forall i :: 0 <= i < |s| ==> 48 <= s[i] <= 57) && n == Decimal.Value(s) && n <= 0xffff_ffff_ffff_ffff
  }

  /** The words of REPLCONF. */
  lemma ReplConfWords(args: seq<bytes>)
    requires args != []
    ensures args[0] == LISTENING_PORT <==> args[0] == Ascii("listening-port")
    ensures Lower(args[0]) == ACK <==> IsWord(args[0], "ack")
    ensures |args| == 2 ==> forall n: nat :: IsNumber(args[1], n) <==> ParseUint(args[1]) == Some(n)
    ensures IsWord(args[0], "ack") ==> args[0] != Ascii("listening-port")
  {
    assert LISTENING_PORT == Ascii("listening-port");
    assert ACK == Ascii("ack");
    LowerIs(args[0], "ack");
  }

  /** The offset that was acknowledged is recorded. */
  function Acks(m: Master, r: nat, reported: nat): Master
    requires r in m.outlets
  {
    m.(outlets := m.outlets[r := m.outlets[r].(acked := reported)])
  }

  lemma RecordedIs(m: Master, r: nat, reported: nat, m': Master)
    requires r in m.outlets && m' == m.(outlets := m.outlets[r := m.outlets[r].(acked := reported)])
    ensures m' == Acks(m, r, reported)
  {
  }

  /** Recording the acknowledgement that was sent first is the step in which it arrives. */
  lemma AckRecorded(s: State, r: nat)
    requires Good(s) && r in s.m.outlets && r in s.remotes && s.remotes[r].acks != []
    ensures Acks(s.m, r, s.remotes[r].acks[0]) == Step(s, AckArrives(r)).m
    ensures s.m.outlets[r].acked <= s.remotes[r].acks[0]
  {
    SameRemote(s, r);
    hide Good, CaughtUp;
    AckOk(s.m.outlets[r], s.remotes[r]);
  }

  /** What REPLCONF does to the master, in terms of the steps of the state machine: the exact word
      "listening-port" registers a new replica, whatever else is given; "ack" in any case of letters and a
      number record an offset. */
  function ReplConf(s: State, r: nat, args: seq<bytes>, start: Store): Master {
    if args == [] then s.m
    else if args[0] == LISTENING_PORT then if r in s.m.outlets then s.m else Step(s, Join(start)).m
    else if Lower(args[0]) == ACK && |args| == 2 && ParseUint(args[1]).Some? && r in s.m.outlets then
      Acks(s.m, r, ParseUint(args[1]).value)
    else s.m
  }

  lemma ReplConfCases(s: State, r: nat, args: seq<bytes>, start: Store)
    ensures args == [] ==> ReplConf(s, r, args, start) == s.m
    ensures args != [] && args[0] == LISTENING_PORT ==> ReplConf(s, r, args, start) == if r in s.m.outlets then s.m else Step(s, Join(start)).m
    ensures args != [] && args[0] != LISTENING_PORT ==> 
      (ReplConf(s, r, args, start) ==
       if Lower(args[0]) == ACK && |args| == 2 && ParseUint(args[1]).Some? && r in s.m.outlets then Acks(s.m, r, ParseUint(args[1]).value) else s.m)
  {
    hide Step, Lower, ParseUint, Acks;
  }

  /** A replica answers with the decimal digits of its offset; when that REPLCONF arrives, it is the step in
      which the acknowledgement arrives. */
  lemma AnswerArrives(s: State, r: nat, word: bytes, start: Store)
    requires r in s.m.outlets && r in s.remotes && s.remotes[r].acks != [] && s.remotes[r].acks[0] <= MAX_UINT64
    requires Lower(word) == ACK
    ensures ReplConf(s, r, [word, Digits(s.remotes[r].acks[0])], start) == Step(s, AckArrives(r)).m
  {
    ValueOfDigits(s.remotes[r].acks[0]);
    LowerSame(word);
    hide Digits, Decimal.Value, Lower;
  }

  lemma LowerSame(word: bytes)
    requires Lower(word) == ACK
    ensures word != LISTENING_PORT
  {
  }

  /** The client's transaction is replaced. */
  function WithTx(m: Master, who: nat, tx: Tx): Master {
    m.(sessions := m.sessions[who := SessionOf(m.sessions, who).(tx := tx)])
  }

  lemma ClearedIs(m: Master, who: nat)
    requires who in m.sessions
    ensures WithTx(m, who, NO_TX) == m.(sessions := m.sessions[who := m.sessions[who].(tx := NO_TX)])
  {
  }

  /** The step of the state machine, branch by branch. */
  lemma HandleByName(m: Master, who: nat, c: Command, now: nat)
    ensures var tx, name, m' := SessionOf(m.sessions, who).tx, Name(c), Handle(m, who, c, now);
      && (name !in REGISTERED ==> m' == WithTx(m, who, tx))
      && (name in REGISTERED && tx.isOpen && name !in TRANSACTION_COMMANDS ==> m' == WithTx(m, who, tx.(queue := tx.queue + [c])))
      && (name == MULTI_NAME ==> m' == WithTx(m, who, if |c| == 1 && !tx.isOpen then Tx(true, []) else tx))
      && (name == DISCARD_NAME ==> m' == WithTx(m, who, if |c| == 1 && tx.isOpen then NO_TX else tx))
      && (name == EXEC_NAME && |c| == 1 && tx.isOpen ==> m' == RunAll(WithTx(m, who, NO_TX), who, tx.queue, now, true))
      && (name == EXEC_NAME && !(|c| == 1 && tx.isOpen) ==> m' == WithTx(m, who, tx))
      && (name == WAIT_NAME && !tx.isOpen ==> m' == ChargeGetAck(WithTx(m, who, tx)))
      && (name in REGISTERED && !tx.isOpen && name !in TRANSACTION_COMMANDS && name != WAIT_NAME ==>
        m' == RunAll(WithTx(m, who, tx), who, [c], now, false))
  {
    var tx := SessionOf(m.sessions, who).tx;
    var m1 := WithTx(m, who, Decide(tx, c).0);
    RunNone(m1, who, now, tx.isOpen);
    if Name(c) == WAIT_NAME {
      WaitRunsNothing(ChargeGetAck(m1), who, c, now);
    }
    hide RunAll, ChargeGetAck;
  }

  lemma ClearedCommutes(m: Master, who: nat, c: Command, now: nat)
    requires who in m.sessions
    ensures RunOne(WithTx(m, who, NO_TX), who, c, now, true) == WithTx(RunOne(m, who, c, now, true), who, NO_TX)
    ensures who in RunOne(m, who, c, now, true).sessions
  {
    hide Execute, Charge;
    var a, b := RunOne(WithTx(m, who, NO_TX), who, c, now, true), WithTx(RunOne(m, who, c, now, true), who, NO_TX);
    assert a.sessions == b.sessions;
    assert a.outlets == b.outlets;
  }

  lemma RunNone(m: Master, who: nat, now: nat, inExec: bool)
    ensures RunAll(m, who, [], now, inExec) == m
  {
  }

  lemma RunNext(m: Master, who: nat, cs: seq<Command>, now: nat, inExec: bool)
    requires cs != []
    ensures RunAll(m, who, cs, now, inExec) == RunAll(RunOne(m, who, cs[0], now, inExec), who, cs[1..], now, inExec)
  {
    hide RunOne;
  }

  lemma RunSingle(m: Master, who: nat, c: Command, now: nat, inExec: bool)
    ensures RunAll(m, who, [c], now, inExec) == RunOne(m, who, c, now, inExec)
  {
    hide RunOne;
    RunNext(m, who, [c], now, inExec);
    RunNone(RunOne(m, who, c, now, inExec), who, now, inExec);
  }

  lemma RunOneIs(m: Master, who: nat, c: Command, now: nat, inExec: bool)
    ensures var (store, reply) := Execute(m.store, c, now);
      RunOne(m, who, c, now, inExec) ==
        if Name(c) in WRITEABLE && (inExec || reply != Aborted) then Propagate(m.(store := store), who, c) else m.(store := store)
  {
    hide Execute, Propagate;
  }

  lemma WaitRunsNothing(m: Master, who: nat, c: Command, now: nat)
    requires Name(c) == WAIT_NAME
    ensures RunAll(m, who, [c], now, false) == m
  {
    RunSingle(m, who, c, now, false);
  }
}
