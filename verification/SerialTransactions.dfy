/** Transactions: the store is what one gets by executing plain commands in arrival order and every
    EXEC's queue as one block, whatever the interleaving of clients, and writes are propagated in that
    order. */
module SerialTransactions {
  import opened Bytes
  import opened RdbFormat
  import opened Commands
  import opened Replication
  import opened ReplicationSafety
  import opened CommandWords

  /** One executed command. */
  datatype Executed = Executed(c: Command, now: nat, inExec: bool)

  function Block(cs: seq<Command>, now: nat, inExec: bool): seq<Executed> {
    seq(|cs|, i requires 0 <= i < |cs| => Executed(cs[i], now, inExec))
  }

  function TxOf(txs: map<nat, Tx>, who: nat): Tx {
    if who in txs then txs[who] else NO_TX
  }

  function Txs(sessions: map<nat, Session>): map<nat, Tx> {
    map who | who in sessions :: sessions[who].tx
  }

  /** A message's turn: the client, and the block of commands that is executed for it. */
  datatype Turn = Turn(who: nat, block: seq<Command>, now: nat, inExec: bool)

  /** The turns of a run, from the messages alone: one for every message, in arrival order. */
  function Schedule(txs: map<nat, Tx>, es: seq<Event>): seq<Turn>
    decreases |es|
  {
    if es == [] then []
    else if !es[0].Receive? then Schedule(txs, es[1..])
    else
      var before := TxOf(txs, es[0].who);
      var (tx, cs) := Decide(before, es[0].c);
      [Turn(es[0].who, cs, es[0].now, before.isOpen)] + Schedule(txs[es[0].who := tx], es[1..])
  }

  /** The serial execution: block after block. */
  function Serial(turns: seq<Turn>): seq<Executed> {
    if turns == [] then [] else Block(turns[0].block, turns[0].now, turns[0].inExec) + Serial(turns[1..])
  }

  function ExecuteAll(store: Store, xs: seq<Executed>): Store
    decreases |xs|
  {
    if xs == [] then store else ExecuteAll(Execute(store, xs[0].c, xs[0].now).0, xs[1..])
  }

  /** A SET with option words that cannot be read ends with an error, whatever the store. */
  predicate Aborts(c: Command) {
    Name(c) == SET_NAME && |c| >= 3 && ParseOptions(c[3..], NO_OPTIONS).None?
  }

  /** Whether an executed command is propagated. */
  predicate Spreads(x: Executed) {
    Name(x.c) in WRITEABLE && (x.inExec || !Aborts(x.c))
  }

  /** The writes among the executed commands that are propagated, in order. */
  function Propagated(xs: seq<Executed>): seq<Command>
    decreases |xs|
  {
    if xs == [] then []
    else (if Spreads(xs[0]) then [xs[0].c] else []) + Propagated(xs[1..])
  }

  lemma AbortsAlways(store: Store, c: Command, now: nat)
    requires Name(c) in WRITEABLE
    ensures Execute(store, c, now).1 == Aborted <==> Aborts(c)
  {
    if |c| >= 3 {
      assert c[1..][2..] == c[3..];
    }
    hide ParseOptions, Get, Put;
  }

  // ---- One message ----------------------------------------------------------------------------

  /** Executing a block changes store, log and open transactions as its commands say. */
  predicate Serially(m: Master, m': Master, xs: seq<Executed>) {
    && m'.store == ExecuteAll(m.store, xs)
    && CommandsOf(m'.log) == CommandsOf(m.log) + Propagated(xs)
  }

  lemma RunOneSerially(m: Master, who: nat, c: Command, now: nat, inExec: bool)
    ensures Serially(m, RunOne(m, who, c, now, inExec), [Executed(c, now, inExec)])
    ensures who in m.sessions ==> Txs(RunOne(m, who, c, now, inExec).sessions) == Txs(m.sessions)
  {
    var m' := RunOne(m, who, c, now, inExec);
    var x := Executed(c, now, inExec);
    if Name(c) in WRITEABLE {
      AbortsAlways(m.store, c, now);
    }
    hide Execute, Charge, Aborts;
    assert ExecuteAll(m.store, [x]) == ExecuteAll(Execute(m.store, c, now).0, []);
    assert Propagated([x]) == (if Spreads(x) then [c] else []) + Propagated([]);
  }

  lemma {:induction false} ExecuteAllAppend(store: Store, xs: seq<Executed>, ys: seq<Executed>)
    ensures ExecuteAll(store, xs + ys) == ExecuteAll(ExecuteAll(store, xs), ys)
    decreases |xs|
  {
    hide Execute;
    if xs == [] {
      assert xs + ys == ys;
    } else {
      assert (xs + ys)[1..] == xs[1..] + ys;
      ExecuteAllAppend(Execute(store, xs[0].c, xs[0].now).0, xs[1..], ys);
    }
  }

  lemma {:induction false} PropagatedAppend(xs: seq<Executed>, ys: seq<Executed>)
    ensures Propagated(xs + ys) == Propagated(xs) + Propagated(ys)
    decreases |xs|
  {
    hide Spreads;
    if xs == [] {
      assert xs + ys == ys;
    } else {
      assert (xs + ys)[1..] == xs[1..] + ys;
      PropagatedAppend(xs[1..], ys);
    }
  }

  lemma SeriallyJoin(a: Master, b: Master, c: Master, xs: seq<Executed>, ys: seq<Executed>)
    requires Serially(a, b, xs) && Serially(b, c, ys)
    ensures Serially(a, c, xs + ys)
  {
    hide ExecuteAll, Propagated;
    ExecuteAllAppend(a.store, xs, ys);
    PropagatedAppend(xs, ys);
  }

  lemma {:induction false} RunAllSerially(m: Master, who: nat, cs: seq<Command>, now: nat, inExec: bool)
    ensures Serially(m, RunAll(m, who, cs, now, inExec), Block(cs, now, inExec))
    ensures who in m.sessions ==> Txs(RunAll(m, who, cs, now, inExec).sessions) == Txs(m.sessions)
    decreases |cs|
  {
    if cs == [] {
      SeriallyNothing(m);
    } else {
      var m1 := RunOne(m, who, cs[0], now, inExec);
      RunOneSerially(m, who, cs[0], now, inExec);
      SessionStays(m, who, cs[0], now, inExec);
      RunAllSerially(m1, who, cs[1..], now, inExec);
      hide Serially, RunOne, Txs;
      SeriallyJoin(m, m1, RunAll(m1, who, cs[1..], now, inExec), [Executed(cs[0], now, inExec)], Block(cs[1..], now, inExec));
      assert Block(cs, now, inExec) == [Executed(cs[0], now, inExec)] + Block(cs[1..], now, inExec);
    }
  }

  lemma SessionStays(m: Master, who: nat, c: Command, now: nat, inExec: bool)
    ensures who in m.sessions ==> who in RunOne(m, who, c, now, inExec).sessions
  {
    hide Execute;
  }

  lemma SeriallyNothing(m: Master)
    ensures Serially(m, m, [])
  {
  }

  lemma HandleSerially(m: Master, who: nat, c: Command, now: nat)
    ensures var before := SessionOf(m.sessions, who).tx;
      var (tx, cs) := Decide(before, c);
      var m' := Handle(m, who, c, now);
      Serially(m, m', Block(cs, now, before.isOpen)) && Txs(m'.sessions) == Txs(m.sessions)[who := tx]
  {
    var s := SessionOf(m.sessions, who);
    var (tx, cs) := Decide(s.tx, c);
    var m1 := m.(sessions := m.sessions[who := s.(tx := tx)]);
    var m2 := if Waits(s.tx, c) then ChargeGetAck(m1) else m1;
    assert Txs(m2.sessions) == Txs(m.sessions)[who := tx];
    RunAllSerially(m2, who, cs, now, s.tx.isOpen);
    hide Decide, RunAll, Txs, Charge;
  }

  // ---- Runs -----------------------------------------------------------------------------------

  /** After any run, from any state: the store is that of the serial execution, the log has grown by
      its writes in the order in which they were executed. */
  lemma {:induction false} RunIsSerial(s: State, es: seq<Event>)
    ensures Serially(s.m, Run(s, es).m, Serial(Schedule(Txs(s.m.sessions), es)))
    decreases |es|
  {
    if es == [] {
      SeriallyNothing(s.m);
    } else {
      var s1 := Step(s, es[0]);
      RunIsSerial(s1, es[1..]);
      if es[0].Receive? {
        HandleSerially(s.m, es[0].who, es[0].c, es[0].now);
        TxSame(s.m.sessions, es[0].who);
        StepReceive(s, es[0]);
        hide Serially, Handle, Step, Decide, Txs, Block, Serial;
        var before := TxOf(Txs(s.m.sessions), es[0].who);
        var (tx, cs) := Decide(before, es[0].c);
        var later := Schedule(Txs(s1.m.sessions), es[1..]);
        SerialCons(Turn(es[0].who, cs, es[0].now, before.isOpen), later);
        SeriallyJoin(s.m, s1.m, Run(s1, es[1..]).m, Block(cs, es[0].now, before.isOpen), Serial(later));
      } else {
        OthersExecuteNothing(s, es[0]);
        hide Step;
      }
    }
  }

  lemma SerialCons(t: Turn, turns: seq<Turn>)
    ensures Serial([t] + turns) == Block(t.block, t.now, t.inExec) + Serial(turns)
  {
    hide Block;
    assert ([t] + turns)[1..] == turns;
  }

  lemma StepReceive(s: State, e: Event)
    requires e.Receive?
    ensures Step(s, e).m == Handle(s.m, e.who, e.c, e.now)
  {
    hide Handle;
  }

  lemma TxSame(sessions: map<nat, Session>, who: nat)
    ensures TxOf(Txs(sessions), who) == SessionOf(sessions, who).tx
  {
  }

  lemma OthersExecuteNothing(s: State, e: Event)
    requires !e.Receive?
    ensures Step(s, e).m.store == s.m.store && Step(s, e).m.log == s.m.log && Step(s, e).m.sessions == s.m.sessions
  {
    hide Charge, WellFormed, TakeNext, InLine;
  }

  // ---- Commands that set no expiry ------------------------------------------------------------

  predicate SetNoExpiry(cs: seq<Command>) {
    forall i :: 0 <= i < |cs| ==> SetsNoExpiry(cs[i])
  }

  predicate QueuesSetNoExpiry(txs: map<nat, Tx>) {
    forall who :: who in txs ==> SetNoExpiry(txs[who].queue)
  }

  /** What is executed or queued for a message was sent or queued before. */
  lemma DecideSetsNoExpiry(tx: Tx, c: Command)
    requires SetNoExpiry(tx.queue) && SetsNoExpiry(c)
    ensures SetNoExpiry(Decide(tx, c).0.queue) && SetNoExpiry(Decide(tx, c).1)
  {
    hide SetsNoExpiry;
  }

  lemma TxSetsNoExpiry(txs: map<nat, Tx>, who: nat)
    requires QueuesSetNoExpiry(txs)
    ensures SetNoExpiry(TxOf(txs, who).queue)
  {
  }

  lemma {:induction false} ScheduleSetsNoExpiry(txs: map<nat, Tx>, es: seq<Event>)
    requires QueuesSetNoExpiry(txs) && AllExpiryFree(es)
    ensures forall i :: 0 <= i < |Schedule(txs, es)| ==> SetNoExpiry(Schedule(txs, es)[i].block)
    decreases |es|
  {
    hide SetNoExpiry, Decide;
    if es == [] {
    } else if !es[0].Receive? {
      ScheduleSetsNoExpiry(txs, es[1..]);
    } else {
      assert ExpiryFree(es[0]);
      var before := TxOf(txs, es[0].who);
      TxSetsNoExpiry(txs, es[0].who);
      DecideSetsNoExpiry(before, es[0].c);
      ScheduleSetsNoExpiry(txs[es[0].who := Decide(before, es[0].c).0], es[1..]);
    }
  }

  predicate ExecutedSetNoExpiry(xs: seq<Executed>) {
    forall i :: 0 <= i < |xs| ==> SetsNoExpiry(xs[i].c)
  }

  lemma {:induction false} SerialSetsNoExpiry(turns: seq<Turn>)
    requires forall i :: 0 <= i < |turns| ==> SetNoExpiry(turns[i].block)
    ensures ExecutedSetNoExpiry(Serial(turns))
  {
    hide SetsNoExpiry;
    if turns != [] {
      SerialSetsNoExpiry(turns[1..]);
    }
  }

  lemma {:induction false} PropagatedSetNoExpiry(xs: seq<Executed>)
    requires ExecutedSetNoExpiry(xs)
    ensures SetNoExpiry(Propagated(xs))
    decreases |xs|
  {
    hide SetsNoExpiry, Spreads;
    if xs != [] {
      PropagatedSetNoExpiry(xs[1..]);
    }
  }

  /** If no client sets an expiry, no write in the log does. */
  lemma LogSetsNoExpiry(store: Store, es: seq<Event>)
    requires AllExpiryFree(es)
    ensures SetNoExpiry(CommandsOf(Run(Init(store), es).m.log))
  {
    FromInit(store, es);
    ScheduleSetsNoExpiry(map[], es);
    hide *;
    SerialSetsNoExpiry(Schedule(map[], es));
    PropagatedSetNoExpiry(Serial(Schedule(map[], es)));
  }

  /** The log alone determines the strings: if no client sets an expiry, replaying it on the initial data
      gives the master's. */
  lemma LogDeterminesStrings(store: Store, es: seq<Event>)
    requires NoExpiry(store) && AllExpiryFree(es)
    ensures Alike(Replayed(store, CommandsOf(Run(Init(store), es).m.log)), Run(Init(store), es).m.store)
  {
    var xs := Serial(Schedule(map[], es));
    RunIsSerial(Init(store), es);
    assert Txs(map[]) == map[];
    assert CommandsOf([]) + Propagated(xs) == Propagated(xs);
    ScheduleSetsNoExpiry(map[], es);
    SerialSetsNoExpiry(Schedule(map[], es));
    hide Serial, Schedule, Replayed, ExecuteAll, Propagated, Run, Alike, ExecutedSetNoExpiry;
    ReplayedAlike(store, store, xs);
  }

  function Replayed(store: Store, cs: seq<Command>): Store
    decreases |cs|
  {
    if cs == [] then store else Replayed(Execute(store, cs[0], 0).0, cs[1..])
  }

  lemma {:induction false} ReplayedAlike(a: Store, b: Store, xs: seq<Executed>)
    requires NoExpiry(a) && NoExpiry(b) && Strings(a) == Strings(b) && ExecutedSetNoExpiry(xs)
    ensures Alike(Replayed(a, Propagated(xs)), ExecuteAll(b, xs))
    decreases |xs|
  {
    if xs != [] {
      var x := xs[0];
      var b1 := Execute(b, x.c, x.now).0;
      var a1 := Execute(a, x.c, 0).0;
      if Name(x.c) in WRITEABLE {
        AbortsAlways(b, x.c, x.now);
        WritesAlike(a, b, x.c, 0, x.now);
        AbortedUnchanged(b, x.c, x.now);
      } else {
        OthersKeepStrings(b, x.c, x.now);
      }
      hide Execute, Aborts, Strings, NoExpiry;
      if Spreads(x) {
        assert Propagated(xs)[1..] == Propagated(xs[1..]);
        ReplayedAlike(a1, b1, xs[1..]);
      } else {
        assert Propagated(xs) == Propagated(xs[1..]);
        ReplayedAlike(a, b1, xs[1..]);
      }
    }
  }

  lemma AbortedUnchanged(store: Store, c: Command, now: nat)
    requires Name(c) in WRITEABLE
    ensures Execute(store, c, now).1 == Aborted ==> Execute(store, c, now).0 == store
  {
    hide ParseOptions;
  }

  // ---- One client -----------------------------------------------------------------------------

  /** The messages of one client. */
  function Own(who: nat, es: seq<Event>): seq<Command>
    decreases |es|
  {
    if es == [] then [] else (if es[0].Receive? && es[0].who == who then [es[0].c] else []) + Own(who, es[1..])
  }

  /** What a client's own messages decide: its transaction in the end, and a block for every message. */
  function DecideAll(tx: Tx, cs: seq<Command>): (Tx, seq<seq<Command>>)
    decreases |cs|
  {
    if cs == [] then (tx, [])
    else
      var (tx1, block) := Decide(tx, cs[0]);
      var (tx2, blocks) := DecideAll(tx1, cs[1..]);
      (tx2, [block] + blocks)
  }

  /** The blocks of one client among the turns of all. */
  function BlocksOf(who: nat, turns: seq<Turn>): seq<seq<Command>> {
    if turns == [] then [] else (if turns[0].who == who then [turns[0].block] else []) + BlocksOf(who, turns[1..])
  }

  lemma BlocksOfCons(who: nat, t: Turn, turns: seq<Turn>)
    ensures BlocksOf(who, [t] + turns) == (if t.who == who then [t.block] else []) + BlocksOf(who, turns)
  {
    assert ([t] + turns)[1..] == turns;
  }

  /** The blocks executed for a client are what its own messages decide, however they are interleaved with
      those of others. */
  lemma {:induction false} BlocksAreOwn(txs: map<nat, Tx>, es: seq<Event>, who: nat)
    ensures BlocksOf(who, Schedule(txs, es)) == DecideAll(TxOf(txs, who), Own(who, es)).1
    decreases |es|
  {
    if es != [] {
      hide Decide, BlocksOf;
      if es[0].Receive? {
        var before := TxOf(txs, es[0].who);
        var (tx, cs) := Decide(before, es[0].c);
        var txs' := txs[es[0].who := tx];
        BlocksAreOwn(txs', es[1..], who);
        BlocksOfCons(who, Turn(es[0].who, cs, es[0].now, before.isOpen), Schedule(txs', es[1..]));
        if es[0].who == who {
          assert Own(who, es)[1..] == Own(who, es[1..]);
        } else {
          assert Own(who, es) == Own(who, es[1..]);
        }
      } else {
        BlocksAreOwn(txs, es[1..], who);
        assert Own(who, es) == Own(who, es[1..]);
      }
    } else {
      assert BlocksOf(who, []) == [];
    }
  }

  /** A client's transaction depends on its own messages only. */
  lemma {:induction false} TransactionsIndependent(s: State, es: seq<Event>, who: nat)
    ensures SessionOf(Run(s, es).m.sessions, who).tx == DecideAll(SessionOf(s.m.sessions, who).tx, Own(who, es)).0
    decreases |es|
  {
    if es != [] {
      var s1 := Step(s, es[0]);
      TransactionsIndependent(s1, es[1..], who);
      TxSame(s.m.sessions, who);
      TxSame(s1.m.sessions, who);
      if es[0].Receive? {
        HandleSerially(s.m, es[0].who, es[0].c, es[0].now);
        StepReceive(s, es[0]);
      } else {
        OthersExecuteNothing(s, es[0]);
      }
      hide Step, Handle, Decide, Txs, SessionOf;
      if es[0].Receive? && es[0].who == who {
        assert Own(who, es)[1..] == Own(who, es[1..]);
      } else {
        assert Own(who, es) == Own(who, es[1..]);
      }
    }
  }

  /** Commands are queued only while a transaction is open. */
  predicate QueueInTransaction(tx: Tx) {
    tx.queue != [] ==> tx.isOpen
  }

  lemma {:induction false} QueuesOnlyInTransactions(tx: Tx, cs: seq<Command>)
    requires QueueInTransaction(tx)
    ensures QueueInTransaction(DecideAll(tx, cs).0)
    decreases |cs|
  {
    if cs != [] {
      QueuesOnlyInTransactions(Decide(tx, cs[0]).0, cs[1..]);
    }
  }

  /** What ends an open transaction: EXEC or DISCARD, without arguments. */
  predicate Closes(c: Command) {
    |c| == 1 && (Name(c) == EXEC_NAME || Name(c) == DISCARD_NAME)
  }

  /** Whether an open transaction queues a command: an unknown one, a nested MULTI, and an EXEC or DISCARD
      with arguments are refused and do not spoil the rest. */
  predicate IsQueued(c: Command) {
    Name(c) in REGISTERED && Name(c) !in TRANSACTION_COMMANDS
  }

  function Queued(cs: seq<Command>): seq<Command> {
    if cs == [] then [] else (if IsQueued(cs[0]) then [cs[0]] else []) + Queued(cs[1..])
  }

  predicate NoneCloses(cs: seq<Command>) {
    forall i :: 0 <= i < |cs| ==> !Closes(cs[i])
  }

  /** Of n + 1 blocks only the last may be non-empty, and is `last`. */
  predicate OnlyLast(blocks: seq<seq<Command>>, n: nat, last: seq<Command>) {
    |blocks| == n + 1 && blocks[n] == last && forall i :: 0 <= i < n ==> blocks[i] == []
  }

  lemma OneMoreEmpty(blocks: seq<seq<Command>>, n: nat, last: seq<Command>)
    requires OnlyLast(blocks, n, last)
    ensures OnlyLast([[]] + blocks, n + 1, last)
  {
  }

  lemma {:induction false} QueueGrows(tx: Tx, cs: seq<Command>, last: Command)
    requires tx.isOpen && NoneCloses(cs) && Closes(last)
    ensures var (tx', blocks) := DecideAll(tx, cs + [last]);
      tx' == NO_TX && OnlyLast(blocks, |cs|, if Name(last) == EXEC_NAME then tx.queue + Queued(cs) else [])
    decreases |cs|
  {
    var all := cs + [last];
    DecideFirst(tx, all);
    if cs == [] {
      assert all[1..] == [];
      assert tx.queue + [] == tx.queue;
    } else {
      assert all[0] == cs[0] && all[1..] == cs[1..] + [last];
      Enqueues(tx, cs[0]);
      hide Decide, DecideAll, Closes, OnlyLast, IsQueued;
      var tx1 := Decide(tx, cs[0]).0;
      QueueGrows(tx1, cs[1..], last);
      QueueAssociative(tx.queue, cs[0], cs[1..]);
      OneMoreEmpty(DecideAll(tx1, all[1..]).1, |cs| - 1, if Name(last) == EXEC_NAME then tx.queue + Queued(cs) else []);
    }
  }

  lemma Enqueues(tx: Tx, c: Command)
    requires tx.isOpen && !Closes(c)
    ensures Decide(tx, c) == (tx.(queue := if IsQueued(c) then tx.queue + [c] else tx.queue), [])
  {
  }

  lemma QueueAssociative(q: seq<Command>, c: Command, cs: seq<Command>)
    ensures (if IsQueued(c) then q + [c] else q) + Queued(cs) == q + ((if IsQueued(c) then [c] else []) + Queued(cs))
  {
    hide IsQueued;
  }

  /** MULTI, any messages, and then EXEC execute exactly the queued commands among them, in their order,
      as the block of the EXEC; with DISCARD nothing is executed. */
  lemma TransactionBlock(multi: Command, cs: seq<Command>, last: Command)
    requires Name(multi) == MULTI_NAME && |multi| == 1 && NoneCloses(cs) && Closes(last)
    ensures var (tx, blocks) := DecideAll(NO_TX, [multi] + (cs + [last]));
      tx == NO_TX && OnlyLast(blocks, |cs| + 1, if Name(last) == EXEC_NAME then Queued(cs) else [])
  {
    hide *;
    var all, others := [multi] + (cs + [last]), cs + [last];
    Opens(multi);
    DecideFirst(NO_TX, all);
    QueueGrows(Tx(true, []), cs, last);
    assert all[0] == multi;
    assert all[1..] == others;
    assert [] + Queued(cs) == Queued(cs);
    OneMoreEmpty(DecideAll(Tx(true, []), others).1, |cs|, if Name(last) == EXEC_NAME then Queued(cs) else []);
  }

  lemma Opens(multi: Command)
    requires Name(multi) == MULTI_NAME && |multi| == 1
    ensures Decide(NO_TX, multi) == (Tx(true, []), [])
  {
  }

  lemma DecideFirst(tx: Tx, cs: seq<Command>)
    requires cs != []
    ensures var (tx1, block) := Decide(tx, cs[0]);
      var (tx2, blocks) := DecideAll(tx1, cs[1..]);
      DecideAll(tx, cs) == (tx2, [block] + blocks)
  {
    hide Decide;
  }

  /** Outside a transaction a known command is a block of its own, EXEC and DISCARD do nothing, and only
      a MULTI without arguments opens one. */
  lemma OutsideTransaction(c: Command)
    ensures var (tx, block) := Decide(NO_TX, c);
      block == (if IsQueued(c) then [c] else []) && tx == if Name(c) == MULTI_NAME && |c| == 1 then Tx(true, []) else NO_TX
  {
  }

  // ---- What an EXEC executes in a run ---------------------------------------------------------

  lemma {:induction false} DecideAllAppend(tx: Tx, a: seq<Command>, b: seq<Command>)
    ensures var (tx1, xs) := DecideAll(tx, a);
      var (tx2, ys) := DecideAll(tx1, b);
      DecideAll(tx, a + b) == (tx2, xs + ys) && |xs| == |a|
    decreases |a|
  {
    hide Decide;
    if a == [] {
      assert a + b == b;
      assert [] + DecideAll(tx, b).1 == DecideAll(tx, b).1;
    } else {
      assert (a + b)[1..] == a[1..] + b;
      var (tx0, block) := Decide(tx, a[0]);
      DecideAllAppend(tx0, a[1..], b);
      var (tx1, xs) := DecideAll(tx0, a[1..]);
      assert [block] + (xs + DecideAll(tx1, b).1) == [block] + xs + DecideAll(tx1, b).1;
    }
  }

  /** From block number `at` on: n empty blocks, and then `last`. */
  predicate LastAt(blocks: seq<seq<Command>>, at: nat, n: nat, last: seq<Command>) {
    at + n < |blocks| && blocks[at + n] == last && forall i :: at <= i < at + n ==> blocks[i] == []
  }

  lemma OnlyLastInside(a: seq<seq<Command>>, b: seq<seq<Command>>, c: seq<seq<Command>>, n: nat, last: seq<Command>)
    requires OnlyLast(b, n, last)
    ensures LastAt(a + (b + c), |a|, n, last)
  {
  }

  /** In any interleaved run: wherever among a client's own messages there is a MULTI outside a transaction,
      then messages cs none of which ends it, and then EXEC or DISCARD, the block executed at that last
      message is exactly the queued commands among cs, in order, or nothing; no other of these messages
      executes anything; and the store and the log are those of executing all blocks one after the other. */
  lemma ExecRunsItsQueue(store: Store, es: seq<Event>, who: nat,
                         before: seq<Command>, multi: Command, cs: seq<Command>, last: Command, after: seq<Command>)
    requires Own(who, es) == before + ([multi] + (cs + [last]) + after) && DecideAll(NO_TX, before).0 == NO_TX
    requires Name(multi) == MULTI_NAME && |multi| == 1 && NoneCloses(cs) && Closes(last)
    ensures var turns := Schedule(map[], es);
      && Run(Init(store), es).m.store == ExecuteAll(store, Serial(turns))
      && CommandsOf(Run(Init(store), es).m.log) == Propagated(Serial(turns))
      && LastAt(BlocksOf(who, turns), |before|, |cs| + 1, if Name(last) == EXEC_NAME then Queued(cs) else [])
  {
    FromInit(store, es);
    hide *;
    var middle := [multi] + (cs + [last]);
    BlocksAreOwn(map[], es, who);
    NoTxAtFirst(who);
    DecideAllAppend(NO_TX, before, middle + after);
    DecideAllAppend(NO_TX, middle, after);
    TransactionBlock(multi, cs, last);
    var tx1 := DecideAll(NO_TX, middle).0;
    OnlyLastInside(DecideAll(NO_TX, before).1, DecideAll(NO_TX, middle).1, DecideAll(tx1, after).1, |cs| + 1,
                   if Name(last) == EXEC_NAME then Queued(cs) else []);
  }

  /** In any interleaved run, a message that finds no transaction of its client open is executed alone, or not
      at all if its name is unknown or is one of MULTI, EXEC and DISCARD. */
  lemma PlainRunsAlone(es: seq<Event>, who: nat, before: seq<Command>, c: Command, after: seq<Command>)
    requires Own(who, es) == before + ([c] + after) && DecideAll(NO_TX, before).0 == NO_TX
    ensures var blocks := BlocksOf(who, Schedule(map[], es));
      |before| < |blocks| && blocks[|before|] == if IsQueued(c) then [c] else []
  {
    OutsideTransaction(c);
    hide *;
    BlocksAreOwn(map[], es, who);
    NoTxAtFirst(who);
    DecideAllAppend(NO_TX, before, [c] + after);
    DecideFirst(NO_TX, [c] + after);
    assert ([c] + after)[0] == c;
  }

  lemma NoTxAtFirst(who: nat)
    ensures TxOf(map[], who) == NO_TX
  {
  }

  lemma FromInit(store: Store, es: seq<Event>)
    ensures var xs := Serial(Schedule(map[], es));
      Run(Init(store), es).m.store == ExecuteAll(store, xs) && CommandsOf(Run(Init(store), es).m.log) == Propagated(xs)
  {
    RunIsSerial(Init(store), es);
    assert Txs(map[]) == map[];
    hide Serial, Schedule, ExecuteAll, Propagated, Run;
    var xs := Serial(Schedule(map[], es));
    assert CommandsOf([]) + Propagated(xs) == Propagated(xs);
  }

  // ---- What is propagated, by its words -------------------------------------------------------

  /** SET, INCR and DEL, in any case of letters. */
  predicate IsWrite(c: Command) {
    IsWord(c[0], "set") || IsWord(c[0], "incr") || IsWord(c[0], "del")
  }

  function WritesAmong(cs: seq<Command>): seq<Command> {
    if cs == [] then [] else (if IsWrite(cs[0]) then [cs[0]] else []) + WritesAmong(cs[1..])
  }

  /** A plain write is propagated unless it ended with an error. */
  lemma PlainPropagates(m: Master, who: nat, c: Command, now: nat)
    ensures CommandsOf(RunOne(m, who, c, now, false).log) ==
      CommandsOf(m.log) + if IsWrite(c) && Execute(m.store, c, now).1 != Aborted then [c] else []
  {
    SpecialCommands(NO_TX, c);
    hide Execute, Charge, IsWord;
    assert CommandsOf(m.log) + [] == CommandsOf(m.log);
  }

  lemma QueuedPropagates(m: Master, who: nat, c: Command, now: nat)
    ensures CommandsOf(RunOne(m, who, c, now, true).log) == CommandsOf(m.log) + if IsWrite(c) then [c] else []
  {
    SpecialCommands(NO_TX, c);
    hide Execute, Charge, IsWord;
    assert CommandsOf(m.log) + [] == CommandsOf(m.log);
  }

  /** EXEC propagates every write of its queue, in order, whether it ended with an error or not. */
  lemma {:induction false} ExecPropagates(m: Master, who: nat, cs: seq<Command>, now: nat)
    ensures CommandsOf(RunAll(m, who, cs, now, true).log) == CommandsOf(m.log) + WritesAmong(cs)
    decreases |cs|
  {
    hide RunOne, CommandsOf, IsWrite;
    if cs == [] {
      assert CommandsOf(m.log) + [] == CommandsOf(m.log);
    } else {
      var m1 := RunOne(m, who, cs[0], now, true);
      QueuedPropagates(m, who, cs[0], now);
      ExecPropagates(m1, who, cs[1..], now);
      var first := if IsWrite(cs[0]) then [cs[0]] else [];
      assert CommandsOf(m.log) + first + WritesAmong(cs[1..]) == CommandsOf(m.log) + (first + WritesAmong(cs[1..]));
    }
  }
}
