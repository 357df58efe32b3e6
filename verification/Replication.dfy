/** Replication as a state machine: a master with its clients, and per replica a connection, the
    sends that are under way, and the replica's own state. Every step is one critical section or one
    message of the main loop. */
module Replication {
  import opened Bytes
  import opened RdbFormat
  import opened Commands
  import Resp
  import Framing
  import Rdb

  // ---- What travels from the master to a replica ----------------------------------------------

  /** A command as the value that is encoded on the wire: an array of bulk strings. */
  function AsResp(c: seq<bytes>): Resp.Resp {
    Resp.Aggregate(Resp.ARRAY, seq(|c|, i requires 0 <= i < |c| => Resp.Bulk(Resp.BULK_STRING, c[i], false)), false)
  }

  /** REPLCONF GETACK * and PING. */
  const GETACK_COMMAND: seq<bytes> := [[82, 69, 80, 76, 67, 79, 78, 70], [71, 69, 84, 65, 67, 75], [42]]
  const PING_COMMAND: seq<bytes> := [[80, 73, 78, 71]]

  datatype Item =
    | Write(c: Command)
    | GetAck
    | Ping
    | Snapshot(data: Store, order: seq<bytes>, ctime: int)

  /** The command an item is sent as; a snapshot is not sent as a command. */
  function Message(i: Item): seq<bytes>
    requires !i.Snapshot?
  {
    match i
    case Write(c) => c
    case GetAck => GETACK_COMMAND
    case Ping => PING_COMMAND
  }

  /** What the master charges for an item. */
  function Charge(i: Item): nat {
    if i.Snapshot? then 0 else |Resp.Raw(AsResp(Message(i)))|
  }

  /** What a replica counts for it: the length of the buffer that the command was parsed from. */
  function Count(i: Item): nat {
    if i.Snapshot? then 0 else |Framing.BufferOf(AsResp(Message(i)))|
  }

  /** The file that a snapshot is sent as. */
  function SnapshotFile(i: Item): bytes
    requires i.Snapshot? && AllStrings(i.data) && Enumerates(i.order, i.data.Keys)
  {
    File(Preamble(i.ctime, |i.data|, Rdb.Expiring(i.data)) + Entries(i.order, i.data))
  }

  predicate WellFormed(i: Item) {
    i.Snapshot? ==> AllStrings(i.data) && Short(i.data) && Enumerates(i.order, i.data.Keys)
  }

  function ChargeAll(items: seq<Item>): nat {
    if items == [] then 0 else ChargeAll(items[..|items| - 1]) + Charge(items[|items| - 1])
  }

  function WritesOf(items: seq<Item>): seq<Command> {
    if items == [] then []
    else
      var last := items[|items| - 1];
      WritesOf(items[..|items| - 1]) + if last.Write? then [last.c] else []
  }

  // ---- The master -----------------------------------------------------------------------------

  /** A client's transaction: whether one is open, and the commands queued in it. */
  datatype Tx = Tx(isOpen: bool, queue: seq<Command>)

  const NO_TX := Tx(false, [])

  datatype Session = Session(lastWrite: nat, tx: Tx)

  const NEW_SESSION := Session(0, NO_TX)

  /** A registered replica, as the master sees it: the offset it last acknowledged, what has been
      written to its connection, and what has been charged but is still to be written. The other
      fields record where the master stood when it was registered, and the pings charged since then
      that went to other replicas. */
  datatype Outlet = Outlet(acked: nat, sent: seq<Item>, pending: seq<Item>, base: nat, first: nat, elsewhere: nat)

  /** A propagated write, the client it came from, and the offset after it was charged. */
  datatype Logged = Logged(who: nat, c: Command, offset: nat)

  datatype Master = Master(store: Store, offset: nat, sessions: map<nat, Session>, outlets: map<nat, Outlet>, log: seq<Logged>)

  function SessionOf(sessions: map<nat, Session>, who: nat): Session {
    if who in sessions then sessions[who] else NEW_SESSION
  }

  /** `PropagateCommand`. */
  function Propagate(m: Master, who: nat, c: Command): Master {
    var offset := m.offset + Charge(Write(c));
    m.(offset := offset,
       sessions := m.sessions[who := SessionOf(m.sessions, who).(lastWrite := offset)],
       outlets := map r | r in m.outlets :: m.outlets[r].(sent := m.outlets[r].sent + [Write(c)]),
       log := m.log + [Logged(who, c, offset)])
  }

  /** The charge of `sendReplConfGetAckToAllReplicas`: once, whatever the number of replicas. */
  function ChargeGetAck(m: Master): Master {
    m.(offset := m.offset + Charge(GetAck),
       outlets := map r | r in m.outlets :: m.outlets[r].(pending := m.outlets[r].pending + [GetAck]))
  }

  /** The charge of `sendPing`, for one replica. */
  function ChargePing(m: Master, to: nat): Master {
    m.(offset := m.offset + Charge(Ping),
       outlets := map r | r in m.outlets ::
         if r == to then m.outlets[r].(pending := m.outlets[r].pending + [Ping])
         else m.outlets[r].(elsewhere := m.outlets[r].elsewhere + Charge(Ping)))
  }

  // ---- Commands of clients --------------------------------------------------------------------

  const TRANSACTION_COMMANDS: set<bytes> := {MULTI_NAME, EXEC_NAME, DISCARD_NAME}

  /** What one message does to the client's transaction, and the commands that are executed for it. */
  function Decide(tx: Tx, c: Command): (Tx, seq<Command>) {
    var name := Name(c);
    if name !in REGISTERED then (tx, [])
    else if tx.isOpen && name !in TRANSACTION_COMMANDS then (tx.(queue := tx.queue + [c]), [])
    else if name == MULTI_NAME then (if |c| == 1 && !tx.isOpen then Tx(true, []) else tx, [])
    else if name == EXEC_NAME then if |c| == 1 && tx.isOpen then (NO_TX, tx.queue) else (tx, [])
    else if name == DISCARD_NAME then (if |c| == 1 && tx.isOpen then NO_TX else tx, [])
    else (tx, [c])
  }

  /** Executes a command. A write is propagated unless it ended with an error; in a transaction it is
      propagated all the same. */
  function RunOne(m: Master, who: nat, c: Command, now: nat, inExec: bool): Master {
    var (store, reply) := Execute(m.store, c, now);
    var m1 := m.(store := store);
    if Name(c) in WRITEABLE && (inExec || reply != Aborted) then Propagate(m1, who, c) else m1
  }

  function RunAll(m: Master, who: nat, cs: seq<Command>, now: nat, inExec: bool): Master
    decreases |cs|
  {
    if cs == [] then m else RunAll(RunOne(m, who, cs[0], now, inExec), who, cs[1..], now, inExec)
  }

  predicate Waits(tx: Tx, c: Command) {
    Name(c) == WAIT_NAME && !tx.isOpen
  }

  /** `handleMessage`. */
  function Handle(m: Master, who: nat, c: Command, now: nat): Master {
    var s := SessionOf(m.sessions, who);
    var (tx, cs) := Decide(s.tx, c);
    var m1 := m.(sessions := m.sessions[who := s.(tx := tx)]);
    RunAll(if Waits(s.tx, c) then ChargeGetAck(m1) else m1, who, cs, now, s.tx.isOpen)
  }

  // ---- Replicas -------------------------------------------------------------------------------

  /** A replica: how much of what was sent it has taken, its offset, the bytes it failed to count, its
      data, the writes it executed, and the acknowledgements on their way to the master. `start` is
      the data it came with, `exact` records that one of its PSYNCs put it in line, and `own` counts the
      WAITs that it received from clients of its own. */
  datatype Remote = Remote(taken: nat, processed: nat, lost: nat, store: Store, executed: seq<Command>, acks: seq<nat>,
                           start: Store, exact: bool, own: nat)

  function NewRemote(start: Store): Remote {
    Remote(0, 0, 0, start, [], [], start, false, 0)
  }

  /** A client sends WAIT to a replica: as on the master, GETACK is charged, to the same offset that the
      replica answers with. */
  function OwnGetAck(x: Remote): Remote {
    x.(processed := x.processed + Charge(GetAck), own := x.own + 1)
  }

  /** What an item does to the data of a replica. An empty snapshot is not restored. */
  function Applied(store: Store, i: Item, now: nat): Store {
    match i
    case Write(c) => Execute(store, c, now).0
    case Snapshot(data, order, _) =>
      if AllStrings(data) && Enumerates(order, data.Keys) then
        (match ParseFile(SnapshotFile(i), now)
         case None => store
         case Some(d) => if d == map[] then store else d)
      else store
    case _ => store
  }

  /** A replica takes the next item: a write is executed and then counted, GETACK is answered with the
      offset before it is counted itself. */
  function TakeNext(x: Remote, i: Item, now: nat): Remote {
    var y := x.(taken := x.taken + 1, processed := x.processed + Count(i), lost := x.lost + Lost(i), store := Applied(x.store, i, now));
    match i
    case Write(c) => y.(executed := x.executed + [c])
    case GetAck => y.(acks := x.acks + [x.processed])
    case _ => y
  }

  function Lost(i: Item): nat {
    if Count(i) <= Charge(i) then Charge(i) - Count(i) else 0
  }

  // ---- The whole system -----------------------------------------------------------------------

  datatype State = State(m: Master, remotes: map<nat, Remote>, next: nat)

  datatype Event =
    | Receive(who: nat, c: Command, now: nat)           // a client's command reaches the main loop
    | Join(start: Store)                                 // REPLCONF listening-port
    | Psync(r: nat, order: seq<bytes>, ctime: int)
    | GetAckTick
    | PingTick(r: nat)                                  // the charge of one ping
    | Send(r: nat, i: nat)                              // one of the pending sends is written, in any order
    | Take(r: nat, now: nat)
    | AckArrives(r: nat)                                // REPLCONF ACK
    | Drop(r: nat)                                      // the replica is removed
    | OwnWait(r: nat)                                   // a client of the replica sends it WAIT

  function Without(items: seq<Item>, i: nat): seq<Item>
    requires i < |items|
  {
    items[..i] + items[i + 1..]
  }

  function Step(s: State, e: Event): State {
    match e
    case Receive(who, c, now) => s.(m := Handle(s.m, who, c, now))
    case Join(start) =>
      State(s.m.(outlets := s.m.outlets[s.next := Outlet(0, [], [], s.m.offset, |s.m.log|, 0)]),
            s.remotes[s.next := NewRemote(start)], s.next + 1)
    case Psync(r, order, ctime) =>
      var i := Snapshot(s.m.store, order, ctime);
      if r in s.m.outlets && r in s.remotes && WellFormed(i) then
        s.(m := s.m.(outlets := s.m.outlets[r := s.m.outlets[r].(sent := s.m.outlets[r].sent + [i])]),
           remotes := s.remotes[r := s.remotes[r].(exact := InLine(s, r))])
      else s
    case GetAckTick => s.(m := ChargeGetAck(s.m))
    case PingTick(r) => s.(m := ChargePing(s.m, r))
    case Send(r, i) =>
      if r in s.m.outlets && i < |s.m.outlets[r].pending| then
        var o := s.m.outlets[r];
        s.(m := s.m.(outlets := s.m.outlets[r := o.(sent := o.sent + [o.pending[i]], pending := Without(o.pending, i))]))
      else s
    case Take(r, now) =>
      if r in s.m.outlets && r in s.remotes && s.remotes[r].taken < |s.m.outlets[r].sent| then
        s.(remotes := s.remotes[r := TakeNext(s.remotes[r], s.m.outlets[r].sent[s.remotes[r].taken], now)])
      else s
    case AckArrives(r) =>
      if r in s.m.outlets && r in s.remotes && s.remotes[r].acks != [] then
        s.(m := s.m.(outlets := s.m.outlets[r := s.m.outlets[r].(acked := s.remotes[r].acks[0])]),
           remotes := s.remotes[r := s.remotes[r].(acks := s.remotes[r].acks[1..])])
      else s
    case Drop(r) => s.(m := s.m.(outlets := s.m.outlets - {r}), remotes := s.remotes - {r})
    case OwnWait(r) => if r in s.remotes then s.(remotes := s.remotes[r := OwnGetAck(s.remotes[r])]) else s
  }

  /** A PSYNC puts the replica in line: there is something to restore, or it came with nothing that the
      empty snapshot would have had to remove. */
  predicate InLine(s: State, r: nat)
    requires r in s.remotes
  {
    s.m.store != map[] || Strings(s.remotes[r].start) == map[]
  }

  function Run(s: State, es: seq<Event>): State
    decreases |es|
  {
    if es == [] then s else Run(Step(s, es[0]), es[1..])
  }

  /** No client sets an expiry, and no replica comes with one. */
  predicate ExpiryFree(e: Event) {
    (e.Receive? ==> SetsNoExpiry(e.c)) && (e.Join? ==> NoExpiry(e.start))
  }

  predicate AllExpiryFree(es: seq<Event>) {
    forall i :: 0 <= i < |es| ==> ExpiryFree(es[i])
  }

  /** The master starts with the data of its file, without clients or replicas. */
  function Init(store: Store): State {
    State(Master(store, 0, map[], map[], []), map[], 0)
  }
}
