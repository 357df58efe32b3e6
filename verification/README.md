# A verified model of a small Redis server

The repository is an in-memory key-value server that speaks the Redis protocol: string keys with SET,
GET and INCR, streams, transactions, replication with WAIT, and snapshots in the RDB format. This
project models its hard parts in Dafny 4.11 and proves what they promise. `dafny verify dfyconfig.toml`
checks everything.

## The parts

- **Replication and WAIT** (`Replication`, `ReplicationCharges`, `ReplicationSafety`, `ReplicationOwnWaits`,
  `ReplicationSteps`, `ReplicationConvergence`, `ReplicationPrefix`, `ReplicationLimits`, `ReplicaWire`, `WaitCommand`, `Server`,
  `Replica`). A state machine of a master with clients, and per replica a connection, pending sends, and the
  replica's own offset, data, clients that send it WAIT, and acknowledgements. A step
  is one message of the main loop or one critical section; GETACK and PING sends are charged in one step
  and written in a later one, in any order. Theorems are about all sequences of steps. The classes
  `Server` and `Replica` have the methods of the source and are proved to take these steps.
- **Transactions and commands** (`SerialTransactions`, `Commands`, `CommandWords`, `SetCommand`, `XAddCommand`, `Kv`). The serial meaning of interleaved
  clients, and SET, INCR, GET and the key effects of XADD on the store.
- **Streams** (`Slots`, `SlotTables`, `Children`, `RadixSpec`, `RadixOrder`, `RadixLeaves`, `RadixQueries`, `Radix`,
  `StreamIds`, `StreamRuns`, `StreamOrder`, `Stream`). The adaptive radix tree: as a value, with all its laws, and as nodes
  and containers on the heap that are changed in place and proved to follow the value. All order is byte
  order on ID strings, as in the code.
- **Snapshots** (`RdbFormat`, `RdbBytes`, `RdbDamage`, `Rdb`, `Crc64`, `Crc64Table`, `BitVectorBytes`). The RDB saver and parser and
  the streaming CRC-64-Jones checksum, against the format and against each other.
- **Protocol** (`Resp`, `RespBytes`, `Framing`, `Decimal`, `Bytes`). The RESP printer and parser, and the loops that
  parse a growing buffer again after every line.

## Results about the code that are worth knowing

- A command whose last payload is empty or ends in LF is delivered to a replica two bytes short, so the
  replica's offset drifts by two per such command (`Framing.OffsetDrift`, `ReplicationLimits.AcknowledgementLags`).
  WAIT stays safe under that, because such an offset is too low.
- A client that sends WAIT to a replica raises the very offset that the replica answers GETACK with, by 37 each
  time, since the charge is made on any server. One such WAIT is harmless; n of them can make the master's WAIT
  count a replica that has executed nothing, exactly if 37 n is at least 37 + the master's offset at its registration +
  the length of the write (`ReplicationOwnWaits.WaitSafetyIff`, `ReplicationOwnWaits.OwnWaitsMislead`).
- A client's command with an LF before the last byte of a payload is thrown away by the read loop
  (`Framing.ClientDelivery`).
- A complete line whose first byte is no kind of value stays in the buffer, and silences the connection for good
  (`RespBytes.UnknownLineSilences`).
- An empty snapshot is not restored: a replica that brings strings of its own to an empty master keeps them, and
  stays apart at least while the master lacks one of its keys (`ReplicationConvergence.ResyncConverges`,
  `ReplicationConvergence.StaysApart`, `ReplicationLimits.EmptySnapshotLeavesApart`). The same writes under the same
  keys can bring the two together again (`ReplicationLimits.SameWriteBringsTogether`).
- WAIT can count a replica that joined after the write (`ReplicationLimits.LateJoinerIsCounted`).
- Trimming by size cannot reach an entry whose ID extends another one's (`StreamRuns.BuriedEntryStays`);
  it reaches the wanted size exactly under the condition in `StreamRuns.RunTrimReaches`.
- An explicit ID can set the clock of ID generation back, since "above the last ID" is decided in byte order, and
  then a returned ID can repeat (`StreamIds.ExplicitIdRepeats`). The exact guard is in `StreamIds.PairsIncreaseIff`.
- A generated ID is not compared with the last one and can be below it in byte order (`StreamRuns.GeneratedBelowLast`).
  The exact guard is in `StreamOrder.GuardedRunOrdered`.
- The parser takes the end of the input for the end of the file, so a damaged length byte can swallow the checksum
  that would have shown the damage (`RdbDamage.DamageSwallowsEnd`, with the exact condition in `RdbDamage.DamageNoticed`).
- The expiry of the format's seconds form is taken as milliseconds by the parser (`RdbFormat.SecondsExpiryMeaning`), and
  the saver writes a string value of an auxiliary field as the field's name a second time (`RdbFormat.AuxTextLost`).
- KEEPTTL loses the expiry it is to keep (`SetCommand.KeepTtlForgets`), and SET overwrites a stream and answers its GET
  with nil where the comment in pkg/command/set.go:38 promises an error (`SetCommand.SetIgnoresType`).
- The lifetime of EX and PX, and the timeout of WAIT (`WaitCommand.TimeoutMeaning`), wrap around at 2^63 nanoseconds (`SetCommand.ExpiryMeaning`).

## Assumptions

Replies can be written. Replicas take writes from their master only. A replica is identified by its
connection, and a connection that was removed does not come back. The two writes of PSYNC are one step, and
its snapshot is of keys and values shorter than 2^32 bytes; with a stream in the store there is no snapshot.
In the results about the data of master and replicas (`ReplicationConvergence`, `ReplicationPrefix`,
`SerialTransactions.LogDeterminesStrings`) there are no expiry times at the start and clients set none; the other
results hold with them. Commands are
arrays of bulk strings. Offsets do not wrap at 2^64. A command reads the time once, in whole milliseconds; the
time of day that IDs are generated from is a 64-bit number.

## Model

| member | source | states |
|---|---|---|
| ReplicationSafety.WaitSafety | internal/app/server/server.go:723-733 | in every reachable state, a registered replica whose recorded acknowledgement reaches the offset of a write that was propagated to it has executed that write and all earlier ones propagated to it, in log order, as long as 37 bytes for every WAIT that the replica received itself stay below 37 + the master's offset at its registration + the length of the write; every interleaving of writes, delayed GETACK and PING sends, replica steps, WAITs at replicas, acknowledgements, joins and removals |
| ReplicationOwnWaits.WaitSafetyIff | internal/app/server/server.go:515-517 | that condition is exact: for any write and any offset at registration that a run can lead to, all counted replicas with n WAITs of their own have executed the write, over all runs, if and only if 37 n < 37 + offset + length |
| ReplicationOwnWaits.OwnWaitsMislead | internal/app/server/server.go:595-603 | the run in which it fails, for every n that is too large and after any other run: the replica is counted with an empty store, having executed nothing |
| ReplicationSafety.WaitCountsExecuted | pkg/command/wait.go:31-43 | for the offset that WAIT reads once, at its start, and any acknowledgements counted in any later state of any run, whatever the client and others do in between: the offset is that of the client's last propagated write at the start, and every replica counted for it that was registered when that write was propagated has executed it, under the condition on its own WAITs |
| ReplicationSafety.NoWriteNoOffset | pkg/command/wait.go:31-35 | a client has nothing to wait for if and only if none of its writes was propagated |
| ReplicationSafety.WaitAsksEveryone | internal/app/server/server.go:515-517 | a WAIT outside a transaction puts one GETACK under way to every registered replica, charged once, and changes nothing else; inside a transaction it asks nobody |
| ReplicationSafety.AnswerIsExact | internal/app/server/server.go:291-292 | the answer to GETACK is what was charged for everything sent before it, less two bytes per command that ended early, and more by 37 per WAIT that the replica received itself |
| ReplicationSafety.AnswerIsComplete | internal/app/server/server.go:595-603 | when a GETACK is the last thing under way to a replica, its answer is the master offset before that charge, less exactly the offset at registration, the pings of others and two bytes per command that ended early, and more by 37 per WAIT of its own |
| ReplicationSafety.OffsetConservation | internal/app/server/server.go:538-555 | after any run, for each registered replica: master offset + 37 per WAIT of the replica's own = offset at registration + bytes counted by the replica + two per executed command that ends early + bytes on its wire + bytes of pending sends + pings charged for other replicas since; a recorded acknowledgement is at least a GETACK behind the bytes counted |
| ReplicationSafety.AcksMonotone | internal/app/server/server.go:646-659 | over any run after which a replica is still registered, its recorded acknowledgement has not gone down |
| ReplicationSafety.AcksNeverDecrease | pkg/command/replconf.go:33-43 | no step lowers the offset recorded for a replica that stays registered |
| ReplicationSafety.StepOk | internal/app/server/server.go:500-655 | every step keeps the books: charges balance, writes on a wire are exactly the log since registration, everything sent up to a write is charged by its logged offset, and replicas have counted and executed what they took |
| ReplicationSafety.HandleOk | internal/app/server/server.go:500-536 | handling any client message keeps the books and never takes back or reorders what was sent |
| ReplicationSafety.PropagateOk | internal/app/server/server.go:538-555 | propagation charges before sending, logs the offset after the charge and extends every wire by the write |
| ReplicationSafety.ChargeGetAckOk | internal/app/server/server.go:595-625 | GETACK is charged once per broadcast; balance is kept for every registered replica although the sends are still pending |
| ReplicationSafety.ChargePingOk | internal/app/server/server.go:627-633 | a PING is charged once per replica; every other replica books it as sent elsewhere |
| ReplicationSteps.PingMeaning | internal/app/server/server.go:627-633 | a ping is charged 14 bytes and is on its way to one replica only |
| ReplicationSteps.BroadcastMeaning | internal/app/server/server.go:595-625 | a broadcast of GETACK is charged 37 bytes once and is on its way to every replica |
| ReplicationSteps.SendMeaning | internal/app/server/server.go:605-624 | a pending send goes to the end of what was sent to that replica |
| ReplicationSteps.TakeMeaning | internal/app/server/server.go:259-302 | a replica executes a write, answers GETACK with the offset before it, and counts 37 or 14 bytes for GETACK or a ping |
| ReplicationSteps.AckMeaning | pkg/command/replconf.go:33-43 | the acknowledgement that arrives is the one that was sent first, and is recorded for that replica only |
| ReplicationSteps.PsyncMeaning | pkg/command/psync.go:27-54 | a resynchronization sends a snapshot of all the data, after what was sent before |
| ReplicationSteps.DropMeaning | internal/app/server/server.go:646-653 | a removed replica is gone, and nothing else changes |
| ReplicationSafety.ExecutedByThen | internal/app/server/server.go:202-206 | the key step: an acknowledged offset at or above a write's logged offset cannot leave that write on the wire |
| ReplicationCharges.CountOf | internal/app/server/server.go:204-206 | a replica counts what the master charged for a command, short of two bytes exactly if its encoding ends in an empty payload or in LF |
| ReplicationConvergence.Convergence | internal/app/server/server.go:259-281 | in every reachable state, a replica in line that takes what is still on its wire ends with exactly the master's strings; one with an empty wire has them now; for clients that set no expiry, with streams on the same keys at the master, inside and outside EXEC |
| ReplicationPrefix.PrefixConsistency | internal/app/server/server.go:259-281 | in every reachable state, whatever is still on its wire: a replica that has restored a snapshot, or came with the strings that the master had at its registration, has exactly the strings of a prefix of the log, of the writes before its registration and those it has executed |
| ReplicationPrefix.CountedHoldsWrite | internal/app/server/server.go:723-733 | so a replica that WAIT counts and that has restored a snapshot holds the write: its prefix has the write in it, also if it joined late |
| ReplicationConvergence.ResyncConverges | internal/app/server/server.go:247-252 | right after a full resynchronization the replica is destined for the master's strings if and only if the master holds something, or the replica came without strings (an empty snapshot is not restored) |
| ReplicationConvergence.OwnKeysStay | internal/app/server/server.go:247-252 | in every reachable state a replica that no resynchronization has put in line keeps the string keys it came with, so it cannot agree with the master before the master has all of them |
| ReplicationConvergence.StaysApart | internal/app/server/server.go:247-252 | after such a resynchronization, and until the next one, it stays apart for as long as the master lacks one of those keys |
| ReplicationConvergence.StepTracks | internal/app/server/server.go:500-655 | every step keeps: replaying the wire on a replica in line gives the master's strings |
| ReplicationConvergence.WriteFollows | internal/app/server/server.go:523-530 | executing a write at the master and sending it keeps the replica on course |
| ReplicationConvergence.TakeFollows | internal/app/server/server.go:259-281 | taking an item, at whatever time, leaves the destined data of the replica unchanged |
| ReplicationConvergence.SnapshotApplied | internal/app/server/server.go:236-252 | the bytes of a snapshot are parsed back to the data they were made from, which replaces the replica's data unless it is empty |
| ReplicationConvergence.NotPropagated | internal/app/server/server.go:523-530 | a command that is not propagated (an aborted write or no write) leaves the master's strings alone |
| ReplicationLimits.LateJoinerIsCounted | internal/app/server/server.go:655-659 | a concrete run in which WAIT counts a replica that joined after the write and never received it: registration before the write is needed |
| ReplicationLimits.EmptySnapshotLeavesApart | internal/app/server/server.go:247-252 | a concrete run: a replica that brings a key to an empty master keeps it after the resynchronization |
| ReplicationLimits.SameWriteBringsTogether | internal/app/server/server.go:247-252 | the same run one write later, where the two agree again although no resynchronization put the replica in line |
| ReplicationLimits.EmptyValueDrifts | internal/app/server/server.go:204-206 | a concrete command, SET with an empty value: charged 26 bytes, counted 24 |
| ReplicationLimits.AcknowledgementLags | internal/app/server/server.go:291-292 | a replica's acknowledgement stays behind the master by a GETACK, its offset at registration, the pings of others and two bytes per command that ended early, and is ahead by at most 37 per WAIT of its own |
| ReplicationCharges.FixedCharges | pkg/resp/command.go:5-15 | GETACK is 37 bytes and PING 14 |
| ReplicaWire.WireIsTaken | internal/app/server/server.go:167-207 | the read loop takes every sent command once, in order, and adds to its offset exactly what the state machine counts; the bytes on the wire are the bytes charged |
| SerialTransactions.RunIsSerial | internal/app/server/server.go:500-536 | for any interleaving of clients, the store is the serial execution of plain commands in arrival order and each EXEC's queue as one block in queue order, and the propagated log is the writes of that execution in the same order |
| SerialTransactions.LogDeterminesStrings | internal/app/server/server.go:523-530 | if no client sets an expiry, replaying the propagated log alone on the initial data gives the master's strings |
| SerialTransactions.BlocksAreOwn | internal/client/client.go:62-92 | in any interleaving, the blocks executed for a client are those that its own messages alone decide |
| SerialTransactions.TransactionsIndependent | internal/client/client.go:62-92 | and so is its transaction |
| SerialTransactions.ExecRunsItsQueue | pkg/command/transaction.go:36-101 | in any interleaved run: where a client's own messages are MULTI, messages that do not end the transaction, and EXEC or DISCARD, the block executed at the last one is exactly the queued commands among them, in order, or nothing, nothing is executed before, and the store and the propagated log are those of executing all blocks one after the other |
| SerialTransactions.PlainRunsAlone | internal/app/server/server.go:505-514 | in any interleaved run, a known command that finds no transaction of its client open is a block of its own |
| SerialTransactions.ExecPropagates | pkg/command/transaction.go:55-75 | EXEC propagates every SET, INCR and DEL of its queue, in order, whether it ended with an error or not |
| SerialTransactions.PlainPropagates | internal/app/server/server.go:523-530 | outside of it one is propagated unless it ended with an error |
| SerialTransactions.TransactionBlock | pkg/command/transaction.go:36-101 | MULTI, any messages and EXEC execute exactly the queued commands among them, in order, at the EXEC; unknown commands, nested MULTI and malformed EXEC or DISCARD do not spoil the rest; with DISCARD nothing is executed |
| SerialTransactions.QueuesOnlyInTransactions | internal/client/client.go:62-92 | a queue is non-empty only while a transaction is open |
| SerialTransactions.AbortsAlways | pkg/command/set.go:48-51 | whether a write returns an error, and so is not propagated outside EXEC, depends on its arguments only |
| Server.Server.HandleMessage | internal/app/server/server.go:500-536 | the method with its branches takes exactly the state machine's step for a client message |
| Server.Server.PropagateCommand | internal/app/server/server.go:538-555 | charge, last write offset, log and the loop over the replicas |
| Server.Server.SendReplConfGetAckToAllReplicas | internal/app/server/server.go:595-625 | one charge, one pending send per registered replica |
| Server.Server.SendPing | internal/app/server/server.go:627-633 | one charge and one pending send |
| Server.Server.Exec | pkg/command/transaction.go:36-83 | the loop over the queue executes and propagates in queue order, and then the transaction is cleared |
| Server.Server.Multi | pkg/command/transaction.go:17-26 | opens an empty transaction, unless given arguments or nested |
| Server.Server.Discard | pkg/command/transaction.go:92-101 | drops the queue |
| Server.Server.AddReplica | internal/app/server/server.go:655-659 | registration takes exactly the state machine's step in which a replica joins, and keeps the invariant of all reachable states; a replica that is already registered stays as it is |
| Server.Server.UpdateOffset | internal/client/client.go:106-110 | recording the acknowledgement that was sent first takes exactly the state machine's step in which it arrives, and never lowers the recorded offset |
| Server.Server.HandleReplConf | internal/app/server/server.go:515-533 | REPLCONF from a replica: the exact word listening-port registers a new one at the current offset with nothing sent, as the state machine does, and leaves a registered one alone; ack in any case of letters with one number records that number; anything else changes nothing |
| Server.AnswerArrives | pkg/command/replconf.go:33-43 | the digits of the offset that a replica sends are read back, so its REPLCONF ACK is the step in which the acknowledgement arrives |
| WaitCommand.WaitMeans | pkg/command/wait.go:31-60 | in any run, with any rounds of polling: all rounds before the one that answers found too few acknowledgements and the time not over; that one gives the number of replicas that have acknowledged the offset read at the start, and those registered in time have executed the write; or it came after the timeout and gives the number of replicas registered a moment later |
| WaitCommand.TimeoutMeaning | pkg/command/wait.go:39-55 | a timeout of t milliseconds is over after 1000000 t nanoseconds, if and only if that fits 64 bits; one a little longer is over at once; 0 never is |
| WaitCommand.ExecuteWait | pkg/command/wait.go:16-60 | the method with its argument checks and its polling loop: malformed or negative arguments are refused, a client without writes gets 0 at once, else the first round that is enough or too late answers |
| WaitCommand.CountAcknowledged | internal/app/server/server.go:723-733 | the loop counts the replicas at or above the offset |
| Replica.Replica.HandleMasterResponse | internal/app/server/server.go:259-302 | the replica's method does what the state machine's replica does: executes or answers, then counts |
| Replica.Replica.ReceiveRDB | internal/app/server/server.go:236-254 | a parsed, non-empty snapshot replaces the data; anything else leaves it |
| Replica.Replica.SendReplConfGetAckToAllReplicas | internal/app/server/server.go:595-603 | a WAIT at the replica is charged to the offset that it answers with, as in the step of the state machine |
| Replica.FullResync | pkg/command/psync.go:38-46 | saving the export fails exactly if the store holds a stream, else gives the snapshot file of the store |
| Commands.WritesAlike | internal/app/server/config/config.go:17-23 | SET and INCR answer alike and keep the strings equal on any two stores with the same strings, whatever streams they hold and whatever the time |
| Commands.OthersKeepStrings | pkg/command/xadd.go:71-82 | no other command changes a string: XADD creates a stream only under a free key |
| Commands.StringsStay | pkg/keyval/kv.go:100-108 | without expiries no command removes a string key |
| Commands.IncrRun | pkg/command/incr.go:26-51 | n INCRs on a key holding v (or absent, v = 0), v + n <= MaxInt64, reply v+1 .. v+n, store the canonical decimal and leave all other keys alone |
| Commands.IncrFails | pkg/command/incr.go:32-43 | INCR is refused if and only if the string is no 64-bit integer or is MaxInt64, and then the store is unchanged |
| SetCommand.IncrMeaning | pkg/command/incr.go:21-52 | INCR stores the decimal of the next number without an expiry and replies with it; a key without a string counts as 0 |
| SetCommand.SetMeaning | pkg/command/set.go:40-107 | for options in any order, their words in any case of letters: NX with XX, or KEEPTTL with an expiry, is refused; NX stores exactly if a GET would find nothing and XX exactly if it would find something; what is stored is found up to its deadline and not after it, every other key as before; the reply is the old string or nil with GET, and without it OK if the value was stored and nil if not |
| SetCommand.ReadsParse | pkg/command/set.go:109-169 | a list of such options is read as them: each flag is set if and only if its word is in the list, EX, PX, EXAT and PXAT each take their own last number, in seconds or milliseconds |
| SetCommand.SetAborts | pkg/command/set.go:109-169 | arguments that are no such list, and only those, end with an error and store nothing; fewer than two are refused |
| SetCommand.UnknownOption | pkg/command/set.go:163-165 | an unknown word in option position is an error, and so is EX, PX, EXAT or PXAT without a number |
| SetCommand.SetNx | pkg/command/set.go:65-72 | SET k v NX stores and replies OK on a key without a string, and replies nil and keeps the string on any other |
| SetCommand.SetXx | pkg/command/set.go:74-78 | SET k v XX the other way round |
| SetCommand.SetForAWhile | pkg/command/set.go:88-96 | SET k v with EX n, PX n, EXAT n or PXAT n: the value is found up to now + 1000 n, now + n, 1000 n or n milliseconds, and not later |
| SetCommand.ExpiryMeaning | pkg/command/set.go:123-142 | EX and PX with a positive number set exactly that lifetime if and only if it fits 64 bits in nanoseconds |
| SetCommand.KeepTtlForgets | pkg/command/set.go:84-86 | a SET with KEEPTTL that writes keeps the expiry of the key if and only if it had none |
| SetCommand.SetIgnoresType | pkg/command/set.go:59-82 | over a stream, SET with GET never ends with an error about the type, and the stream is overwritten exactly unless XX is given |
| SetCommand.GetMeaning | pkg/command/get.go:15-26 | GET replies with the string whose time is not over, with nil if there is none, and with an error to any other number of arguments |
| XAddCommand.XAddMeaning | pkg/command/xadd.go:25-86 | for arguments made of NOMKSTREAM, MAXLEN and MINID with a threshold, an ID and fields, in any order that the code accepts: a stream comes into being under a free key unless NOMKSTREAM is given, an existing one stays, a string is refused |
| XAddCommand.XAddRefused | pkg/command/xadd.go:25-79 | and exactly those others are refused that are too few, cannot be read so, lack an ID or a field, or name a string |
| CommandWords.IsCommand | pkg/command/command.go:71-105 | a message is a command exactly if its first word is one of the 21 names, in any case of letters |
| CommandWords.MessageMeaning | internal/app/server/server.go:500-536 | what a message does, by its words: unknown ones are dropped, MULTI opens, EXEC hands out and DISCARD drops the queue, any other command is queued or executed |
| CommandWords.SpecialCommands | internal/app/server/config/config.go:17-23 | WAIT outside a transaction asks the replicas; SET, INCR and the unknown DEL are the ones that are propagated |
| CommandWords.ExecutionMeaning | pkg/command/command.go:71-105 | which word executes which command |
| CommandWords.SentWords | internal/app/server/server.go:601 | the words that are sent to replicas: REPLCONF GETACK * and PING |
| Kv.Kv.Get | pkg/keyval/kv.go:76-88 | an expired key is deleted on reading; only strings are found |
| Kv.LazyDeletionUnseen | pkg/keyval/kv.go:76-88 | deleting an expired key on reading is not seen by any later reader |
| Kv.Kv.Set | pkg/keyval/kv.go:100-108 | the value replaces any earlier one of any type, with its expiry |
| Kv.Kv.GetStream | pkg/keyval/kv.go:175-193 | a stream is created only under a free key and only if wanted; a string under the key is an error |
| Kv.Kv.Export | pkg/keyval/kv.go:213-221 | the copy equals the store |
| Kv.Kv.RestoreRDB | pkg/keyval/kv.go:146-150 | the data replaces the store |
| Kv.Kv.ExecuteSet | pkg/command/set.go:40-107 | the method, with its three steps of setting, clearing the expiry and setting it anew, is SET as specified, for all options |
| Kv.ParseSetOptions | pkg/command/set.go:109-169 | the loop over the option words computes the recursive specification, errors included |
| Kv.Kv.ExecuteIncr | pkg/command/incr.go:21-52 | the method is INCR as specified |
| Kv.Kv.ExecuteGet | pkg/command/get.go:15-26 | the method is GET as specified |
| Kv.Kv.ExecuteXAdd | pkg/command/xadd.go:25-86 | which XADDs are refused, and which key comes to hold a stream |
| StreamRuns.RunOrdered | pkg/keyval/stream.go:22-46 | over any run of additions and trims in which each accepted ID is above the last one in byte order, the depth-first order stays strictly increasing, and the IDs with a node are exactly the accepted ones, in order |
| StreamOrder.OrderedIff | pkg/keyval/stream.go:22-46 | and only then: from the empty stream, the tree is sorted and its IDs are the accepted ones in the order of acceptance if and only if each was above the last one in byte order |
| StreamOrder.GuardedRunOrdered | pkg/keyval/radix_tree.go:286-330 | the same for runs of generated and plainly printed explicit IDs, with a guard that can be checked before each addition: a later timestamp is printed above the clock's, the next sequence number needs no further digit |
| StreamOrder.GuardIff | pkg/keyval/radix_tree.go:286-330 | for one addition: the guard is met if and only if the ID that it returns is above the last one in byte order |
| StreamOrder.ShortRunsOfOneWidth | pkg/keyval/radix_tree.go:286-330 | up to ten generated IDs at timestamps of one width meet the guard, whatever way the time goes |
| StreamOrder.LaterRunsOfOneWidth | pkg/keyval/radix_tree.go:286-330 | so does any number of them, each at a later timestamp of one width |
| StreamOrder.SameWidths | pkg/keyval/radix_tree.go:298 | pairs that grow in the same widths are printed in byte order |
| StreamRuns.ExplicitRunsInByteOrder | pkg/keyval/stream.go:31-41 | runs of explicit IDs meet that condition |
| StreamRuns.GeneratedBelowLast | pkg/keyval/stream.go:24-30 | a generated ID need not: after "1-9", "1-*" gives "1-10", both entries are stored, and the range from the first to the second is empty |
| StreamRuns.XAddIsRun | pkg/command/xadd.go:87-98 | what XADD does to its stream is one or two operations of a run |
| StreamRuns.TreeIsPlainList | pkg/keyval/radix_tree.go:99-144 | over any such run in which no accepted ID is a proper prefix of another, the tree holds the same entries in the same order as a plain sorted list under the same operations |
| StreamRuns.OneLengthIsPrefixFree | pkg/keyval/radix_tree.go:391-400 | IDs of one length never extend each other, so the list result holds for them |
| StreamRuns.StreamFromEmpty | pkg/keyval/stream.go:15-46 | both results for a fresh stream and every run |
| StreamRuns.PutAppends | pkg/keyval/radix_tree.go:332-340 | an entry accepted above the last ID becomes the last in depth-first order |
| StreamRuns.Put | pkg/keyval/radix_tree.go:99-144 | adding under any ID adds exactly this entry to the bag of entries and keeps the shape |
| StreamRuns.TrimToReaches | pkg/keyval/radix_tree.go:376-415 | trimming by size gets down to the wanted size if and only if the entries whose ID has no proper prefix among the IDs with a node cover the surplus |
| StreamRuns.TrimmedToSize | pkg/keyval/radix_tree.go:376-415 | in a stream in byte order of which no ID extends another, trimming by size leaves the last maxSize entries |
| StreamRuns.TrimmedBelowId | pkg/keyval/radix_tree.go:417-460 | and trimming by ID leaves exactly the entries from the first one on that is not below it |
| StreamRuns.RunTrimReaches | pkg/keyval/radix_tree.go:376-415 | after any run at all, the same in terms of the IDs accepted in the run |
| StreamRuns.RunLeaves | pkg/keyval/radix_tree.go:99-144 | over any run, in whatever order IDs arrive, the IDs with a node are those there before and the accepted ones |
| StreamRuns.BuriedEntryStays | pkg/keyval/radix_tree.go:391-400 | a concrete stream ("1-1", then "1-10") that trimming by size cannot empty |
| StreamIds.PairsIncreaseIff | pkg/keyval/radix_tree.go:286-348 | over any run of additions, explicit and generated in any mixture, with any clock readings: the accepted (timestamp, sequence) pairs strictly increase if and only if every addition meets the guard at its turn (a generated one does not overflow the sequence; an explicit one, if accepted, is above the clock as a pair of numbers) |
| StreamIds.AdditionAdvances | pkg/keyval/stream.go:22-46 | the same for one addition: it fails or advances the pair if and only if it meets the guard, and then its ID spells the new pair |
| StreamIds.ExplicitSetsClock | pkg/keyval/radix_tree.go:146-158 | an accepted explicit ID leaves the clock at exactly its own numeric pair |
| StreamIds.ShortRunsAdvance | pkg/keyval/radix_tree.go:286-330 | runs of generated IDs meet the guard while they are shorter than what is left of the sequence |
| StreamIds.IdsDistinct | pkg/keyval/radix_tree.go:286-348 | in every run that meets the guard no returned ID repeats |
| StreamIds.TickAdvances | pkg/keyval/radix_tree.go:290-296 | one generation moves the pair forward if and only if the sequence does not overflow |
| StreamIds.ValidateMeaning | pkg/keyval/radix_tree.go:342-374 | validation accepts two numbers with a dash between them as they are, completes a lone timestamp with -0, and returns nothing else but the bounds |
| StreamIds.SplitJoin | pkg/keyval/radix_tree.go:349-352 | splitting an ID at dashes loses nothing and leaves no dash in a part |
| StreamIds.UpdateAfterTick | pkg/keyval/radix_tree.go:146-158 | adding a generated ID reads the clock back as it was |
| StreamIds.ExplicitIdRepeats | pkg/keyval/radix_tree.go:332-340 | without the guard one does: "10-0", "9-0" and "10-*" return "10-0" twice |
| RadixSpec.InsertMultimap | pkg/keyval/radix_tree.go:99-144 | insertion refines a multimap for IDs in any order and keeps the shape: prefixes non-empty and starting with their key byte, sibling keys distinct, entry IDs equal to the prefixes along the path |
| RadixSpec.SplitKeeps | pkg/keyval/radix_tree.go:251-262 | splitting a node changes neither entries nor their order nor the IDs |
| RadixOrder.InsertAppends | pkg/keyval/radix_tree.go:99-144 | inserting above all IDs appends at the end of the depth-first order |
| RadixOrder.KeysBelow | pkg/keyval/radix_tree.go:119-134 | an ID above all leaves never leads to the left of a child |
| RadixQueries.TrimSizeExact | pkg/keyval/radix_tree.go:376-415 | on any tree, trimming by size removes exactly the first min(k, reachable) reachable entries |
| RadixQueries.TrimSizeDropsFirst | pkg/keyval/radix_tree.go:376-415 | where no leaf lies below another, it removes exactly the first k entries |
| RadixQueries.TrimMinExact | pkg/keyval/radix_tree.go:417-460 | on any tree, trimming by ID removes a prefix of the reachable entries, all below minID, and stops at one that stays |
| RadixQueries.TrimMinKeepsRest | pkg/keyval/radix_tree.go:417-460 | in a sorted tree where no leaf lies below another, exactly the IDs at or above minID stay |
| RadixQueries.PrefixFreeLeaves | pkg/keyval/radix_tree.go:391-400 | if no ID is a proper prefix of another, no leaf lies below another |
| RadixQueries.TrimSizeShape | pkg/keyval/radix_tree.go:376-415 | trimming keeps the shape, the key order and the IDs that have a node |
| RadixLeaves.TrimMinIsSafe | pkg/keyval/radix_tree.go:417-460 | on any tree, no entry with an ID at or above minID is removed |
| RadixLeaves.TopOfTree | pkg/keyval/radix_tree.go:385-413 | the traversal by size gets at exactly the entries whose ID has no proper prefix among the IDs with a node |
| RadixLeaves.InsertLeaves | pkg/keyval/radix_tree.go:99-144 | insertion gives a node to its ID and to no other |
| RadixLeaves.TrimSizeSubsequence | pkg/keyval/radix_tree.go:376-415 | what is left is in its old order |
| RadixQueries.PointRange | pkg/keyval/radix_tree.go:160-180 | a range from an ID to itself holds that ID only; with either bound exclusive nothing (no command gets to an exclusive bound, see the next row) |
| StreamIds.ExclusiveIsInvalid | pkg/keyval/stream.go:79-88 | an ID with the parenthesis of an exclusive bound is never valid, so a range command with one finds nothing |
| RadixQueries.FullRange | pkg/keyval/radix_tree.go:175-180 | "-" to "+" holds every ID that does not start with the byte 255 |
| RadixLeaves.RangeIncreasing | pkg/keyval/radix_tree.go:160-249 | a range over a sorted enumeration is sorted |
| RadixLeaves.RangeAnswers | pkg/keyval/radix_tree.go:186-243 | the range as a selection: a subsequence with each entry between the bounds as often as before and no other |
| RadixLeaves.OpenBounds | pkg/keyval/radix_tree.go:160-180 | for IDs that start with a digit, "-" to "+" leaves nothing out, "+" as the start neither, and "-" as the end everything |
| Radix.RadixNode.Insert | pkg/keyval/radix_tree.go:99-144 | the nodes and containers, changed in place, are what insertion makes of their value; new objects only are added; it terminates for every ID |
| Radix.RadixNode.SplitAt | pkg/keyval/radix_tree.go:251-262 | the node is cut in place; its container moves to the new child |
| Radix.RadixNode.AddChild | pkg/keyval/radix_tree.go:281-284 | the child is added to whatever container the node grows into |
| Radix.RadixNode.Collect | pkg/keyval/radix_tree.go:186-243 | the traversal returns what was found before and the in-bounds entries of the subtree in depth-first order, cut at count |
| Radix.RadixNode.TrimBySize | pkg/keyval/radix_tree.go:385-413 | the traversal in place is trimming by size on the value |
| Radix.RadixNode.TrimByMinID | pkg/keyval/radix_tree.go:421-458 | the traversal in place is trimming by ID on the value, and counts what it removed |
| Radix.CommonPrefixLength | pkg/keyval/radix_tree.go:264-275 | the loop computes the length of the longest common prefix |
| Stream.RadixTree.AddEntry | pkg/keyval/radix_tree.go:99-158 | tree, size and clock after an addition; the size counts the entries |
| Stream.RadixTree.Range | pkg/keyval/radix_tree.go:160-249 | the entries between the bounds, each as often as it is stored and in their order, both inclusive unless a parenthesis excludes one, "-" for no lower bound and "+" for the byte 255; with a count, the first so many |
| Stream.RadixTree.TrimBySize | pkg/keyval/radix_tree.go:376-415 | the returned count is the number removed and the size the number left |
| Stream.RadixTree.TrimByMinID | pkg/keyval/radix_tree.go:417-460 | the returned count is the number removed and the size the number left |
| Stream.RadixTree.GenerateID | pkg/keyval/radix_tree.go:286-299 | one tick of the clock, printed |
| Stream.RadixTree.GenerateIncompleteID | pkg/keyval/radix_tree.go:301-330 | one tick at or above the wanted timestamp, or an error that changes nothing |
| Stream.Stream.AddEntry | pkg/keyval/stream.go:22-46 | the reply is what the ID asks for, the entry is stored once more under it, and subscribers with room are told; an error stores nothing |
| StreamIds.AddIdAnswers | pkg/keyval/stream.go:22-46 | what an ID is answered with: "*" with the print of (now, 0) if now is above the clock, else of (timestamp, sequence + 1); "<ts>-*" with the same for ts; any other such ending with an error; any other ID with its full form if it is valid and above the last one, or the first |
| Stream.Stream.XAdd | pkg/command/xadd.go:87-98 | the addition, answered in the same way, and then the trim of XADD on the stream object |
| Stream.Stream.NotifySubscribers | pkg/keyval/stream.go:63-73 | every subscriber with room in its channel gets the entry, the others are skipped |
| Stream.Stream.Range | pkg/keyval/stream.go:79-88 | nothing for an invalid bound; else exactly the entries e of the stream with start <= e <= end in byte order, as above |
| Children.NodeChildren.AddChild | pkg/keyval/radix_tree.go:471-543 | adding under a new key agrees with the abstract slots through every growth: in order of addition up to 48, by key from the 49th child on |
| Children.NodeChildren.FindChild | pkg/keyval/radix_tree.go:462-539 | every container finds what the slots hold under a key |
| Children.NodeChildren.GetChild | pkg/keyval/radix_tree.go:586-623 | every container enumerates each slot exactly once, in slot order |
| Children.NodeChildren.Size | pkg/keyval/radix_tree.go:483-554 | the size is the number of slots |
| Children.LinearNode.Grow16 | pkg/keyval/radix_tree.go:563-570 | Node16 grows into a Node48 with the same slots in the same order |
| Children.Node48.Grow | pkg/keyval/radix_tree.go:572-580 | Node48 grows into a Node256 with the same slots sorted by key |
| SlotTables.SpreadSorts | pkg/keyval/radix_tree.go:572-580 | spreading distinct slots over a table and listing it sorts them by key |
| Slots.AddLookup | pkg/keyval/radix_tree.go:24-30 | after adding, the new key finds the new child and every other key what it found before |
| Slots.AddKeepsKeyOrder | pkg/keyval/radix_tree.go:556-584 | children added in increasing key order are enumerated in key order, whatever the container grows into |
| Slots.AddPlaces | pkg/keyval/radix_tree.go:471-543 | up to 48 children stay in the order of their addition, from the 49th on they are in key order |
| RdbFormat.SavedFileParses | pkg/rdb/saver.go:172-241 | for every store of strings with lengths below 2^32 and every order in which the saver visits it, parsing the saved file passes the checksum and gives exactly the entries not expired by then |
| RdbBytes.FileBytes | pkg/rdb/saver.go:160-241 | a file is REDIS0012, the pieces, 0xFF, and the CRC of all that, low byte first |
| RdbBytes.PreambleBytes | pkg/rdb/saver.go:180-212 | the pieces before the entries |
| RdbBytes.EntryBytes | pkg/rdb/saver.go:124-158 | an entry is 0xFC and eight bytes of expiry, low byte first, if it has one, then 0, the key and the value |
| RdbBytes.PieceBytes | pkg/rdb/saver.go:104-122 | 0xFA before an auxiliary field, 0xFE before the database, 0xFB before the sizes |
| RdbBytes.LengthBytes | pkg/rdb/saver.go:52-71 | a length in one byte below 64, in 0x40 + high byte and low byte below 16384, else in 0x80 and four bytes from the high one down |
| RdbBytes.EntryRead | pkg/rdb/rdb.go:240-285 | 0xFC and eight bytes, or 0xFD and four, low byte first, are read as the expiry of the entry that follows; 0 as an entry without one |
| RdbBytes.MarkersRead | pkg/rdb/rdb.go:377-409 | 0xFA, 0xFE and 0xFB are read as what they mark, and no other byte starts a record |
| RdbBytes.AuxRead | pkg/rdb/rdb.go:181-212 | an auxiliary field is its name and its value, and that of ctime, used-mem and redis-bits must be a number |
| RdbBytes.FileRead | pkg/rdb/rdb.go:364-385 | a file starts with REDIS and four more bytes; 0xFF between records ends it with the check of its checksum |
| RdbBytes.ChecksumBytes | pkg/rdb/rdb.go:340-361 | the checksum holds exactly if the last eight bytes are the CRC of all before, low byte first |
| RdbBytes.LengthRead | pkg/rdb/rdb.go:69-95 | the forms of a length of one or two bytes |
| RdbBytes.LongLengthRead | pkg/rdb/rdb.go:69-95 | the form of four bytes, from the high one down |
| RdbBytes.StringBytes | pkg/rdb/rdb.go:97-160 | 0xC0, 0xC1 and 0xC2 before an integer of one, two or four bytes, low byte first, which is read as its digits |
| RdbFormat.CutSavedFileParses | pkg/rdb/rdb.go:364-413 | a saved file cut after any number of entries parses to the unexpired entries before the cut |
| RdbFormat.CorruptionDetected | pkg/rdb/rdb.go:340-361 | a file whose checksum holds fails the check after any change within eight consecutive bytes of the data |
| RdbDamage.DamageNoticed | pkg/rdb/rdb.go:364-413 | a whole file after such a change is parsed all the same if and only if its header is one and its records run out exactly at the end of the input; whenever the parse still comes to an EOF marker, it is rejected |
| RdbDamage.DamageSwallowsEnd | pkg/rdb/rdb.go:377-409 | a change of one byte that is not noticed, in the file of any store whose last written value is shorter than 55 bytes: its length byte raised by 9 swallows EOF marker and checksum, and the file parses to a wrong value |
| RdbFormat.LengthRoundTrip | pkg/rdb/saver.go:52-71 | lengths below 2^32 are read back |
| RdbFormat.StringRoundTrip | pkg/rdb/saver.go:40-50 | strings are read back |
| RdbFormat.AuxValueRoundTrip | pkg/rdb/saver.go:78-102 | auxiliary values in all four forms are read back as what was written, which for a text is the field's name |
| RdbFormat.AuxTextLost | pkg/rdb/saver.go:104-122 | a text value is read back if and only if it equals the name of its field; under a numeric field's name the file cannot be read |
| RdbFormat.VersionLost | pkg/rdb/saver.go:183-195 | so the version that every saved file is given is not in it |
| RdbFormat.SecondsExpiryMeaning | pkg/rdb/rdb.go:240-262 | an entry with an expiry of s seconds is read with the expiry s in milliseconds: the one the format means if and only if s = 0, and the entry is dropped exactly if 0 < s < now |
| RdbFormat.PieceReads | pkg/rdb/rdb.go:181-285 | every record that the saver writes is read back as that record |
| RdbFormat.ReadRecord | pkg/rdb/rdb.go:377-409 | a record consumes at least one byte, so the parse terminates on every input |
| Rdb.Saver.SaveRDB | pkg/rdb/saver.go:172-241 | saving succeeds exactly for stores of strings and then writes a whole file in some order of the keys, with the checksum that was kept along the way |
| Rdb.Saver.WriteEntries | pkg/rdb/saver.go:199-228 | the loop over the map |
| Rdb.Saver.Write | pkg/rdb/saver.go:27-34 | output and running checksum advance together |
| Rdb.Saver.WriteLength | pkg/rdb/saver.go:52-71 | the length encoding |
| Rdb.Saver.WriteObject | pkg/rdb/saver.go:136-158 | a string with its expiry, key and value; anything else is an error |
| Rdb.Parser.ParseRDB | pkg/rdb/rdb.go:364-413 | the loop ends on every input, succeeds exactly when the specification does, with the same data |
| Rdb.Parser.VerifyChecksum | pkg/rdb/rdb.go:340-361 | the last eight bytes against the digest of the rest |
| Rdb.Parser.HandleExpiryTime | pkg/rdb/rdb.go:240-262 | reads the expiry, then the object it belongs to |
| Rdb.Parser.TakeLength | pkg/rdb/rdb.go:69-95 | the four length forms |
| Rdb.Parser.TakeString | pkg/rdb/rdb.go:97-160 | plain strings and 8, 16 and 32 bit integers |
| Crc64.Update | pkg/crc64/crc64.go:23-28 | the table loop computes the bit-at-a-time reflected Jones CRC for every state and byte sequence |
| Crc64.CheckValue | pkg/crc64/crc64.go:23-32 | the digest of "123456789" is e9c6d914c4b8d9ca |
| Crc64.Chunks | pkg/crc64/crc64.go:42-46 | two writes in a row give the digest of the concatenation |
| Crc64.Stream | pkg/crc64/crc64.go:42-46 | streaming over any chunking equals the one-shot digest |
| Crc64.Hash.Write | pkg/crc64/crc64.go:42-46 | the running value is the CRC of what was written |
| Crc64.Hash.Sum | pkg/crc64/crc64.go:48-59 | the eight bytes of the value, appended |
| Crc64.BurstDetected | pkg/crc64/crc64.go:23-32 | two equally long sequences that differ only within eight consecutive bytes have different digests |
| Crc64.WindowInjective | pkg/crc64/crc64.go:23-28 | over a window of at most eight bytes the state determines the bytes |
| Crc64.StatesStayApart | pkg/crc64/crc64.go:23-28 | different states stay different over the same bytes |
| Crc64.TableStep | pkg/crc64/crc64.go:23-28 | one table step is eight shift steps |
| Crc64Table.TableIsShiftByte | pkg/crc64/crc64.go:21 | each of the 256 constants is the shift register after eight steps |
| Crc64.PackUnpack | pkg/crc64/crc64.go:48-59 | eight bytes and a 64-bit value determine each other |
| Resp.RoundTrip | pkg/resp/resp.go:373-391 | for nested arrays, sets and pushes of non-null bulk values of any bytes, parsing the printed form followed by anything returns the value and leaves the rest unread |
| RespBytes.CommandBytes | pkg/resp/resp.go:373-391 | a command is "*", the number of arguments and CR LF, and for each argument "$", its length, CR LF, its bytes and CR LF |
| RespBytes.Kinds | pkg/resp/resp.go:16-31 | which first byte is which kind |
| RespBytes.SimpleRead | pkg/resp/resp.go:209-213 | a simple value is the text of its line |
| RespBytes.BulkRead | pkg/resp/resp.go:247-268 | a bulk value is as many bytes as its length says |
| RespBytes.PayloadRead | pkg/resp/resp.go:247-268 | what every amount of input after a length is taken for: too little, just enough at the end of the input, or the payload and two bytes that are skipped |
| RespBytes.NullRead | pkg/resp/resp.go:252-254 | a length of -1 is a null |
| Resp.RoundTripAll | pkg/resp/resp.go:304-321 | the same for a sequence of values |
| Resp.RawPrefixFree | pkg/resp/resp.go:373-391 | no printed value is a proper prefix of another |
| Resp.Reader.ParseResp | pkg/resp/resp.go:201-245 | the reader consumes its input as the specification says, errors included |
| Resp.Reader.ReadOneLine | pkg/resp/resp.go:177-199 | one line up to LF, with its error cases |
| Resp.Reader.ParseBulk | pkg/resp/resp.go:247-268 | a payload and its CR LF, which may be missing at the end of the input |
| Resp.Reader.ParseArray | pkg/resp/resp.go:304-321 | the loop over the elements |
| Framing.Framing | internal/app/server/server.go:167-207 | both read loops deliver the commands sent, all, once, in order, each with its own encoding as buffer except that one that ends early comes two bytes short |
| Framing.OffsetDrift | internal/app/server/server.go:204-206 | a replica's offset agrees with the bytes sent if and only if no command ends early |
| Framing.ClientDelivery | internal/client/client.go:194-230 | the client loop delivers a command if and only if no payload has an LF before its last byte |
| RespBytes.UnknownLineSilences | internal/client/client.go:205-217 | once a command starts with a complete line of no kind, nothing that comes after it is ever delivered, from a client or from a master |
| RespBytes.BadLineSkipped | internal/client/client.go:218-220 | a line without CR LF, or an empty one, is thrown away alone |
| RespBytes.BadLengthSkipped | internal/client/client.go:218-220 | so is a line with a length that is no number or below -1 |
| RespBytes.OnlyArrays | internal/client/client.go:222-228 | of what can be parsed, a client's loop delivers arrays with at least one element only, the loop to the master everything |
| Framing.Connection.HandleConnection | internal/client/client.go:190-231 | the loop delivers exactly what the specification serves |
| Framing.Connection.ReceiveLine | internal/client/client.go:198-229 | one line: append, parse again, deliver, keep or reset |
| Framing.CutOne | internal/client/client.go:209-222 | what a command cut off at a line end parses to |
| Decimal.ParseFormat | pkg/command/incr.go:34-45 | printing and parsing are inverse exactly on 64-bit integers |
| Decimal.ParseIntMeaning | pkg/resp/resp.go:87-98 | what is read as a number: digits with or without a sign, leading zeros or not, that fit 64 bits |
| Decimal.DigitsMeaning | pkg/keyval/radix_tree.go:298 | printing adds one digit for each factor of ten |
| Decimal.FormatInjective | pkg/keyval/radix_tree.go:298 | different numbers print differently |

## Left out

- Replicas and expiry times: a replica that executes SET with EX or PX later than the master sets another time, so nothing is said of the data then.
- Replicas of replicas: a WAIT at a replica is modelled in what it charges, not in the GETACKs that it would send on.
- RESP nulls, maps and simple values inside commands: a map is read as an error of its own, a null prints as an empty value, and commands are arrays of non-null bulk strings.
- The reply bytes of commands, apart from which reply WAIT and the store commands choose; EXEC's reply array; error texts.
- Letter case beyond ASCII in command and option names.
- WAIT queued in a transaction, where it polls inside the main loop: it changes no state, so executing it does nothing here.
- REPLCONF and PSYNC sent by an ordinary client: they are steps of replicas only.
- XREAD, XRANGE, INFO, HELLO, CLIENT, CONFIG, KEYS, TYPE, ECHO, PING and SAVE as commands: they change none of the modelled state.
- The stream contents behind XADD in the replication model: a stream is only present or absent there; what is in it is the subject of `StreamRuns` and `Stream`.
- Locks and goroutines below the level of steps; the connection handshake with its response queue; sockets, logging, configuration and random IDs.
- The pooled result slice of `Range`, which the source returns and also puts back into the pool: the result is a value here.
- Subscribing and unsubscribing, which add and remove an entry of the subscriber map; only notification is modelled.
- Radix.RadixNode.Insert: the loop of `AddEntry` is a recursion here, because the ghost value of every node on the way down changes after the descent.
- Children.LinearNode.Grow4: copies the pairs one by one where the source copies whole arrays.
- Node4 and Node16 as two types: they are one class with a capacity, since their code is the same.
- Adding a child under a key that a container already holds: the tree looks first, so it never happens.
- Numeric order of stream IDs: the code compares strings.
- Kv.Kv.ExecuteXAdd: does not add the entry, whose stream is `Stream.Stream.XAdd`; the command and the stream object are not joined in one method.
- Rdb.Parser.TakeString: fails on LZF-compressed strings, since the decompressing library is not part of this model.
- Resp.Reader.ParseResp: does not read maps, which are an error of their own here, since no command has a map in it.
- Lists, hashes, sets and JSON values, which no command creates.
