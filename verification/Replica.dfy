/** The replica as an object, and the snapshot that a full resynchronization sends to it. */
module Replica {
  import opened Bytes
  import opened RdbFormat
  import opened Commands
  import opened Replication
  import Kv
  import Rdb

  /** The snapshot of PSYNC: the export of the store, saved; it fails exactly if a value is no string. */
  method FullResync(kv: Kv.Kv, ctime: int) returns (ok: bool, file: bytes, ghost order: seq<bytes>)
    ensures ok <==> AllStrings(kv.store)
    ensures ok ==> Enumerates(order, kv.store.Keys) && file == SnapshotFile(Snapshot(kv.store, order, ctime))
  {
    hide File, Preamble, Entries;
    var data := kv.Export();
    var saver := new Rdb.Saver();
    ok, order := saver.SaveRDB(data, ctime);
    file := saver.out;
  }

  /** A replica's side of its connection: its offset starts at 0, whatever the master's is. */
  class Replica {
    const kv: Kv.Kv
    var offset: nat
    // The acknowledgements written to the master.
    var acks: seq<nat>

    constructor (kv: Kv.Kv)
      ensures this.kv == kv && offset == 0 && acks == []
    {
      this.kv := kv;
      offset, acks := 0, [];
    }

    /** The data in a snapshot replaces the replica's, unless there is none. */
    method ReceiveRDB(file: bytes, now: nat)
      modifies kv
      ensures kv.store == match ParseFile(file, now) {
        case None => old(kv.store)
        case Some(data) => if data == map[] then old(kv.store) else data
      }
    {
      hide ParseFile;
      var parser := new Rdb.Parser(file);
      var ok := parser.ParseRDB(now);
      if !ok {
        return;
      }
      if |parser.data| == 0 {
        return;
      }
      kv.RestoreRDB(parser.data);
    }

    /** For a WAIT of one of its own clients the replica charges GETACK to its own offset, as the state
        machine's replica does. */
    method SendReplConfGetAckToAllReplicas(ghost x: Remote)
      requires x.processed == offset
      modifies `offset
      ensures offset == OwnGetAck(x).processed
    {
      hide Charge;
      offset := offset + Charge(GetAck);
    }

    /** One command from the master, or the snapshot: GETACK is answered with the offset before it is
        counted itself. This is what the state machine's replica does when it takes the item. */
    method HandleMasterResponse(i: Item, now: nat)
      requires WellFormed(i)
      modifies this, kv
      ensures kv.store == Applied(old(kv.store), i, now)
      ensures offset == old(offset) + Count(i)
      ensures acks == old(acks) + if i.GetAck? then [old(offset)] else []
    {
      hide Execute, ParseFile, Count;
      if i.GetAck? {
        acks := acks + [offset];
      } else if i.Snapshot? {
        ReceiveRDB(SnapshotFile(i), now);
      } else if i.Write? {
        var reply := kv.Execute(i.c, now);
      }
      offset := offset + Count(i);
    }
  }
}
