/** The step from bytes to items: what the state machine calls taking the next item is what the read
    loop of a replica does with the bytes on its connection. */
module ReplicaWire {
  import opened Bytes
  import opened Decimal
  import opened Commands
  import opened Replication
  import opened ReplicationSafety
  import Resp
  import Framing

  /** Commands only, of sizes that a Go slice can have. */
  predicate OnlyCommands(items: seq<Item>) {
    forall i :: 0 <= i < |items| ==> !items[i].Snapshot? && Sized(Message(items[i]))
  }

  predicate Sized(c: seq<bytes>) {
    |c| <= MAX_INT64 && forall i :: 0 <= i < |c| ==> |c[i]| <= MAX_INT64
  }

  function Values(items: seq<Item>): (rs: seq<Resp.Resp>)
    requires OnlyCommands(items)
    ensures |rs| == |items| && forall i :: 0 <= i < |items| ==> rs[i] == AsResp(Message(items[i]))
  {
    seq(|items|, i requires 0 <= i < |items| => AsResp(Message(items[i])))
  }

  lemma {:induction false} BytesOnWire(items: seq<Item>)
    requires OnlyCommands(items)
    ensures |Resp.RawAll(Values(items))| == ChargeAll(items)
  {
    hide Resp.Raw;
    if items != [] {
      var first, rest := items[0], items[1..];
      BytesOnWire(rest);
      assert Values(items)[1..] == Values(rest);
      AppendItems([first], rest);
      AppendItem([], first);
      assert items == [] + [first] + rest && [] + [first] == [first];
    }
  }

  /** Whatever commands are sent to a replica, its read loop takes them all, in order and once each,
      and adds to its offset for each of them what the state machine counts. */
  lemma WireIsTaken(items: seq<Item>)
    requires OnlyCommands(items)
    ensures |Resp.RawAll(Values(items))| == ChargeAll(items)
    ensures var frames := Framing.Serve(Framing.FromMaster, [], Resp.RawAll(Values(items)));
      |frames| == |items| && forall i :: 0 <= i < |items| ==>
        frames[i].value == AsResp(Message(items[i])) && |frames[i].buffer| == Count(items[i])
  {
    hide Resp.Raw, Resp.RawAll, Framing.Serve, Framing.BufferOf;
    BytesOnWire(items);
    var rs := Values(items);
    forall i | 0 <= i < |rs| ensures Framing.Deliverable(Framing.FromMaster, rs[i]) {
      CommandDeliverable(Message(items[i]));
    }
    hide Framing.Deliverable;
    Framing.Framing(Framing.FromMaster, rs);
  }

  lemma CommandDeliverable(c: seq<bytes>)
    requires Sized(c)
    ensures Framing.Deliverable(Framing.FromMaster, AsResp(c))
  {
    var elems := AsResp(c).elems;
    forall i | 0 <= i < |elems| ensures Resp.Plain(elems[i]) {
    }
  }
}
