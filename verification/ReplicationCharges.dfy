/** How long the commands are that the master sends: what it charges for them, and what a replica counts. */
module ReplicationCharges {
  import opened Bytes
  import opened Commands
  import opened Replication
  import Resp
  import Framing

  lemma {:induction false} EncodingLength(c: seq<bytes>)
    requires |c| < 10 && forall i :: 0 <= i < |c| ==> |c[i]| < 10
    ensures |Resp.RawAll(AsResp(c).elems)| == 6 * |c| + Total(c)
    decreases |c|
  {
    if c != [] {
      var rs := AsResp(c).elems;
      assert rs[1..] == AsResp(c[1..]).elems;
      EncodingLength(c[1..]);
      assert |Resp.Raw(rs[0])| == 4 + |c[0]| + 2;
    }
  }

  /** The lengths of the arguments together. */
  function Total(c: seq<bytes>): nat {
    if c == [] then 0 else |c[0]| + Total(c[1..])
  }

  lemma ShortCharge(c: seq<bytes>)
    requires |c| < 10 && forall i :: 0 <= i < |c| ==> |c[i]| < 10
    ensures |Resp.Raw(AsResp(c))| == 4 + 6 * |c| + Total(c)
  {
    EncodingLength(c);
    hide Resp.RawAll, Total;
    assert |Resp.Header(Resp.ARRAY, |c|)| == 4;
  }

  /** GETACK is charged 37 bytes and PING 14. */
  lemma FixedCharges()
    ensures Charge(GetAck) == 37 && Charge(Ping) == 14
  {
    ShortCharge(GETACK_COMMAND);
    ShortCharge(PING_COMMAND);
    assert GETACK_COMMAND[1..] == [GETACK_COMMAND[1], [42]] && GETACK_COMMAND[1..][1..] == [[42]];
    assert Total([[42]]) == 1 + Total([]);
    assert Total(GETACK_COMMAND[1..]) == 6 + Total([[42]]);
    assert Total(GETACK_COMMAND) == 8 + Total(GETACK_COMMAND[1..]);
    assert Total(PING_COMMAND) == 4 + Total([]);
  }

  lemma ChargePositive(i: Item)
    requires !i.Snapshot?
    ensures Charge(i) > 0
  {
  }

  lemma FixedCommands()
    ensures Count(GetAck) == Charge(GetAck) && Count(Ping) == Charge(Ping)
  {
    hide Resp.Raw;
    assert !Framing.EndsEarly(AsResp(GETACK_COMMAND));
    assert !Framing.EndsEarly(AsResp(PING_COMMAND));
  }

  /** A command that ends early is counted two bytes short, any other in full. */
  lemma CountOf(c: Command)
    ensures Charge(Write(c)) == Count(Write(c)) + if Framing.EndsEarly(AsResp(c)) then 2 else 0
  {
    RawIsLong(AsResp(c));
    hide Resp.Raw, Framing.EndsEarly;
  }

  lemma RawIsLong(r: Resp.Resp)
    requires r.Aggregate?
    ensures |Resp.Raw(r)| >= 2
  {
    assert |Resp.Header(r.kind, |r.elems|)| >= 2;
  }

  /** Two bytes are lost on a write that ends early, none on anything else. */
  lemma CountOfItem(i: Item)
    ensures Count(i) + Lost(i) == Charge(i) && Lost(i) == if i.Write? && Framing.EndsEarly(AsResp(i.c)) then 2 else 0
  {
    if i.Write? {
      CountOf(i.c);
    } else if !i.Snapshot? {
      FixedCommands();
    }
    hide Charge, Count, Framing.EndsEarly;
  }
}
