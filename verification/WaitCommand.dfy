/** WAIT: what it answers, and what the answer means. */
module WaitCommand {
  import opened Bytes
  import opened Decimal
  import opened RdbFormat
  import opened Commands
  import opened Replication
  import opened ReplicationSafety

  /** How many replicas have acknowledged an offset, by a loop over the registered ones. */
  method CountAcknowledged(outlets: map<nat, Outlet>, at: nat) returns (count: nat)
    ensures count == |Acknowledged(outlets, at)|
  {
    count := 0;
    var remaining := outlets.Keys;
    ghost var counted: set<nat> := {};
    while remaining != {}
      invariant remaining <= outlets.Keys && counted == (set r | r in outlets && r !in remaining && outlets[r].acked >= at)
      invariant count == |counted|
      decreases |remaining|
    {
      var r :| r in remaining;
      if outlets[r].acked >= at {
        counted := counted + {r};
        count := count + 1;
      }
      remaining := remaining - {r};
    }
    assert counted == Acknowledged(outlets, at);
  }

  /** What a round of the polling loop sees: the registered replicas, the nanoseconds since WAIT began, and,
      if it is over then, how many replicas are registered; they are looked up again for that. */
  datatype Poll = Poll(outlets: map<nat, Outlet>, elapsed: nat, registered: nat)

  /** `time.Duration(ms) * time.Millisecond`, which wraps around at 64 bits. */
  function Nanoseconds(ms: int): int {
    (ms * 1_000_000 - MIN_INT64) % 0x1_0000_0000_0000_0000 + MIN_INT64
  }

  /** A timeout of 0 never comes. */
  predicate TimedOut(timeout: nat, p: Poll) {
    timeout != 0 && p.elapsed >= Nanoseconds(timeout)
  }

  /** A timeout in milliseconds is over after a million nanoseconds each, if and only if that many fit 64 bits; the
      smallest that do not are over at once. */
  lemma TimeoutMeaning(timeout: nat, p: Poll)
    requires timeout <= MAX_INT64
    ensures timeout <= 9_223_372_036_854 ==> (TimedOut(timeout, p) <==> timeout > 0 && p.elapsed >= 1_000_000 * timeout)
    ensures 9_223_372_036_854 < timeout <= 18_446_744_073_709 ==> TimedOut(timeout, p)
    ensures Nanoseconds(timeout) == 1_000_000 * timeout <==> timeout <= 9_223_372_036_854
  {
  }

  predicate GoesOn(p: Poll, at: nat, wanted: nat, timeout: nat) {
    |Acknowledged(p.outlets, at)| < wanted && !TimedOut(timeout, p)
  }

  /** The number of replicas or of milliseconds that an argument gives. */
  function Argument(s: bytes): Option<nat> {
    match ParseInt(s)
    case None => None
    case Some(i) => if i < 0 then None else Some(i)
  }

  /** The first round with enough acknowledgements gives their number, and the first one after the timeout
      the number of replicas registered then. */
  function Answer(at: nat, wanted: nat, timeout: nat, polls: seq<Poll>): Option<nat> {
    if polls == [] then None
    else if |Acknowledged(polls[0].outlets, at)| >= wanted then Some(|Acknowledged(polls[0].outlets, at)|)
    else if TimedOut(timeout, polls[0]) then Some(polls[0].registered)
    else Answer(at, wanted, timeout, polls[1..])
  }

  /** `Wait.Execute` for a client with the given last write offset; None while it goes on polling. */
  method ExecuteWait(lastWrite: nat, args: seq<bytes>, polls: seq<Poll>) returns (reply: Option<Reply>)
    ensures |args| != 2 || Argument(args[0]).None? || Argument(args[1]).None? ==> reply == Some(Refused)
    ensures |args| == 2 && Argument(args[0]).Some? && Argument(args[1]).Some? ==>
      var n := if lastWrite == 0 then Some(0) else Answer(lastWrite, Argument(args[0]).value, Argument(args[1]).value, polls);
      reply == if n.None? then None else Some(Number(n.value))
  {
    if |args| != 2 {
      return Some(Refused);
    }
    var numReplicas := ParseInt(args[0]);
    if numReplicas.None? || numReplicas.value < 0 {
      return Some(Refused);
    }
    var timeout := ParseInt(args[1]);
    if timeout.None? || timeout.value < 0 {
      return Some(Refused);
    }
    if lastWrite == 0 {
      return Some(Number(0));
    }
    hide ParseInt, Nanoseconds;
    var i := 0;
    while i < |polls|
      invariant i <= |polls|
      invariant Answer(lastWrite, numReplicas.value, timeout.value, polls[i..]) == Answer(lastWrite, numReplicas.value, timeout.value, polls)
    {
      assert polls[i..][1..] == polls[i + 1..];
      var acked := CountAcknowledged(polls[i].outlets, lastWrite);
      if acked >= numReplicas.value {
        return Some(Number(acked));
      }
      if timeout.value != 0 && polls[i].elapsed >= Nanoseconds(timeout.value) {
        return Some(Number(polls[i].registered));
      }
      i := i + 1;
    }
    reply := None;
  }

  lemma {:induction false} AnswerAt(at: nat, wanted: nat, timeout: nat, polls: seq<Poll>) returns (i: nat)
    requires Answer(at, wanted, timeout, polls).Some?
    ensures i < |polls| && forall k :: 0 <= k < i ==> GoesOn(polls[k], at, wanted, timeout)
    ensures var n := Answer(at, wanted, timeout, polls).value;
      var acked := |Acknowledged(polls[i].outlets, at)|;
      if acked >= wanted then n == acked else TimedOut(timeout, polls[i]) && n == polls[i].registered
  {
    hide TimedOut;
    if GoesOn(polls[0], at, wanted, timeout) {
      var j := AnswerAt(at, wanted, timeout, polls[1..]);
      i := j + 1;
    } else {
      i := 0;
    }
  }

  /** A round of polling in a run: what has happened since WAIT began when it counts, and what more until it
      looks the registered replicas up. */
  datatype Round = Round(since: seq<Event>, elapsed: nat, meanwhile: seq<Event>)

  function PollOf(store: Store, es: seq<Event>, round: Round): Poll {
    Poll(Run(Init(store), es + round.since).m.outlets, round.elapsed, |Run(Init(store), es + round.since + round.meanwhile).m.outlets|)
  }

  function Seen(store: Store, es: seq<Event>, rounds: seq<Round>): (polls: seq<Poll>)
    ensures |polls| == |rounds|
    ensures forall i :: 0 <= i < |rounds| ==> polls[i] == PollOf(store, es, rounds[i])
  {
    seq(|rounds|, i requires 0 <= i < |rounds| => PollOf(store, es, rounds[i]))
  }

  /** The round that answers: all before it found too few and the time not over; it found n replicas, no
      fewer than wanted, of which all that were registered when the client's write was propagated and are to
      be trusted have executed it; or it came after the timeout with too few, and n is the number of replicas
      registered a moment later. */
  ghost predicate AnsweredBy(store: Store, es: seq<Event>, who: nat, wanted: nat, timeout: nat, rounds: seq<Round>, n: nat, i: nat) {
    && i < |rounds|
    && var s0, s1 := Run(Init(store), es), Run(Init(store), es + rounds[i].since);
    && var at, polls := SessionOf(s0.m.sessions, who).lastWrite, Seen(store, es, rounds);
    && (forall k :: 0 <= k < i ==> GoesOn(polls[k], at, wanted, timeout))
    && (exists j: nat :: CountedHaveExecuted(s0, s1, who, j))
    && (if |Acknowledged(s1.m.outlets, at)| >= wanted then n == |Acknowledged(s1.m.outlets, at)|
        else TimedOut(timeout, polls[i]) && n == |Run(Init(store), es + rounds[i].since + rounds[i].meanwhile).m.outlets|)
  }

  /** What WAIT's answer means, in any run, with any rounds of polling and whatever happens between them. */
  lemma WaitMeans(store: Store, es: seq<Event>, who: nat, wanted: nat, timeout: nat, rounds: seq<Round>)
    requires var at := SessionOf(Run(Init(store), es).m.sessions, who).lastWrite;
      at > 0 && Answer(at, wanted, timeout, Seen(store, es, rounds)).Some?
    ensures var at := SessionOf(Run(Init(store), es).m.sessions, who).lastWrite;
      exists i: nat :: AnsweredBy(store, es, who, wanted, timeout, rounds, Answer(at, wanted, timeout, Seen(store, es, rounds)).value, i)
  {
    hide Run, Init, Answer, TimedOut, CountedHaveExecuted, GoesOn, Acknowledged;
    var at := SessionOf(Run(Init(store), es).m.sessions, who).lastWrite;
    var polls := Seen(store, es, rounds);
    var i := AnswerAt(at, wanted, timeout, polls);
    WaitCountsExecuted(store, es, rounds[i].since, who);
    assert AnsweredBy(store, es, who, wanted, timeout, rounds, Answer(at, wanted, timeout, polls).value, i);
  }
}
