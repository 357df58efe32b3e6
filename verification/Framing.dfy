/** Line-by-line framing: the two read loops append every line they receive to a buffer and
    parse the whole buffer again, until a value comes out. */
module Framing {
  import opened Bytes
  import opened Decimal
  import opened Resp

  /** The loop that serves a client, and the loop by which a replica reads from its master. */
  datatype Link = FromClient | FromMaster

  /** A delivered command, and the buffer it was parsed from; a replica adds the buffer's
      length to its offset. */
  datatype Frame = Frame(value: Resp, buffer: bytes)

  /** Whether the loop keeps the buffer after this error and waits for the next line. */
  predicate KeepsReading(link: Link, e: Error) {
    e == EmptyLine || e == Incomplete || e == UnknownType || e == Eof || (link == FromMaster && e == UnexpectedEof)
  }

  /** A client must send an array with at least one element; anything else is dropped. */
  predicate Accepted(link: Link, r: Resp) {
    link == FromMaster || (r.Aggregate? && r.kind == ARRAY && r.elems != [])
  }

  /** The buffer after one more line, and the frame delivered, if any. */
  function Feed(link: Link, buffer: bytes, line: bytes): (bytes, seq<Frame>) {
    match Parse(buffer + line)
    case Err(e) => (if KeepsReading(link, e) then buffer + line else [], [])
    case Ok(r, _) => ([], if Accepted(link, r) then [Frame(r, buffer + line)] else [])
  }

  /** The frames that the loop delivers for the input that is still to come. */
  function Serve(link: Link, buffer: bytes, input: bytes): seq<Frame>
    decreases |input|
  {
    match IndexLf(input)
    case None => []
    case Some(i) =>
      var (buffer', frames) := Feed(link, buffer, input[..i + 1]);
      frames + Serve(link, buffer', input[i + 1..])
  }

  /** The state of one connection: the buffer, and what is still to be received. */
  class Connection {
    const link: Link
    var buffer: bytes
    var input: bytes

    constructor (link: Link, input: bytes)
      ensures this.link == link && buffer == [] && this.input == input
    {
      this.link := link;
      buffer := [];
      this.input := input;
    }

    /** One line has been read: append it, parse the whole buffer, and deliver or keep reading. */
    method ReceiveLine(line: bytes) returns (delivered: seq<Frame>)
      modifies this`buffer
      ensures (buffer, delivered) == Feed(link, old(buffer), line)
    {
      buffer := buffer + line;
      var reader := new Reader(buffer);
      var r := reader.ParseResp();
      hide Parse;
      delivered := [];
      if r.Err? {
        if !KeepsReading(link, r.error) {
          buffer := [];
        }
      } else {
        if Accepted(link, r.value) {
          delivered := [Frame(r.value, buffer)];
        }
        buffer := [];
      }
    }

    /** The loop itself, run until the peer closes the connection. */
    method HandleConnection() returns (delivered: seq<Frame>)
      modifies this
      ensures delivered == Serve(link, old(buffer), old(input))
      ensures LF !in input
    {
      hide Feed;
      delivered := [];
      ghost var all := Serve(link, buffer, input);
      assert [] + all == all;
      while true
        invariant delivered + Serve(link, buffer, input) == all
        decreases |input|
      {
        var next := IndexLf(input);
        if next.None? {
          assert delivered + [] == delivered;
          return;
        }
        var line := input[..next.value + 1];
        ghost var sofar, rest := delivered, Serve(link, Feed(link, buffer, line).0, input[next.value + 1..]);
        input := input[next.value + 1..];
        var frames := ReceiveLine(line);
        delivered := delivered + frames;
        assert (sofar + frames) + rest == sofar + (frames + rest);
      }
    }
  }

  // ---- What a cut-off command parses to ------------------------------------------------------

  /** The encoding ends in a payload that is empty or ends in LF, so that a line boundary falls
      right before its final CR LF. */
  predicate EndsEarly(r: Resp) {
    match r
    case Simple(_, _) => false
    case Bulk(_, data, _) => data == [] || data[|data| - 1] == LF
    case Aggregate(_, elems, _) => elems != [] && EndsEarly(elems[|elems| - 1])
  }

  /** No payload has an LF before its last byte. */
  predicate NoInnerLf(r: Resp) {
    match r
    case Simple(_, _) => true
    case Bulk(_, data, _) => forall i :: 0 <= i < |data| - 1 ==> data[i] != LF
    case Aggregate(_, elems, _) => forall i :: 0 <= i < |elems| ==> NoInnerLf(elems[i])
  }

  predicate AllNoInnerLf(rs: seq<Resp>) {
    forall i :: 0 <= i < |rs| ==> NoInnerLf(rs[i])
  }

  /** The first k bytes of s end at a line boundary. */
  predicate Boundary(s: bytes, k: nat) {
    k <= |s| && (k == 0 || s[k - 1] == LF)
  }

  /** What parsing the first k bytes of an encoding of length n gives: the value itself when only
      the final CR LF is missing, and otherwise an end-of-input error. */
  predicate CutOutcome<T(==)>(p: Parsed<T>, value: T, k: nat, n: nat, endsEarly: bool, noInnerLf: bool) {
    if k + 2 == n && endsEarly then p == Ok(value, [])
    else p.Err? && (p.error == Eof || (p.error == UnexpectedEof && !noInnerLf))
  }

  predicate CutManyOutcome(rs: seq<Resp>, k: nat) {
    k <= |RawAll(rs)| &&
    CutOutcome(ParseMany(RawAll(rs)[..k], |rs|), rs, k, |RawAll(rs)|, rs != [] && EndsEarly(rs[|rs| - 1]), AllNoInnerLf(rs))
  }

  /** The only boundary inside the header line is its start, and nothing parses to end of input. */
  lemma CutToNothing(r: Resp, h: bytes, k: nat)
    requires r.Bulk? || r.Aggregate?
    requires Plain(r) && h == Header(r.kind, if r.Bulk? then |r.data| else |r.elems|)
    requires k < |h| && Boundary(Raw(r), k)
    ensures k + 2 != |Raw(r)| && Parse(Raw(r)[..k]) == Err(Eof)
  {
    DigitsHaveNoLf(if r.Bulk? then |r.data| else |r.elems|);
    assert Raw(r)[..k] == h[..k];
    ParseEmpty();
    assert h[..0] == [];
  }

  lemma ParseEmpty()
    ensures Parse([]) == Err(Eof)
  {
  }

  lemma {:induction false} CutBulk(kind: byte, data: bytes, k: nat)
    requires IsBulk(kind) && |data| <= MAX_INT64
    requires var r := Bulk(kind, data, false); k < |Raw(r)| && Boundary(Raw(r), k)
    ensures var r := Bulk(kind, data, false);
      CutOutcome(Parse(Raw(r)[..k]), r, k, |Raw(r)|, EndsEarly(r), NoInnerLf(r))
  {
    var r := Bulk(kind, data, false);
    var h := Header(kind, |data|);
    if k < |h| {
      assert Raw(r) == h + (data + CRLF);
      CutToNothing(r, h, k);
    } else {
      CutPayload(kind, data, k - |h|);
    }
  }

  lemma CutPayload(kind: byte, data: bytes, m: nat)
    requires IsBulk(kind) && |data| <= MAX_INT64
    requires var r := Bulk(kind, data, false); var k := |Header(kind, |data|)| + m; k < |Raw(r)| && Boundary(Raw(r), k)
    ensures var r := Bulk(kind, data, false); var k := |Header(kind, |data|)| + m;
      CutOutcome(Parse(Raw(r)[..k]), r, k, |Raw(r)|, EndsEarly(r), NoInnerLf(r))
  {
    hide Parse, Header;
    var r, h := Bulk(kind, data, false), Header(kind, |data|);
    var k := |h| + m;
    assert Raw(r) == h + (data + CRLF);
    assert m > 0 ==> (data + CRLF)[m - 1] == LF;
    assert (data + CRLF)[|data|] == CR;
    hide Raw;
    assert Raw(r)[..k] == h + data[..m];
    ParsePrintedBulk(kind, |data|, data[..m]);
    assert m == |data| ==> data[..m] == data;
  }

  lemma {:induction false} CutOne(r: Resp, k: nat)
    requires Plain(r) && k < |Raw(r)| && Boundary(Raw(r), k)
    ensures CutOutcome(Parse(Raw(r)[..k]), r, k, |Raw(r)|, EndsEarly(r), NoInnerLf(r))
    decreases r, 1
  {
    match r
    case Bulk(kind, data, _) =>
      CutBulk(kind, data, k);
    case Aggregate(kind, elems, _) =>
      var h := Header(kind, |elems|);
      if k < |h| {
        CutToNothing(r, h, k);
      } else {
        var m := k - |h|;
        assert Raw(r) == h + RawAll(elems);
        hide Parse, ParseMany, Raw, RawAll, Header;
        assert Raw(r)[..k] == h + RawAll(elems)[..m];
        assert m > 0 ==> RawAll(elems)[m - 1] == Raw(r)[k - 1] == LF;
        CutMany(elems, m);
        ParsePrintedAggregate(kind, |elems|, RawAll(elems)[..m]);
      }
  }

  lemma {:induction false} CutMany(rs: seq<Resp>, k: nat)
    requires AllPlain(rs) && k < |RawAll(rs)| && Boundary(RawAll(rs), k)
    ensures CutManyOutcome(rs, k)
    decreases rs, 0
  {
    var r, others := rs[0], rs[1..];
    assert rs == [r] + others;
    RawAllCons(r, others);
    hide *;
    PlainParts(r, others);
    if k < |Raw(r)| {
      BoundaryPrefix(Raw(r), RawAll(others), k);
      CutOne(r, k);
      CutJoinFirst(r, others, k);
    } else {
      BoundarySuffix(Raw(r), RawAll(others), k);
      CutMany(others, k - |Raw(r)|);
      RawAllNone();
      CutJoinLater(r, others, k - |Raw(r)|);
    }
  }

  lemma RawAllCons(r: Resp, others: seq<Resp>)
    ensures RawAll([r] + others) == Raw(r) + RawAll(others)
    ensures others == [] ==> RawAll(others) == []
  {
    assert ([r] + others)[1..] == others;
  }

  lemma PlainParts(r: Resp, others: seq<Resp>)
    requires AllPlain([r] + others)
    ensures Plain(r) && AllPlain(others)
  {
    assert ([r] + others)[0] == r;
    assert forall i :: 0 <= i < |others| ==> others[i] == ([r] + others)[i + 1];
  }

  lemma BoundaryPrefix(s: bytes, t: bytes, k: nat)
    requires Boundary(s + t, k) && k < |s|
    ensures Boundary(s, k)
  {
  }

  lemma BoundarySuffix(s: bytes, t: bytes, k: nat)
    requires Boundary(s + t, k) && |s| <= k
    ensures Boundary(t, k - |s|)
  {
    var m := k - |s|;
    if m > 0 {
      assert t[m - 1] == (s + t)[k - 1];
    }
  }

  lemma SafetyOfAll(r: Resp, others: seq<Resp>)
    ensures AllNoInnerLf([r] + others) <==> NoInnerLf(r) && AllNoInnerLf(others)
  {
    hide NoInnerLf;
    var rs := [r] + others;
    assert rs[0] == r && forall i :: 0 <= i < |others| ==> others[i] == rs[i + 1];
  }

  lemma CutJoinFirst(r: Resp, others: seq<Resp>, k: nat)
    requires AllPlain(others) && k < |Raw(r)|
    requires CutOutcome(Parse(Raw(r)[..k]), r, k, |Raw(r)|, EndsEarly(r), NoInnerLf(r))
    ensures CutManyOutcome([r] + others, k)
  {
    var rs, p := [r] + others, Parse(Raw(r)[..k]);
    if others != [] {
      RawAllLast(others);
      RawEnds(others[|others| - 1]);
    }
    hide Parse, ParseMany, Raw, RawAll, NoInnerLf, AllNoInnerLf, Plain, AllPlain, EndsEarly;
    RawAllCons(r, others);
    assert RawAll(rs)[..k] == Raw(r)[..k];
    SafetyOfAll(r, others);
    NothingUnsafe();
    ParseManyStep(Raw(r)[..k], |rs|);
    ParseManyEmpty(|others|);
    if others == [] {
      assert rs == [r];
    }
  }

  lemma RawAllNone()
    ensures RawAll([]) == []
  {
  }

  lemma NothingUnsafe()
    ensures AllNoInnerLf([])
  {
  }

  lemma CutJoinLater(r: Resp, others: seq<Resp>, m: nat)
    requires Plain(r) && others != [] && m < |RawAll(others)| && CutManyOutcome(others, m)
    ensures CutManyOutcome([r] + others, |Raw(r)| + m)
  {
    hide Parse, ParseMany, Raw, RawAll, NoInnerLf, AllNoInnerLf, Plain, AllPlain, EndsEarly, Prepend, CutOutcome;
    var rs := [r] + others;
    SafetyOfAll(r, others);
    CutLaterParse(r, others, m);
    CutPrepend(r, others, ParseMany(RawAll(others)[..m], |others|), m, |RawAll(others)|, |Raw(r)|,
               EndsEarly(others[|others| - 1]), AllNoInnerLf(others), AllNoInnerLf(rs));
    assert rs[|rs| - 1] == others[|others| - 1];
  }

  lemma CutLaterParse(r: Resp, others: seq<Resp>, m: nat)
    requires Plain(r) && m < |RawAll(others)|
    ensures var rs := [r] + others;
      |RawAll(rs)| == |Raw(r)| + |RawAll(others)|
      && ParseMany(RawAll(rs)[..|Raw(r)| + m], |rs|) == Prepend([r], ParseMany(RawAll(others)[..m], |others|))
  {
    hide *;
    var rs := [r] + others;
    RawAllCons(r, others);
    assert RawAll(rs)[..|Raw(r)| + m] == Raw(r) + RawAll(others)[..m];
    RoundTrip(r, RawAll(others)[..m]);
    ParseManyStep(Raw(r) + RawAll(others)[..m], |rs|);
  }

  lemma CutPrepend(r: Resp, others: seq<Resp>, p: Parsed<seq<Resp>>, m: nat, n: nat, f: nat, early: bool, safe: bool, allSafe: bool)
    requires CutOutcome(p, others, m, n, early, safe) && (allSafe ==> safe)
    ensures CutOutcome(Prepend([r], p), [r] + others, f + m, f + n, early, allSafe)
  {
  }

  lemma ParseManyEmpty(n: nat)
    ensures ParseMany([], n) == if n == 0 then Ok([], []) else Err(Eof)
  {
  }

  // ---- Delivery -------------------------------------------------------------------------------

  lemma {:induction false} RawAllLast(rs: seq<Resp>)
    requires rs != []
    ensures RawAll(rs) == RawAll(rs[..|rs| - 1]) + Raw(rs[|rs| - 1])
    decreases |rs|
  {
    hide Raw;
    if |rs| > 1 {
      RawAllLast(rs[1..]);
      assert rs[1..][..|rs| - 2] == rs[..|rs| - 1][1..];
    }
  }

  lemma {:induction false} RawEnds(r: Resp)
    requires Plain(r)
    ensures var s := Raw(r); |s| >= 3 && s[|s| - 2..] == CRLF && (EndsEarly(r) ==> s[|s| - 3] == LF)
  {
    match r
    case Bulk(kind, data, _) =>
      var h := Header(kind, |data|);
      assert h[|h| - 1] == LF;
    case Aggregate(kind, elems, _) =>
      var h := Header(kind, |elems|);
      assert h[|h| - 2..] == CRLF;
      if elems != [] {
        RawAllLast(elems);
        RawEnds(elems[|elems| - 1]);
        var init, last := h + RawAll(elems[..|elems| - 1]), Raw(elems[|elems| - 1]);
        assert Raw(r) == init + last;
        assert Raw(r)[|Raw(r)| - 2..] == last[|last| - 2..];
        assert Raw(r)[|Raw(r)| - 3] == last[|last| - 3];
      }
  }

  /** The buffer that a command is delivered with. */
  function BufferOf(r: Resp): bytes {
    if EndsEarly(r) && |Raw(r)| >= 2 then Raw(r)[..|Raw(r)| - 2] else Raw(r)
  }

  function FramesOf(rs: seq<Resp>): seq<Frame> {
    seq(|rs|, i requires 0 <= i < |rs| => Frame(rs[i], BufferOf(rs[i])))
  }

  /** A command this link takes as it is: on the client link, an LF inside a payload would make
      the loop throw its buffer away. */
  predicate Deliverable(link: Link, r: Resp) {
    Plain(r) && Accepted(link, r) && (link == FromClient ==> NoInnerLf(r))
  }

  lemma ServeLine(link: Link, buffer: bytes, input: bytes, i: nat)
    requires i < |input| && input[i] == LF && LF !in input[..i]
    ensures var (buffer', frames) := Feed(link, buffer, input[..i + 1]);
      Serve(link, buffer, input) == frames + Serve(link, buffer', input[i + 1..])
  {
    IndexLfUnique(input, i);
    hide Feed;
  }

  /** The next line boundary after k, within s. */
  lemma {:induction false} NextBoundary(s: bytes, k: nat, rest: bytes) returns (i: nat)
    requires k < |s| && s[|s| - 1] == LF
    ensures k + i + 1 <= |s| && s[k + i] == LF
    ensures forall j :: k <= j < k + i ==> s[j] != LF
    ensures var input := s[k..] + rest;
      i < |input| && input[i] == LF && LF !in input[..i] && input[..i + 1] == s[k..k + i + 1]
      && input[i + 1..] == s[k + i + 1..] + rest
    decreases |s| - k
  {
    var input := s[k..] + rest;
    if s[k] == LF {
      i := 0;
    } else {
      var j := NextBoundary(s, k + 1, rest);
      i := j + 1;
    }
    assert forall j :: 0 <= j < i ==> input[j] == s[k + j];
  }

  /** From any line boundary inside a command, the loop goes on to deliver that command, once. */
  lemma {:induction false} DeliverOne(link: Link, r: Resp, k: nat, rest: bytes)
    requires Deliverable(link, r) && k < |Raw(r)| && Boundary(Raw(r), k)
    requires !(k + 2 == |Raw(r)| && EndsEarly(r))
    ensures Serve(link, Raw(r)[..k], Raw(r)[k..] + rest) == [Frame(r, BufferOf(r))] + Serve(link, [], rest)
    decreases |Raw(r)| - k
  {
    hide Raw, Plain, NoInnerLf, EndsEarly, Accepted, Parse, Serve;
    var s := Raw(r);
    RawEnds(r);
    assert s[|s| - 1] == s[|s| - 2..][1] == LF && s[|s| - 2] == s[|s| - 2..][0] == CR;
    var i := NextBoundary(s, k, rest);
    var k' := k + i + 1;
    ServeLine(link, s[..k], s[k..] + rest, i);
    assert s[..k] + s[k..k'] == s[..k'];
    if k' == |s| {
      assert s[..k'] == s == s + [];
      RoundTrip(r, []);
      assert s[k'..] + rest == rest;
    } else {
      CutOne(r, k');
      if k' + 2 == |s| && EndsEarly(r) {
        assert s[k'..] + rest == CRLF + rest;
        SkipCrlf(link, rest);
      } else {
        DeliverOne(link, r, k', rest);
      }
    }
  }

  /** A lone CR LF is an invalid line, and is dropped. */
  lemma SkipCrlf(link: Link, rest: bytes)
    ensures Serve(link, [], CRLF + rest) == Serve(link, [], rest)
  {
    var input := CRLF + rest;
    ServeLine(link, [], input, 1);
    assert input[..2] == CRLF == [] + CRLF && input[2..] == rest;
    IndexLfUnique(CRLF, 1);
  }

  /** Both loops deliver the commands they are sent: all of them, once each, in order. Each comes
      with its own encoding as its buffer, except that a command that ends early comes without
      its last two bytes. */
  lemma {:induction false} Framing(link: Link, rs: seq<Resp>)
    requires forall i :: 0 <= i < |rs| ==> Deliverable(link, rs[i])
    ensures Serve(link, [], RawAll(rs)) == FramesOf(rs)
  {
    hide Raw, Serve, Deliverable, BufferOf;
    if rs == [] {
      ServeNothing(link);
    } else {
      var r, others := rs[0], rs[1..];
      RawStart(link, r);
      DeliverOne(link, r, 0, RawAll(others));
      assert Raw(r)[..0] == [] && Raw(r)[0..] == Raw(r);
      Framing(link, others);
      assert FramesOf(rs) == [Frame(r, BufferOf(r))] + FramesOf(others);
    }
  }

  lemma RawStart(link: Link, r: Resp)
    requires Deliverable(link, r)
    ensures |Raw(r)| > 2 && Boundary(Raw(r), 0)
  {
    RawEnds(r);
  }

  lemma ServeNothing(link: Link)
    ensures Serve(link, [], []) == []
  {
  }

  function Buffered(frames: seq<Frame>): nat {
    if frames == [] then 0 else |frames[0].buffer| + Buffered(frames[1..])
  }

  /** What a replica adds to its offset is what the master charged, short of two bytes for every
      command that ends early; so the two agree if and only if there is none. */
  lemma {:induction false} OffsetDrift(rs: seq<Resp>)
    requires forall i :: 0 <= i < |rs| ==> Deliverable(FromMaster, rs[i])
    ensures Buffered(Serve(FromMaster, [], RawAll(rs))) <= |RawAll(rs)|
    ensures Buffered(Serve(FromMaster, [], RawAll(rs))) == |RawAll(rs)| <==> forall i :: 0 <= i < |rs| ==> !EndsEarly(rs[i])
  {
    hide Raw, Serve, EndsEarly, Deliverable;
    Framing(FromMaster, rs);
    if rs != [] {
      var r, others := rs[0], rs[1..];
      RawStart(FromMaster, r);
      Framing(FromMaster, others);
      OffsetDrift(others);
      assert FramesOf(rs)[1..] == FramesOf(others);
      assert forall i :: 0 < i < |rs| ==> rs[i] == others[i - 1];
      assert forall i :: 0 <= i < |others| ==> others[i] == rs[i + 1];
    }
  }

  // ---- What an LF inside a payload does to the client link ------------------------------------

  lemma ParseIntNeeds(s: bytes)
    requires ParseInt(s).Some? && ParseInt(s).value >= 0
    ensures |Digits(ParseInt(s).value)| <= |s|
  {
    var signed := s[0] == MINUS || s[0] == PLUS;
    DigitsShortest(if signed then s[1..] else s);
  }

  lemma HeaderNeeds(line: bytes)
    requires line != [] && ParseLen(line).Ok? && ParseLen(line).value >= 0
    ensures |Header(line[0], ParseLen(line).value)| <= |line| + 2
  {
    ParseIntNeeds(line[1..]);
  }

  /** What a parsed value took from the input is at least its own encoding, up to a missing
      CR LF at the very end. */
  predicate Needs(taken: int, rest: bytes, encoding: bytes) {
    taken + (if rest == [] then 2 else 0) >= |encoding|
  }

  lemma {:induction false} ParseNeeds(s: bytes)
    requires Parse(s).Ok? && Plain(Parse(s).value)
    ensures var p := Parse(s); Needs(|s| - |p.rest|, p.rest, Raw(p.value))
    decreases |s|, 0
  {
    var p := Parse(s);
    var l := ReadLine(s);
    assert |s| == |l.value| + 2 + |l.rest|;
    HeaderNeeds(l.value);
    if p.value.Aggregate? {
      ParseManyNeeds(l.rest, ParseLen(l.value).value);
    }
  }

  predicate NeedsAll(s: bytes, n: nat, values: seq<Resp>, rest: bytes) {
    if n == 0 then values == [] && rest == s else Needs(|s| - |rest|, rest, RawAll(values))
  }

  lemma {:induction false} ParseManyNeeds(s: bytes, n: nat)
    requires ParseMany(s, n).Ok? && AllPlain(ParseMany(s, n).value)
    ensures NeedsAll(s, n, ParseMany(s, n).value, ParseMany(s, n).rest)
    decreases |s|, 1
  {
    if n == 0 {
      ParseNone(s);
    } else {
      ParseManyStep(s, n);
      hide *;
      var first := Parse(s);
      var others := ParseMany(first.rest, n - 1);
      PrependCons(first.value, others);
      PlainParts(first.value, others.value);
      ParseNeeds(s);
      ParseManyNeeds(first.rest, n - 1);
      ParseManyEmpty(n - 1);
      NeedsBoth(s, first.value, first.rest, n - 1, others.value, others.rest);
    }
  }

  lemma NeedsBoth(s: bytes, r: Resp, rest: bytes, n: nat, others: seq<Resp>, rest': bytes)
    requires Needs(|s| - |rest|, rest, Raw(r)) && NeedsAll(rest, n, others, rest') && (rest == [] ==> n == 0)
    ensures NeedsAll(s, n + 1, [r] + others, rest')
  {
    hide Raw;
    RawAllCons(r, others);
  }

  lemma PrependCons(r: Resp, p: Parsed<seq<Resp>>)
    ensures Prepend([r], p) == if p.Err? then Err(p.error) else Ok([r] + p.value, p.rest)
  {
  }

  /** Every delivered frame was parsed from its buffer, and no buffer is longer than the input. */
  lemma {:induction false} FramesFit(link: Link, buffer: bytes, input: bytes, f: Frame)
    requires f in Serve(link, buffer, input)
    ensures |f.buffer| <= |buffer| + |input| && Parse(f.buffer).Ok? && Parse(f.buffer).value == f.value
    decreases |input|
  {
    hide Parse, Accepted, KeepsReading;
    var i := IndexLf(input).value;
    var (buffer', frames) := Feed(link, buffer, input[..i + 1]);
    if f !in frames {
      FramesFit(link, buffer', input[i + 1..], f);
    }
  }

  lemma TooShortToDeliver(link: Link, input: bytes, r: Resp)
    requires Plain(r) && |input| + 2 < |Raw(r)|
    ensures forall f :: f in Serve(link, [], input) ==> f.value != r
  {
    forall f | f in Serve(link, [], input) ensures f.value != r {
      FramesFit(link, [], input, f);
      if f.value == r {
        ParseNeeds(f.buffer);
      }
    }
  }

  lemma InnerCutBulk(kind: byte, data: bytes, i: nat)
    requires IsBulk(kind) && |data| <= MAX_INT64 && i < |data| - 1 && data[i] == LF
    ensures CutsOff(Bulk(kind, data, false), |Header(kind, |data|)| + i + 1)
  {
    hide Parse, Header;
    var s, h := Raw(Bulk(kind, data, false)), Header(kind, |data|);
    assert s == h + (data + CRLF);
    assert s[..|h| + i + 1] == h + data[..i + 1];
    ParsePrintedBulk(kind, |data|, data[..i + 1]);
  }

  predicate CutsOff(r: Resp, c: nat) {
    0 < c && c + 2 < |Raw(r)| && Boundary(Raw(r), c) && Parse(Raw(r)[..c]) == Err(UnexpectedEof)
  }

  predicate CutsOffMany(rs: seq<Resp>, c: nat) {
    0 < c && c + 2 < |RawAll(rs)| && Boundary(RawAll(rs), c) && ParseMany(RawAll(rs)[..c], |rs|) == Err(UnexpectedEof)
  }

  lemma InnerCutAggregate(kind: byte, elems: seq<Resp>, m: nat)
    requires IsAggregate(kind) && |elems| <= MAX_INT64 && CutsOffMany(elems, m)
    ensures CutsOff(Aggregate(kind, elems, false), |Header(kind, |elems|)| + m)
  {
    hide Parse, ParseMany, RawAll, Header;
    var h := Header(kind, |elems|);
    BoundaryShift(h, RawAll(elems), m);
    ParsePrintedAggregate(kind, |elems|, RawAll(elems)[..m]);
  }

  lemma InnerCutFirst(r: Resp, others: seq<Resp>, c: nat)
    requires CutsOff(r, c)
    ensures CutsOffMany([r] + others, c)
  {
    hide Parse, ParseMany, RawAll, Raw;
    RawAllCons(r, others);
    BoundaryExtend(Raw(r), RawAll(others), c);
    ParseManyStep(Raw(r)[..c], |others| + 1);
  }

  lemma InnerCutLater(r: Resp, others: seq<Resp>, m: nat)
    requires Plain(r) && CutsOffMany(others, m)
    ensures CutsOffMany([r] + others, |Raw(r)| + m)
  {
    hide Parse, ParseMany, RawAll, Raw, Plain;
    RawAllCons(r, others);
    BoundaryShift(Raw(r), RawAll(others), m);
    RoundTrip(r, RawAll(others)[..m]);
    ParseManyStep(Raw(r) + RawAll(others)[..m], |others| + 1);
  }

  /** The line boundary at which a payload with an inner LF is cut. */
  lemma {:induction false} InnerCut(r: Resp) returns (c: nat)
    requires Plain(r) && !NoInnerLf(r)
    ensures CutsOff(r, c)
    decreases r, 1
  {
    hide CutsOff;
    match r
    case Bulk(kind, data, _) =>
      var i :| 0 <= i < |data| - 1 && data[i] == LF;
      c := |Header(kind, |data|)| + i + 1;
      InnerCutBulk(kind, data, i);
    case Aggregate(kind, elems, _) =>
      var m := InnerCutMany(elems);
      c := |Header(kind, |elems|)| + m;
      InnerCutAggregate(kind, elems, m);
  }

  lemma {:induction false} InnerCutMany(rs: seq<Resp>) returns (c: nat)
    requires AllPlain(rs) && !AllNoInnerLf(rs)
    ensures CutsOffMany(rs, c)
    decreases rs, 0
  {
    assert rs != [];
    hide *;
    var r, others := rs[0], rs[1..];
    assert rs == [r] + others;
    PlainParts(r, others);
    SafetyOfAll(r, others);
    if !NoInnerLf(r) {
      c := InnerCut(r);
      InnerCutFirst(r, others, c);
    } else {
      var m := InnerCutMany(others);
      c := |Raw(r)| + m;
      InnerCutLater(r, others, m);
    }
  }

  lemma BoundaryExtend(s: bytes, t: bytes, c: nat)
    requires Boundary(s, c)
    ensures Boundary(s + t, c) && (s + t)[..c] == s[..c]
  {
  }

  lemma BoundaryShift(s: bytes, t: bytes, c: nat)
    requires Boundary(t, c) && c > 0
    ensures Boundary(s + t, |s| + c) && (s + t)[..|s| + c] == s + t[..c]
  {
  }

  lemma FirstLineLength(r: Resp, k: nat)
    requires Plain(r) && 0 < k && Boundary(Raw(r), k)
    ensures k >= 3
  {
    match r
    case Bulk(kind, data, _) => DigitsHaveNoLf(|data|);
    case Aggregate(kind, elems, _) => DigitsHaveNoLf(|elems|);
  }

  lemma {:induction false} Lost(r: Resp, k: nat, c: nat)
    requires Plain(r) && Boundary(Raw(r), k) && k < c && c + 2 < |Raw(r)| && Boundary(Raw(r), c)
    requires Parse(Raw(r)[..c]) == Err(UnexpectedEof)
    ensures forall f :: f in Serve(FromClient, Raw(r)[..k], Raw(r)[k..]) ==> f.value != r
    decreases c - k
  {
    hide Raw, Plain, NoInnerLf, EndsEarly, Accepted, Parse, Serve;
    var s := Raw(r);
    RawEnds(r);
    assert s[|s| - 1] == s[|s| - 2..][1] == LF;
    assert c > 0 && s[c - 1] == LF;
    var i := NextBoundary(s, k, []);
    assert s[k..] + [] == s[k..] && s[k + i + 1..] + [] == s[k + i + 1..];
    var k' := k + i + 1;
    assert k' <= c;
    ServeLine(FromClient, s[..k], s[k..], i);
    assert s[..k] + s[k..k'] == s[..k'];
    CutOne(r, k');
    FirstLineLength(r, k');
    if Parse(s[..k']) == Err(UnexpectedEof) {
      TooShortToDeliver(FromClient, s[k'..], r);
    } else {
      Lost(r, k', c);
    }
  }

  /** The client loop delivers a command if and only if no payload of it has an LF before its
      last byte. */
  lemma ClientDelivery(r: Resp)
    requires Plain(r) && Accepted(FromClient, r)
    ensures (exists f :: f in Serve(FromClient, [], Raw(r)) && f.value == r) <==> NoInnerLf(r)
  {
    assert Raw(r)[..0] == [] && Raw(r)[0..] == Raw(r);
    if NoInnerLf(r) {
      Framing(FromClient, [r]);
      assert RawAll([r]) == Raw(r) + RawAll([]) == Raw(r);
      var f := Frame(r, BufferOf(r));
      assert FramesOf([r])[0] == f;
      assert f in Serve(FromClient, [], Raw(r)) && f.value == r;
    } else {
      var c := InnerCut(r);
      Lost(r, 0, c);
    }
  }
}
