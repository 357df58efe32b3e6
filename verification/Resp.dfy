/** The Redis serialization protocol: the `RAW` printer, the recursive parser as a function of
    the unread input, and the reader object whose methods consume that input. */
module Resp {
  import opened Bytes
  import opened Decimal

  const ARRAY: byte := 42
  const BULK_STRING: byte := 36

  /** + - : _ # , ( */
  predicate IsSimple(kind: byte) {
    kind == 43 || kind == 45 || kind == 58 || kind == 95 || kind == 35 || kind == 44 || kind == 40
  }

  /** $ ! = */
  predicate IsBulk(kind: byte) {
    kind == 36 || kind == 33 || kind == 61
  }

  /** * > ~ */
  predicate IsAggregate(kind: byte) {
    kind == 42 || kind == 62 || kind == 126
  }

  /** A parsed value. `isNull` is a length of -1. */
  datatype Resp =
    | Simple(kind: byte, text: bytes)
    | Bulk(kind: byte, data: bytes, isNull: bool)
    | Aggregate(kind: byte, elems: seq<Resp>, isNull: bool)

  datatype Error = Eof | UnexpectedEof | Incomplete | UnknownType | EmptyLine | BadLine | BadLength | MapUnsupported

  /** The outcome of reading from the input: a value and what is left unread, or an error. */
  datatype Parsed<+T> = Ok(value: T, rest: bytes) | Err(error: Error)

  const CRLF: bytes := [CR, LF]

  // ---- Printing -------------------------------------------------------------------------------

  function Header(kind: byte, n: nat): bytes {
    [kind] + Digits(n) + CRLF
  }

  /** `RAW`. A null prints as an empty value. */
  function Raw(r: Resp): (s: bytes)
    ensures |s| > 0
    decreases r, 1
  {
    match r
    case Simple(kind, text) => [kind] + text + CRLF
    case Bulk(kind, data, _) => Header(kind, |data|) + data + CRLF
    case Aggregate(kind, elems, _) => Header(kind, |elems|) + RawAll(elems)
  }

  function RawAll(rs: seq<Resp>): bytes
    decreases rs, 0
  {
    if rs == [] then [] else Raw(rs[0]) + RawAll(rs[1..])
  }

  /** Nested arrays, sets and pushes whose leaves are non-null bulk values of any bytes. The
      bounds on lengths hold of every Go slice. */
  predicate Plain(r: Resp) {
    match r
    case Simple(_, _) => false
    case Bulk(kind, data, isNull) => IsBulk(kind) && !isNull && |data| <= MAX_INT64
    case Aggregate(kind, elems, isNull) =>
      IsAggregate(kind) && !isNull && |elems| <= MAX_INT64 && forall i :: 0 <= i < |elems| ==> Plain(elems[i])
  }

  predicate AllPlain(rs: seq<Resp>) {
    forall i :: 0 <= i < |rs| ==> Plain(rs[i])
  }

  // ---- Parsing --------------------------------------------------------------------------------

  function IndexLf(s: bytes): (i: Option<nat>)
    ensures i.Some? ==> i.value < |s| && s[i.value] == LF && LF !in s[..i.value]
    ensures i.None? ==> LF !in s
  {
    if s == [] then None
    else if s[0] == LF then Some(0)
    else
      assert s == [s[0]] + s[1..];
      match IndexLf(s[1..])
      case None => None
      case Some(i) =>
        assert s[..i + 1] == [s[0]] + s[1..][..i];
        Some(i + 1)
  }

  /** A line ends in CR LF and has at least one byte before them. */
  function ReadLine(s: bytes): (r: Parsed<bytes>)
    ensures r.Ok? ==> r.value != [] && |r.rest| < |s|
  {
    match IndexLf(s)
    case None => Err(Eof)
    case Some(i) =>
      if i + 1 <= 2 || s[i - 1] != CR then Err(BadLine) else Ok(s[..i - 1], s[i + 1..])
  }

  function ParseLen(line: bytes): Parsed<int>
    requires line != []
  {
    match ParseInt(line[1..])
    case None => Err(BadLength)
    case Some(n) => if n < -1 then Err(BadLength) else Ok(n, [])
  }

  /** The payload of n bytes, then two bytes that are taken for the CR LF whatever they are; an
      input that ends right after the payload is accepted. */
  function ReadPayload(s: bytes, n: nat): (r: Parsed<bytes>)
    ensures r.Ok? ==> |r.value| == n && |r.rest| <= |s|
  {
    if |s| < n then Err(if s == [] then Eof else UnexpectedEof)
    else if |s| == n then Ok(s, [])
    else if |s| == n + 1 then Err(UnexpectedEof)
    else Ok(s[..n], s[n + 2..])
  }

  /** `ParseResp` on the unread input s. */
  function Parse(s: bytes): (r: Parsed<Resp>)
    ensures r.Ok? ==> |r.rest| < |s|
    decreases |s|, 0
  {
    match ReadLine(s)
    case Err(e) => Err(e)
    case Ok(line, rest) =>
      var kind := line[0];
      if IsSimple(kind) then Ok(Simple(kind, line[1..]), rest)
      else if kind == 37 then Err(MapUnsupported)
      else if !IsBulk(kind) && !IsAggregate(kind) then Err(UnknownType)
      else
        match ParseLen(line)
        case Err(e) => Err(e)
        case Ok(n, _) =>
          if IsBulk(kind) then
            if n == -1 then Ok(Bulk(kind, [], true), rest)
            else
              match ReadPayload(rest, n)
              case Err(e) => Err(e)
              case Ok(data, rest') => Ok(Bulk(kind, data, false), rest')
          else
            if n == -1 then Ok(Aggregate(kind, [], true), rest)
            else
              match ParseMany(rest, n)
              case Err(e) => Err(e)
              case Ok(elems, rest') => Ok(Aggregate(kind, elems, false), rest')
  }

  function ParseMany(s: bytes, n: nat): (r: Parsed<seq<Resp>>)
    ensures r.Ok? ==> |r.value| == n && |r.rest| <= |s|
    decreases |s|, 1
  {
    if n == 0 then Ok([], s)
    else
      match Parse(s)
      case Err(e) => Err(e)
      case Ok(first, rest) =>
        match ParseMany(rest, n - 1)
        case Err(e) => Err(e)
        case Ok(others, rest') => Ok([first] + others, rest')
  }

  /** The unread input of a `Resp`, consumed by the parser's methods. */
  class Reader {
    var rest: bytes

    constructor (input: bytes)
      ensures rest == input
    {
      rest := input;
    }

    method ReadOneLine() returns (r: Parsed<bytes>)
      modifies this
      ensures r == ReadLine(old(rest))
      ensures r.Ok? ==> rest == r.rest
    {
      var i := 0;
      while i < |rest| && rest[i] != LF
        invariant i <= |rest| && LF !in rest[..i]
      {
        i := i + 1;
      }
      if i == |rest| {
        assert rest[..i] == rest;
        return Err(Eof);
      }
      IndexLfUnique(rest, i);
      if i + 1 <= 2 || rest[i - 1] != CR {
        return Err(BadLine);
      }
      r := Ok(rest[..i - 1], rest[i + 1..]);
      rest := rest[i + 1..];
    }

    method ParseBulk(kind: byte, n: nat) returns (r: Parsed<Resp>)
      modifies this
      ensures r == match ReadPayload(old(rest), n)
                   case Err(e) => Err(e)
                   case Ok(data, rest') => Ok(Bulk(kind, data, false), rest')
      ensures r.Ok? ==> rest == r.rest
    {
      if |rest| < n {
        return Err(if rest == [] then Eof else UnexpectedEof);
      }
      var data := rest[..n];
      assert |rest| == n ==> data == rest;
      rest := rest[n..];
      if |rest| == 1 {
        return Err(UnexpectedEof);
      }
      if |rest| >= 2 {
        rest := rest[2..];
      }
      r := Ok(Bulk(kind, data, false), rest);
    }

    /** The parser with its loop over array elements computes `Parse`, and leaves exactly the
        unread rest behind. */
    method ParseResp() returns (r: Parsed<Resp>)
      modifies this
      ensures r == Parse(old(rest))
      ensures r.Ok? ==> rest == r.rest
      decreases |rest|, 0
    {
      var l := ReadOneLine();
      if l.Err? {
        return Err(l.error);
      }
      var kind := l.value[0];
      if IsSimple(kind) {
        return Ok(Simple(kind, l.value[1..]), rest);
      }
      if kind == 37 {
        return Err(MapUnsupported);
      }
      if !IsBulk(kind) && !IsAggregate(kind) {
        return Err(UnknownType);
      }
      var len := ParseLen(l.value);
      if len.Err? {
        return Err(len.error);
      }
      if len.value == -1 {
        return Ok(if IsBulk(kind) then Bulk(kind, [], true) else Aggregate(kind, [], true), rest);
      }
      if IsBulk(kind) {
        r := ParseBulk(kind, len.value);
      } else {
        r := ParseArray(kind, len.value);
      }
    }

    method ParseArray(kind: byte, n: nat) returns (r: Parsed<Resp>)
      modifies this
      ensures r == match ParseMany(old(rest), n)
                   case Err(e) => Err(e)
                   case Ok(elems, rest') => Ok(Aggregate(kind, elems, false), rest')
      ensures r.Ok? ==> rest == r.rest
      decreases |rest|, 1
    {
      var elems: seq<Resp> := [];
      ghost var start := rest;
      hide Parse, ParseMany;
      PrependNone(ParseMany(rest, n));
      for i := 0 to n
        invariant |elems| == i && |rest| <= |start|
        invariant ParseMany(start, n) == Prepend(elems, ParseMany(rest, n - i))
      {
        ParseManyStep(rest, n - i);
        var e := ParseResp();
        if e.Err? {
          return Err(e.error);
        }
        PrependOne(elems, e.value, ParseMany(rest, n - i - 1));
        elems := elems + [e.value];
      }
      ParseNone(rest);
      assert elems + [] == elems;
      r := Ok(Aggregate(kind, elems, false), rest);
    }
  }

  ghost function Prepend(first: seq<Resp>, r: Parsed<seq<Resp>>): Parsed<seq<Resp>> {
    match r
    case Err(e) => Err(e)
    case Ok(others, rest) => Ok(first + others, rest)
  }

  lemma ParseManyStep(s: bytes, n: nat)
    requires n > 0
    ensures ParseMany(s, n) ==
      match Parse(s)
      case Err(e) => Err(e)
      case Ok(first, rest) => Prepend([first], ParseMany(rest, n - 1))
    ensures Parse(s).Ok? ==> |Parse(s).rest| < |s|
  {
  }

  lemma ParseNone(s: bytes)
    ensures ParseMany(s, 0) == Ok([], s)
  {
  }

  lemma PrependNone(r: Parsed<seq<Resp>>)
    ensures Prepend([], r) == r
  {
    if r.Ok? {
      assert [] + r.value == r.value;
    }
  }

  lemma PrependOne(first: seq<Resp>, e: Resp, r: Parsed<seq<Resp>>)
    ensures Prepend(first, Prepend([e], r)) == Prepend(first + [e], r)
  {
    if r.Ok? {
      assert first + ([e] + r.value) == (first + [e]) + r.value;
    }
  }

  // ---- Round trip -----------------------------------------------------------------------------

  lemma DigitsHaveNoLf(n: nat)
    ensures LF !in Digits(n)
  {
  }

  lemma {:induction false} IndexLfUnique(s: bytes, i: nat)
    requires i < |s| && s[i] == LF && LF !in s[..i]
    ensures IndexLf(s) == Some(i)
  {
    if i > 0 {
      assert s[0] == s[..i][0];
      assert s[..i] == [s[0]] + s[1..][..i - 1];
      IndexLfUnique(s[1..], i - 1);
    }
  }

  lemma ReadLineOf(line: bytes, rest: bytes)
    requires line != [] && LF !in line
    ensures ReadLine(line + CRLF + rest) == Ok(line, rest)
  {
    var s := line + CRLF + rest;
    assert s[..|line| + 1] == line + [CR];
    IndexLfUnique(s, |line| + 1);
    assert s[..|line|] == line && s[|line| + 2..] == rest;
  }

  /** A printed header line reads back as its kind and its length. */
  lemma ReadHeader(kind: byte, n: nat, rest: bytes)
    requires kind != LF && n <= MAX_INT64
    ensures var line := [kind] + Digits(n);
      ReadLine(Header(kind, n) + rest) == Ok(line, rest) && line[0] == kind && ParseLen(line) == Ok(n, [])
  {
    var line := [kind] + Digits(n);
    DigitsHaveNoLf(n);
    ReadLineOf(line, rest);
    assert line[1..] == Digits(n) == Format(n);
    ParseFormat(n);
  }

  /** Parsing what `RAW` printed gives the value back and leaves exactly the rest unread. */
  lemma {:induction false} RoundTrip(r: Resp, rest: bytes)
    requires Plain(r)
    ensures Parse(Raw(r) + rest) == Ok(r, rest)
    decreases r, 1
  {
    match r
    case Bulk(kind, data, _) =>
      RoundTripBulk(kind, data, rest);
    case Aggregate(kind, elems, _) =>
      RoundTripAll(elems, rest);
      RoundTripAggregate(kind, elems, rest);
  }

  lemma RoundTripAggregate(kind: byte, elems: seq<Resp>, rest: bytes)
    requires IsAggregate(kind) && |elems| <= MAX_INT64
    requires ParseMany(RawAll(elems) + rest, |elems|) == Ok(elems, rest)
    ensures Parse(Raw(Aggregate(kind, elems, false)) + rest) == Ok(Aggregate(kind, elems, false), rest)
  {
    hide Parse, ParseMany, Header, RawAll;
    var tail := RawAll(elems) + rest;
    assert Raw(Aggregate(kind, elems, false)) + rest == Header(kind, |elems|) + tail;
    ParsePrintedAggregate(kind, |elems|, tail);
  }

  /** After a printed header, parsing goes on with the elements. */
  lemma ParsePrintedAggregate(kind: byte, n: nat, tail: bytes)
    requires IsAggregate(kind) && n <= MAX_INT64
    ensures Parse(Header(kind, n) + tail) ==
      match ParseMany(tail, n)
      case Err(e) => Err(e)
      case Ok(elems, rest) => Ok(Aggregate(kind, elems, false), rest)
  {
    ReadHeader(kind, n, tail);
    hide ParseMany, Header, ReadLine, ParseLen;
  }

  /** After a printed header, parsing goes on with the payload. */
  lemma ParsePrintedBulk(kind: byte, n: nat, tail: bytes)
    requires IsBulk(kind) && n <= MAX_INT64
    ensures Parse(Header(kind, n) + tail) ==
      match ReadPayload(tail, n)
      case Err(e) => Err(e)
      case Ok(data, rest) => Ok(Bulk(kind, data, false), rest)
  {
    ReadHeader(kind, n, tail);
    hide ReadPayload, Header, ReadLine, ParseLen;
  }

  lemma RoundTripBulk(kind: byte, data: bytes, rest: bytes)
    requires IsBulk(kind) && |data| <= MAX_INT64
    ensures Parse(Raw(Bulk(kind, data, false)) + rest) == Ok(Bulk(kind, data, false), rest)
  {
    var tail := data + CRLF + rest;
    assert Raw(Bulk(kind, data, false)) + rest == Header(kind, |data|) + tail;
    ParsePrintedBulk(kind, |data|, tail);
    assert tail[..|data|] == data && tail[|data| + 2..] == rest;
  }

  lemma {:induction false} RoundTripAll(rs: seq<Resp>, rest: bytes)
    requires AllPlain(rs)
    ensures ParseMany(RawAll(rs) + rest, |rs|) == Ok(rs, rest)
    decreases rs, 0
  {
    if rs == [] {
      assert RawAll(rs) + rest == rest;
    } else {
      var tail := RawAll(rs[1..]) + rest;
      assert RawAll(rs) + rest == Raw(rs[0]) + tail;
      RoundTrip(rs[0], tail);
      RoundTripAll(rs[1..], rest);
      assert [rs[0]] + rs[1..] == rs;
    }
  }

  /** Distinct values print differently, and no printed value is a proper prefix of another. */
  lemma RawPrefixFree(a: Resp, b: Resp, tail: bytes)
    requires Plain(a) && Plain(b) && Raw(a) + tail == Raw(b)
    ensures a == b && tail == []
  {
    RoundTrip(a, tail);
    RoundTrip(b, []);
    assert Raw(b) + [] == Raw(b);
  }
}
