/** The bytes of the protocol: how values are printed, what each kind of line is taken for, and what a line of no
    kind does to a connection. */
module RespBytes {
  import opened Bytes
  import opened Decimal
  import opened Resp
  import opened Framing
  import opened Replication

  lemma LineEnd()
    ensures CRLF == Ascii("\r\n") == [13, 10] && Ascii("*") == [42] && Ascii("$") == [36]
  {
  }

  // ---- Printing -------------------------------------------------------------------------------

  /** A command on the wire: its arguments, each with its length. */
  function Arguments(c: seq<bytes>): bytes {
    if c == [] then []
    else Ascii("$") + Digits(|c[0]|) + Ascii("\r\n") + c[0] + Ascii("\r\n") + Arguments(c[1..])
  }

  lemma {:induction false} ArgumentsPrinted(c: seq<bytes>)
    ensures RawAll(AsResp(c).elems) == Arguments(c)
    decreases |c|
  {
    if c != [] {
      var rs := AsResp(c).elems;
      LineEnd();
      hide Ascii, Digits;
      assert rs[1..] == AsResp(c[1..]).elems;
      ArgumentsPrinted(c[1..]);
      assert Raw(rs[0]) == [36] + Digits(|c[0]|) + CRLF + c[0] + CRLF;
    }
  }

  /** A command is printed as an array of bulk strings. */
  lemma CommandBytes(c: seq<bytes>)
    ensures Raw(AsResp(c)) == Ascii("*") + Digits(|c|) + Ascii("\r\n") + Arguments(c)
  {
    LineEnd();
    ArgumentsPrinted(c);
    hide Ascii, Digits, RawAll, Arguments;
  }

  // ---- Parsing --------------------------------------------------------------------------------

  /** The kinds of simple values, of strings with a length, and of aggregates. */
  lemma Kinds(k: byte)
    ensures IsSimple(k) <==> [k] == Ascii("+") || [k] == Ascii("-") || [k] == Ascii(":") || [k] == Ascii("_") || [k] == Ascii("#") || [k] == Ascii(",") || [k] == Ascii("(")
    ensures IsBulk(k) <==> [k] == Ascii("$") || [k] == Ascii("!") || [k] == Ascii("=")
    ensures IsAggregate(k) <==> [k] == Ascii("*") || [k] == Ascii(">") || [k] == Ascii("~")
  {
    assert Ascii("+")[0] == 43 && Ascii("-")[0] == 45 && Ascii(":")[0] == 58 && Ascii("_")[0] == 95 && Ascii("#")[0] == 35;
    assert Ascii(",")[0] == 44 && Ascii("(")[0] == 40 && Ascii("$")[0] == 36 && Ascii("!")[0] == 33 && Ascii("=")[0] == 61;
    assert Ascii("*")[0] == 42 && Ascii(">")[0] == 62 && Ascii("~")[0] == 126;
    forall a: byte, b: byte ensures [a] == [b] <==> a == b {
      assert [a][0] == a && [b][0] == b;
    }
    forall s: bytes | |s| == 1 ensures s == [s[0]] {
    }
  }

  /** A simple value is the text of its line. */
  lemma SimpleRead(k: byte, text: bytes, rest: bytes)
    requires IsSimple(k) && LF !in text
    ensures Parse([k] + text + Ascii("\r\n") + rest) == Ok(Simple(k, text), rest)
  {
    LineEnd();
    var line := [k] + text;
    ReadLineOf(line, rest);
    assert line[1..] == text && line + CRLF + rest == [k] + text + Ascii("\r\n") + rest;
    hide ReadLine, Ascii, ParseMany, ReadPayload;
  }

  /** A length of -1 is a null. */
  lemma NullRead(k: byte, rest: bytes)
    requires IsBulk(k) || IsAggregate(k)
    ensures Parse([k] + Ascii("-1\r\n") + rest) == Ok(if IsBulk(k) then Bulk(k, [], true) else Aggregate(k, [], true), rest)
  {
    var line := [k] + [45, 49];
    assert Ascii("-1\r\n") == [45, 49] + CRLF;
    assert line + CRLF + rest == [k] + Ascii("-1\r\n") + rest;
    ReadLineOf(line, rest);
    assert line[1..] == [45, 49] && [45, 49][1..] == [49] && [49][..0] == [];
    assert Value([49]) == 10 * Value([]) + 1;
    hide ReadLine, Ascii, ParseMany, ReadPayload;
  }

  /** A string is as many bytes as its length says, whatever they are, and then two more. */
  lemma BulkRead(k: byte, data: bytes, rest: bytes)
    requires IsBulk(k) && |data| <= MAX_INT64
    ensures Parse([k] + Digits(|data|) + Ascii("\r\n") + data + Ascii("\r\n") + rest) == Ok(Bulk(k, data, false), rest)
  {
    LineEnd();
    RoundTripBulk(k, data, rest);
    hide Ascii, Parse, Digits;
    assert Raw(Bulk(k, data, false)) == [k] + Digits(|data|) + CRLF + data + CRLF;
  }

  /** What follows the length n: with fewer than n bytes, or n + 1, the input has ended too early; n bytes will do, at
      the end of the input; otherwise the two bytes after them are skipped, whatever they are. */
  lemma PayloadRead(k: byte, n: nat, s: bytes)
    requires IsBulk(k) && n <= MAX_INT64
    ensures Parse([k] + Digits(n) + Ascii("\r\n") + s) ==
      if |s| >= n + 2 then Ok(Bulk(k, s[..n], false), s[n + 2..])
      else if |s| == n then Ok(Bulk(k, s, false), [])
      else Err(if s == [] then Eof else UnexpectedEof)
  {
    LineEnd();
    ParsePrintedBulk(k, n, s);
    hide Parse, Ascii, Digits;
    assert Header(k, n) == [k] + Digits(n) + CRLF;
  }

  // ---- A line of no kind ----------------------------------------------------------------------

  /** The first line is complete, but its first byte is none of the kinds. */
  predicate StartsUnknown(s: bytes) {
    && ReadLine(s).Ok?
    && var k := ReadLine(s).value[0]; !IsSimple(k) && !IsBulk(k) && !IsAggregate(k) && k != '%' as int
  }

  lemma UnknownFails(s: bytes)
    requires StartsUnknown(s)
    ensures Parse(s) == Err(UnknownType)
  {
    hide ReadLine, ParseMany, ReadPayload;
  }

  lemma StaysUnknown(s: bytes, more: bytes)
    requires StartsUnknown(s)
    ensures StartsUnknown(s + more)
  {
    var i := IndexLf(s).value;
    assert (s + more)[..i] == s[..i];
    IndexLfUnique(s + more, i);
    assert (s + more)[..i - 1] == s[..i - 1];
  }

  /** Once a connection, of a client or with the master, has received such a line at the start of a command, nothing
      that comes after it is ever delivered. */
  lemma {:induction false} UnknownLineSilences(link: Link, buffer: bytes, input: bytes)
    requires StartsUnknown(buffer)
    ensures Serve(link, buffer, input) == []
    decreases |input|
  {
    var next := IndexLf(input);
    if next.Some? {
      var line := input[..next.value + 1];
      StaysUnknown(buffer, line);
      UnknownKept(link, buffer, line);
      hide StartsUnknown, Parse, Feed, IndexLf;
      UnknownLineSilences(link, buffer + line, input[next.value + 1..]);
      assert [] + Serve(link, buffer + line, input[next.value + 1..]) == Serve(link, buffer + line, input[next.value + 1..]);
    }
  }

  lemma UnknownKept(link: Link, buffer: bytes, line: bytes)
    requires StartsUnknown(buffer + line)
    ensures Feed(link, buffer, line) == (buffer + line, [])
  {
    UnknownFails(buffer + line);
    hide StartsUnknown, Parse;
  }

  /** A line that does not end in CR LF, or is empty, is thrown away alone. */
  lemma BadLineSkipped(link: Link, line: bytes, input: bytes)
    requires LF !in line && (line == [] || line[|line| - 1] != 13 || |line| == 1)
    ensures Serve(link, [], line + [10] + input) == Serve(link, [], input)
  {
    hide Serve, Feed;
    BadLineResets(link, line);
    LineSkipped(link, line, input);
  }

  lemma BadLineResets(link: Link, line: bytes)
    requires LF !in line && (line == [] || line[|line| - 1] != 13 || |line| == 1)
    ensures Feed(link, [], line + [LF]) == ([], [])
  {
    BadLineFails(line);
    hide ReadLine, Parse;
    assert [] + (line + [LF]) == line + [LF];
  }

  lemma BadLineFails(line: bytes)
    requires LF !in line && (line == [] || line[|line| - 1] != 13 || |line| == 1)
    ensures Parse(line + [LF]) == Err(BadLine)
  {
    BadLineRead(line);
    hide ReadLine, ParseMany, ReadPayload, ParseLen;
  }

  lemma BadLineRead(line: bytes)
    requires LF !in line && (line == [] || line[|line| - 1] != 13 || |line| == 1)
    ensures ReadLine(line + [LF]) == Err(BadLine)
  {
    var b := line + [LF];
    assert b[..|line|] == line;
    IndexLfUnique(b, |line|);
    hide IndexLf;
  }

  /** A line that leaves nothing in the buffer and delivers nothing. */
  lemma LineSkipped(link: Link, line: bytes, input: bytes)
    requires LF !in line && Feed(link, [], line + [LF]) == ([], [])
    ensures Serve(link, [], line + [LF] + input) == Serve(link, [], input)
  {
    var s := line + [LF] + input;
    assert s[..|line|] == line;
    IndexLfUnique(s, |line|);
    assert s[..|line| + 1] == line + [LF] && s[|line| + 1..] == input;
    hide *;
    ServeLine(link, [], s, |line|);
    assert [] + Serve(link, [], input) == Serve(link, [], input);
  }

  /** So is a line with a length that is no number, or a number below -1. */
  lemma BadLengthSkipped(link: Link, k: byte, text: bytes, input: bytes)
    requires (IsBulk(k) || IsAggregate(k)) && LF !in text && (ParseInt(text).None? || ParseInt(text).value < -1)
    ensures Serve(link, [], [k] + text + Ascii("\r\n") + input) == Serve(link, [], input)
  {
    hide *;
    LineEnd();
    var line := [k] + text;
    BadLengthFails(k, text);
    BadLengthResets(link, line + CRLF);
    assert [k] + text + Ascii("\r\n") + input == line + CRLF + input;
    KindsAreNoLf(k);
    LineDropped(link, line, input);
  }

  lemma KindsAreNoLf(k: byte)
    requires IsBulk(k) || IsAggregate(k)
    ensures k != LF
  {
  }

  lemma BadLengthFails(k: byte, text: bytes)
    requires (IsBulk(k) || IsAggregate(k)) && LF !in text && (ParseInt(text).None? || ParseInt(text).value < -1)
    ensures Parse([k] + text + CRLF) == Err(BadLength)
  {
    var line := [k] + text;
    assert line + CRLF + [] == line + CRLF;
    ReadLineOf(line, []);
    assert line[1..] == text;
    hide ReadLine, ParseInt, ParseMany, ReadPayload;
  }

  lemma BadLengthResets(link: Link, line: bytes)
    requires Parse(line) == Err(BadLength)
    ensures Feed(link, [], line) == ([], [])
  {
    assert [] + line == line;
    hide Parse;
  }

  lemma LineDropped(link: Link, line: bytes, input: bytes)
    requires LF !in line && Feed(link, [], line + CRLF) == ([], [])
    ensures Serve(link, [], line + CRLF + input) == Serve(link, [], input)
  {
    assert line + CRLF == (line + [CR]) + [LF];
    hide *;
    assert line + CRLF + input == (line + [CR]) + [LF] + input;
    LineSkipped(link, line + [CR], input);
  }

  /** Of what can be parsed, a client's loop delivers arrays with at least one element and drops the rest; the loop
      to the master delivers everything. */
  lemma OnlyArrays(buffer: bytes, line: bytes, r: Resp, rest: bytes)
    requires Parse(buffer + line) == Ok(r, rest)
    ensures Feed(FromMaster, buffer, line) == ([], [Frame(r, buffer + line)])
    ensures Feed(FromClient, buffer, line) ==
      ([], if r.Aggregate? && r.kind == '*' as int && |r.elems| >= 1 then [Frame(r, buffer + line)] else [])
  {
    hide Parse;
  }
}
