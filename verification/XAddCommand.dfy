/** What the words of XADD mean, and what it does to the keys of the store. */
module XAddCommand {
  import opened Bytes
  import opened Decimal
  import opened RdbFormat
  import opened Commands
  import opened CommandWords

  /** A part of the arguments: an option, the ID, or a field with its value. */
  datatype Part = NoStream | MaxLen(n: int) | MinId(minId: bytes) | Id(id: bytes) | Field(name: bytes, value: bytes)

  predicate IsOption(b: bytes) {
    IsWord(b, "NOMKSTREAM") || IsWord(b, "MAXLEN") || IsWord(b, "MINID")
  }

  /** Where the threshold of MAXLEN or MINID stands: after the word, or after "=". */
  function Place(args: seq<bytes>): nat {
    if |args| > 1 && args[1] == Ascii("=") then 2 else 1
  }

  /** There is a threshold, not an approximate one, and then another argument, which is not LIMIT. */
  predicate HasThreshold(args: seq<bytes>) {
    |args| > Place(args) + 1 && args[1] != Ascii("~") && !IsWord(args[Place(args) + 1], "LIMIT")
  }

  /** The arguments after the key are these parts, one after the other. The first word that is no option is the ID,
      as long as it is not empty, and the others come in pairs. */
  predicate Reads(args: seq<bytes>, parts: seq<Part>, id: bytes)
    decreases |parts|
  {
    if parts == [] || args == [] then parts == [] && args == []
    else
      match parts[0]
      case NoStream => IsWord(args[0], "NOMKSTREAM") && Reads(args[1..], parts[1..], id)
      case MaxLen(n) =>
        && IsWord(args[0], "MAXLEN") && HasThreshold(args) && ParseInt(args[Place(args)]) == Some(n)
        && Reads(args[Place(args) + 1..], parts[1..], id)
      case MinId(minId) =>
        && IsWord(args[0], "MINID") && HasThreshold(args) && args[Place(args)] == minId
        && Reads(args[Place(args) + 1..], parts[1..], id)
      case Id(given) => !IsOption(args[0]) && id == [] && args[0] == given && Reads(args[1..], parts[1..], given)
      case Field(name, value) =>
        !IsOption(args[0]) && id != [] && |args| >= 2 && args[0] == name && args[1] == value && Reads(args[2..], parts[1..], id)
  }

  /** What the parts add up to. */
  function Next(x: XAddOptions, p: Part): XAddOptions {
    match p
    case NoStream => x.(noMkStream := true)
    case MaxLen(n) => x.(maxLen := n)
    case MinId(minId) => x.(minId := minId)
    case Id(id) => x.(id := id)
    case Field(name, value) => x.(fields := x.fields + [[name, value]])
  }

  function Total(x: XAddOptions, parts: seq<Part>): XAddOptions
    decreases |parts|
  {
    if parts == [] then x else Total(Next(x, parts[0]), parts[1..])
  }

  lemma XAddWords(b: bytes)
    ensures Upper(b) == NOMKSTREAM <==> IsWord(b, "NOMKSTREAM")
    ensures Upper(b) == MAXLEN <==> IsWord(b, "MAXLEN")
    ensures Upper(b) == MINID <==> IsWord(b, "MINID")
    ensures Upper(b) == LIMIT <==> IsWord(b, "LIMIT")
    ensures NOMKSTREAM != MAXLEN && NOMKSTREAM != MINID && MAXLEN != MINID
    ensures Ascii("=") == [61] && Ascii("~") == [126]
  {
    assert NOMKSTREAM == Ascii("NOMKSTREAM");
    assert MAXLEN == Ascii("MAXLEN");
    assert MINID == Ascii("MINID");
    assert LIMIT == Ascii("LIMIT");
    UpperIs(b, "NOMKSTREAM");
    UpperIs(b, "MAXLEN");
    UpperIs(b, "MINID");
    UpperIs(b, "LIMIT");
    hide Upper, IsWord;
  }

  lemma ParseOne(args: seq<bytes>, x: XAddOptions, p: Part, rest: seq<bytes>)
    requires args != []
    requires match p
      case NoStream => IsWord(args[0], "NOMKSTREAM") && rest == args[1..]
      case MaxLen(n) => IsWord(args[0], "MAXLEN") && HasThreshold(args) && ParseInt(args[Place(args)]) == Some(n) && rest == args[Place(args) + 1..]
      case MinId(minId) => IsWord(args[0], "MINID") && HasThreshold(args) && args[Place(args)] == minId && rest == args[Place(args) + 1..]
      case Id(given) => !IsOption(args[0]) && x.id == [] && args[0] == given && rest == args[1..]
      case Field(name, value) => !IsOption(args[0]) && x.id != [] && |args| >= 2 && args[0] == name && args[1] == value && rest == args[2..]
    ensures ParseXAdd(args, x) == ParseXAdd(rest, Next(x, p))
  {
    XAddWords(args[0]);
    if p.MaxLen? || p.MinId? {
      XAddWords(args[Place(args) + 1]);
      assert args[Place(args)..][1..] == args[Place(args) + 1..];
    }
    hide Upper, IsWord, ParseInt, Ascii;
  }

  /** Arguments that are these parts are read so, if there are an ID and a field among them. */
  lemma {:induction false} ReadsParse(args: seq<bytes>, parts: seq<Part>, x: XAddOptions)
    requires Reads(args, parts, x.id)
    ensures var t := Total(x, parts); ParseXAdd(args, x) == if t.id == [] || t.fields == [] then None else Some(t)
    decreases |parts|
  {
    if parts != [] {
      var p := parts[0];
      var n := match p case NoStream => 1 case MaxLen(_) => Place(args) + 1 case MinId(_) => Place(args) + 1 case Id(_) => 1 case Field(_, _) => 2;
      ParseOne(args, x, p, args[n..]);
      hide IsWord, IsOption, HasThreshold, Place, ParseInt, ParseXAdd;
      ReadsParse(args[n..], parts[1..], Next(x, p));
    }
  }

  /** And nothing else is read. */
  lemma {:induction false} ParseReads(args: seq<bytes>, x: XAddOptions) returns (parts: seq<Part>)
    requires ParseXAdd(args, x).Some?
    ensures Reads(args, parts, x.id)
    decreases |args|
  {
    if args == [] {
      parts := [];
    } else {
      var p, rest := PartAt(args, x);
      ParseOne(args, x, p, rest);
      hide IsWord, IsOption, HasThreshold, Place, ParseInt, ParseXAdd;
      var others := ParseReads(rest, Next(x, p));
      parts := [p] + others;
      assert parts[1..] == others;
    }
  }

  lemma PartAt(args: seq<bytes>, x: XAddOptions) returns (p: Part, rest: seq<bytes>)
    requires args != [] && ParseXAdd(args, x).Some?
    ensures |rest| < |args|
    ensures match p
      case NoStream => IsWord(args[0], "NOMKSTREAM") && rest == args[1..]
      case MaxLen(n) => IsWord(args[0], "MAXLEN") && HasThreshold(args) && ParseInt(args[Place(args)]) == Some(n) && rest == args[Place(args) + 1..]
      case MinId(minId) => IsWord(args[0], "MINID") && HasThreshold(args) && args[Place(args)] == minId && rest == args[Place(args) + 1..]
      case Id(given) => !IsOption(args[0]) && x.id == [] && args[0] == given && rest == args[1..]
      case Field(name, value) => !IsOption(args[0]) && x.id != [] && |args| >= 2 && args[0] == name && args[1] == value && rest == args[2..]
  {
    XAddWords(args[0]);
    var word, k := Upper(args[0]), Place(args);
    if |args| > k + 1 {
      XAddWords(args[k + 1]);
    }
    hide Upper, IsWord, ParseInt, Ascii;
    if word == NOMKSTREAM {
      p, rest := NoStream, args[1..];
    } else if word == MAXLEN {
      p, rest := MaxLen(ParseInt(args[k]).value), args[k + 1..];
    } else if word == MINID {
      p, rest := MinId(args[k]), args[k + 1..];
    } else if x.id == [] {
      p, rest := Id(args[0]), args[1..];
    } else {
      p, rest := Field(args[0], args[1]), args[2..];
    }
  }

  const NOTHING := XAddOptions(false, 0, [], [], [])

  /** The parts have an ID and at least one field. */
  predicate Complete(parts: seq<Part>) {
    Total(NOTHING, parts).id != [] && Total(NOTHING, parts).fields != []
  }

  /** XADD makes a stream under a free key, unless NOMKSTREAM is among its options; it leaves one that is there, and
      is refused for a string. It is refused exactly for too few arguments, for such as cannot be read or have no
      ID or no field, and for a string. */
  lemma XAddMeaning(store: Store, args: seq<bytes>, parts: seq<Part>)
    requires |args| > 3 && Reads(args[1..], parts, []) && Complete(parts)
    ensures RunXAdd(store, args) ==
      if args[0] in store then (store, if store[args[0]].Str? then Refused else Done)
      else if NoStream in parts then (store, Nil)
      else (store[args[0] := Other(0)], Done)
  {
    ReadsParse(args[1..], parts, NOTHING);
    NoStreamIn(NOTHING, parts);
    hide ParseXAdd, Reads, Total;
  }

  lemma XAddRefused(store: Store, args: seq<bytes>)
    ensures RunXAdd(store, args).1 == Refused <==>
      || |args| <= 3 || (args[0] in store && store[args[0]].Str?)
      || !exists parts :: Reads(args[1..], parts, []) && Complete(parts)
  {
    hide ParseXAdd, Reads, Total, Complete;
    if |args| > 3 {
      if ParseXAdd(args[1..], NOTHING).Some? {
        var parts := ParseReads(args[1..], NOTHING);
        ReadsParse(args[1..], parts, NOTHING);
        CompleteIs(parts);
      } else if parts :| Reads(args[1..], parts, []) && Complete(parts) {
        ReadsParse(args[1..], parts, NOTHING);
        CompleteIs(parts);
      }
    }
  }

  lemma CompleteIs(parts: seq<Part>)
    ensures Complete(parts) <==> Total(NOTHING, parts).id != [] && Total(NOTHING, parts).fields != []
  {
    hide Total;
  }

  lemma {:induction false} NoStreamIn(x: XAddOptions, parts: seq<Part>)
    ensures Total(x, parts).noMkStream <==> x.noMkStream || NoStream in parts
    decreases |parts|
  {
    if parts != [] {
      NoStreamIn(Next(x, parts[0]), parts[1..]);
      assert parts == [parts[0]] + parts[1..];
    }
  }
}
