/** What SET means, from its words: how a list of options is read, and what they do. */
module SetCommand {
  import opened Bytes
  import opened Decimal
  import opened RdbFormat
  import opened Commands
  import opened CommandWords

  // ---- Reading the options --------------------------------------------------------------------

  /** An option: a word, or a word and a number. */
  datatype Opt = Word(w: string) | WithNumber(w: string, n: int)

  predicate IsFlag(w: string) {
    w == "NX" || w == "XX" || w == "GET" || w == "KEEPTTL"
  }

  predicate TakesNumber(w: string) {
    w == "EX" || w == "PX" || w == "EXAT" || w == "PXAT"
  }

  /** The arguments are these options, one after the other, their words in any case of letters. */
  predicate Reads(args: seq<bytes>, opts: seq<Opt>)
    decreases |opts|
  {
    if opts == [] then args == []
    else
      match opts[0]
      case Word(w) => |args| >= 1 && IsFlag(w) && IsWord(args[0], w) && Reads(args[1..], opts[1..])
      case WithNumber(w, n) =>
        |args| >= 2 && TakesNumber(w) && IsWord(args[0], w) && ParseInt(args[1]) == Some(n) && Reads(args[2..], opts[1..])
  }

  /** The number that comes with a word; the last one counts. */
  function Given(opts: seq<Opt>, w: string): Option<int> {
    if opts == [] then None
    else
      match Given(opts[1..], w)
      case Some(n) => Some(n)
      case None => if opts[0].WithNumber? && opts[0].w == w then Some(opts[0].n) else None
  }

  /** The options after these were read, from those before. */
  predicate Becomes(o: SetOptions, o': SetOptions, opts: seq<Opt>) {
    FlagsBecome(o, o', opts) && NumbersBecome(o, o', opts)
  }

  predicate FlagsBecome(o: SetOptions, o': SetOptions, opts: seq<Opt>) {
    && (o'.nx <==> o.nx || Word("NX") in opts) && (o'.xx <==> o.xx || Word("XX") in opts)
    && (o'.get <==> o.get || Word("GET") in opts) && (o'.keepTtl <==> o.keepTtl || Word("KEEPTTL") in opts)
  }

  predicate NumbersBecome(o: SetOptions, o': SetOptions, opts: seq<Opt>) {
    && o'.ex == (match Given(opts, "EX") case None => o.ex case Some(n) => Wrap(n * 1_000_000_000))
    && o'.px == (match Given(opts, "PX") case None => o.px case Some(n) => Wrap(n * 1_000_000))
    && o'.exAt == (match Given(opts, "EXAT") case None => o.exAt case Some(n) => n)
    && o'.pxAt == (match Given(opts, "PXAT") case None => o.pxAt case Some(n) => n)
  }

  /** One option more. */
  function Next(o: SetOptions, opt: Opt): SetOptions {
    match opt
    case Word(w) =>
      if w == "NX" then o.(nx := true) else if w == "XX" then o.(xx := true)
      else if w == "GET" then o.(get := true) else o.(keepTtl := true)
    case WithNumber(w, n) =>
      if w == "EX" then o.(ex := Wrap(n * 1_000_000_000)) else if w == "PX" then o.(px := Wrap(n * 1_000_000))
      else if w == "EXAT" then o.(exAt := n) else o.(pxAt := n)
  }

  lemma BecomesOneMore(o: SetOptions, o': SetOptions, opts: seq<Opt>)
    requires opts != [] && Becomes(Next(o, opts[0]), o', opts[1..])
    requires if opts[0].Word? then IsFlag(opts[0].w) else TakesNumber(opts[0].w)
    ensures Becomes(o, o', opts)
  {
    hide FlagsBecome, NumbersBecome, Next;
    OneMoreFlag(o, o', opts);
    OneMoreNumber(o, o', opts);
  }

  lemma OneMoreFlag(o: SetOptions, o': SetOptions, opts: seq<Opt>)
    requires opts != [] && FlagsBecome(Next(o, opts[0]), o', opts[1..])
    requires if opts[0].Word? then IsFlag(opts[0].w) else TakesNumber(opts[0].w)
    ensures FlagsBecome(o, o', opts)
  {
    assert forall x :: x in opts <==> x == opts[0] || x in opts[1..];
    hide Wrap;
  }

  lemma OneMoreNumber(o: SetOptions, o': SetOptions, opts: seq<Opt>)
    requires opts != [] && NumbersBecome(Next(o, opts[0]), o', opts[1..])
    requires if opts[0].Word? then IsFlag(opts[0].w) else TakesNumber(opts[0].w)
    ensures NumbersBecome(o, o', opts)
  {
    hide Wrap;
  }

  lemma BecomesNothing(o: SetOptions)
    ensures Becomes(o, o, [])
  {
  }

  lemma OptionWords()
    ensures NX == Ascii("NX") && XX == Ascii("XX") && GET == Ascii("GET") && KEEPTTL == Ascii("KEEPTTL")
    ensures EX == Ascii("EX") && PX == Ascii("PX") && EXAT == Ascii("EXAT") && PXAT == Ascii("PXAT")
  {
  }

  /** Which option a word is, if any. */
  lemma WordIs(b: bytes)
    ensures Upper(b) == NX <==> IsWord(b, "NX")
    ensures Upper(b) == XX <==> IsWord(b, "XX")
    ensures Upper(b) == GET <==> IsWord(b, "GET")
    ensures Upper(b) == KEEPTTL <==> IsWord(b, "KEEPTTL")
    ensures Upper(b) == EX <==> IsWord(b, "EX")
    ensures Upper(b) == PX <==> IsWord(b, "PX")
    ensures Upper(b) == EXAT <==> IsWord(b, "EXAT")
    ensures Upper(b) == PXAT <==> IsWord(b, "PXAT")
  {
    OptionWords();
    hide Upper, Ascii, IsWord;
    UpperIs(b, "NX");
    UpperIs(b, "XX");
    UpperIs(b, "GET");
    UpperIs(b, "KEEPTTL");
    UpperIs(b, "EX");
    UpperIs(b, "PX");
    UpperIs(b, "EXAT");
    UpperIs(b, "PXAT");
  }

  lemma ParseFlag(args: seq<bytes>, o: SetOptions, w: string)
    requires |args| >= 1 && IsFlag(w) && IsWord(args[0], w)
    ensures ParseOptions(args, o) == ParseOptions(args[1..], Next(o, Word(w)))
  {
    WordIs(args[0]);
    OnlyOneWord(args[0]);
    hide Upper, IsWord, Wrap;
  }

  lemma ParseNumber(args: seq<bytes>, o: SetOptions, w: string, n: int)
    requires |args| >= 2 && TakesNumber(w) && IsWord(args[0], w) && ParseInt(args[1]) == Some(n)
    ensures ParseOptions(args, o) == ParseOptions(args[2..], Next(o, WithNumber(w, n)))
  {
    WordIs(args[0]);
    OnlyOneWord(args[0]);
    hide Upper, IsWord, Wrap, ParseInt;
  }

  lemma OnlyOneWord(b: bytes)
    ensures Upper(b) == NX ==> Upper(b) != XX && Upper(b) != GET && Upper(b) != KEEPTTL
    ensures Upper(b) == EX ==> Upper(b) != PX
    ensures NX != XX && NX != EX && NX != PX && XX != EX && XX != PX && EX != PX && EXAT != PXAT
    ensures |NX| == |XX| == |EX| == |PX| == 2 && |GET| == 3 && |EXAT| == |PXAT| == 4 && |KEEPTTL| == 7
  {
  }

  /** Options that are written out in this way are read so. */
  lemma {:induction false} ReadsParse(args: seq<bytes>, opts: seq<Opt>, o: SetOptions)
    requires Reads(args, opts)
    ensures ParseOptions(args, o).Some? && Becomes(o, ParseOptions(args, o).value, opts)
    decreases |opts|
  {
    if opts == [] {
      BecomesNothing(o);
    } else {
      hide Becomes, Next, IsWord, Wrap, ParseInt, IsFlag, TakesNumber, ParseOptions;
      match opts[0]
      case Word(w) =>
        ParseFlag(args, o, w);
        ReadsParse(args[1..], opts[1..], Next(o, opts[0]));
        BecomesOneMore(o, ParseOptions(args, o).value, opts);
      case WithNumber(w, n) =>
        ParseNumber(args, o, w, n);
        ReadsParse(args[2..], opts[1..], Next(o, opts[0]));
        BecomesOneMore(o, ParseOptions(args, o).value, opts);
    }
  }

  /** And nothing else is read at all. */
  lemma {:induction false} ParseReads(args: seq<bytes>, o: SetOptions) returns (opts: seq<Opt>)
    requires ParseOptions(args, o).Some?
    ensures Reads(args, opts)
    decreases |args|
  {
    if args == [] {
      opts := [];
    } else {
      WordIs(args[0]);
      var word := Upper(args[0]);
      hide Upper, IsWord, Wrap, ParseInt;
      if word == EX || word == PX || word == EXAT || word == PXAT {
        var w := if word == EX then "EX" else if word == PX then "PX" else if word == EXAT then "EXAT" else "PXAT";
        var n := ParseInt(args[1]).value;
        ParseNumber(args, o, w, n);
        var others := ParseReads(args[2..], Next(o, WithNumber(w, n)));
        opts := [WithNumber(w, n)] + others;
        assert opts[1..] == others;
      } else {
        var w := if word == NX then "NX" else if word == XX then "XX" else if word == GET then "GET" else "KEEPTTL";
        ParseFlag(args, o, w);
        var others := ParseReads(args[1..], Next(o, Word(w)));
        opts := [Word(w)] + others;
        assert opts[1..] == others;
      }
    }
  }

  /** A list of arguments is refused as options exactly if it cannot be written out so: because of a word that is
      none of these, or a number that is missing or is none. */
  lemma SetAborts(store: Store, args: seq<bytes>, now: nat)
    ensures RunSet(store, args, now).1 == Aborted <==> |args| >= 2 && !exists opts :: Reads(args[2..], opts)
    ensures RunSet(store, args, now).1 == Aborted ==> RunSet(store, args, now).0 == store
    ensures |args| < 2 ==> RunSet(store, args, now) == (store, Refused)
  {
    hide Reads, ParseOptions, Get, Deadline, Clash;
    if |args| >= 2 {
      if ParseOptions(args[2..], NO_OPTIONS).Some? {
        var opts := ParseReads(args[2..], NO_OPTIONS);
      } else if opts :| Reads(args[2..], opts) {
        ReadsParse(args[2..], opts, NO_OPTIONS);
      }
    }
  }

  /** A word after options that can be read is no option. */
  predicate IsNoOption(rest: seq<bytes>) {
    && rest != []
    && !IsWord(rest[0], "NX") && !IsWord(rest[0], "XX") && !IsWord(rest[0], "GET") && !IsWord(rest[0], "KEEPTTL")
    && (IsWord(rest[0], "EX") || IsWord(rest[0], "PX") || IsWord(rest[0], "EXAT") || IsWord(rest[0], "PXAT") ==>
      |rest| < 2 || ParseInt(rest[1]).None?)
  }

  lemma StopsAtOnce(rest: seq<bytes>, o: SetOptions)
    requires IsNoOption(rest)
    ensures ParseOptions(rest, o) == None
  {
    WordIs(rest[0]);
    hide Upper, IsWord, Wrap, ParseInt;
  }

  lemma {:induction false} ParseStops(pre: seq<bytes>, opts: seq<Opt>, rest: seq<bytes>, o: SetOptions)
    requires Reads(pre, opts) && IsNoOption(rest)
    ensures ParseOptions(pre + rest, o) == None
    decreases |opts|
  {
    if opts == [] {
      assert pre + rest == rest;
      StopsAtOnce(rest, o);
    } else {
      StepsOver(pre, opts, rest, o);
      hide *;
      var n := if opts[0].Word? then 1 else 2;
      ParseStops(pre[n..], opts[1..], rest, Next(o, opts[0]));
    }
  }

  /** The first option is read and the rest remains. */
  lemma StepsOver(pre: seq<bytes>, opts: seq<Opt>, rest: seq<bytes>, o: SetOptions)
    requires opts != [] && Reads(pre, opts)
    ensures var n := if opts[0].Word? then 1 else 2;
      |pre| >= n && Reads(pre[n..], opts[1..]) && ParseOptions(pre + rest, o) == ParseOptions(pre[n..] + rest, Next(o, opts[0]))
  {
    hide Next, IsWord, Wrap, ParseInt, IsFlag, TakesNumber, ParseOptions;
    var args := pre + rest;
    match opts[0]
    case Word(w) =>
      ParseFlag(args, o, w);
      assert args[1..] == pre[1..] + rest;
    case WithNumber(w, n) =>
      ParseNumber(args, o, w, n);
      assert args[2..] == pre[2..] + rest;
  }

  /** An unknown word in option position is an error, and so is EX, PX, EXAT or PXAT without a number; nothing is
      stored then, whatever came before. */
  lemma UnknownOption(store: Store, key: bytes, data: bytes, pre: seq<bytes>, opts: seq<Opt>, rest: seq<bytes>, now: nat)
    requires Reads(pre, opts) && IsNoOption(rest)
    ensures RunSet(store, [key, data] + (pre + rest), now) == (store, Aborted)
  {
    ParseStops(pre, opts, rest, NO_OPTIONS);
    assert ([key, data] + (pre + rest))[2..] == pre + rest;
    hide ParseOptions, Reads, IsNoOption;
  }

  // ---- What the options do --------------------------------------------------------------------

  /** What a GET finds at a time: a string that is there and whose time is not over. */
  function Found(store: Store, key: bytes, now: nat): Option<bytes> {
    if key in store && store[key].Str? && !(0 < store[key].expiry < now) then Some(store[key].data) else None
  }

  lemma GetFinds(store: Store, key: bytes, now: nat)
    ensures Get(store, key, now).1 == Found(store, key, now)
    ensures forall k, later: nat :: now <= later ==> Found(Get(store, key, now).0, k, later) == Found(store, k, later)
  {
  }

  lemma GetDeletes(store: Store, key: bytes, now: nat)
    ensures Get(store, key, now).0 == if key in store && 0 < store[key].expiry < now then store - {key} else store
  {
  }

  /** GET replies with it, with nil if there is none, and with an error to any other number of arguments. It deletes
      what it was asked for if the time of that is over, and changes nothing else. */
  lemma GetMeaning(store: Store, args: seq<bytes>, now: nat)
    ensures RunGet(store, args, now).1 ==
      if |args| != 1 then Aborted else if Found(store, args[0], now).Some? then Data(Found(store, args[0], now).value) else Nil
    ensures forall k, later: nat :: now <= later ==> Found(RunGet(store, args, now).0, k, later) == Found(store, k, later)
    ensures RunGet(store, args, now).0 ==
      if |args| == 1 && args[0] in store && 0 < store[args[0]].expiry < now then store - {args[0]} else store
  {
    if |args| == 1 {
      GetFinds(store, args[0], now);
      GetDeletes(store, args[0], now);
    }
    hide Get, Found;
  }

  /** The lifetimes that EX and PX give, in nanoseconds. */
  function Lifetime(opts: seq<Opt>, w: string, unit: nat): int {
    match Given(opts, w)
    case None => 0
    case Some(n) => Wrap(n * unit)
  }

  /** The zero time, given in seconds or in milliseconds, stands for none. */
  function Moment(opts: seq<Opt>, w: string, zero: int): Option<int> {
    match Given(opts, w)
    case None => None
    case Some(n) => if n == zero then None else Some(n)
  }

  predicate GivesTime(opts: seq<Opt>) {
    || Lifetime(opts, "EX", 1_000_000_000) > 0 || Lifetime(opts, "PX", 1_000_000) > 0
    || Moment(opts, "EXAT", -62_135_596_800).Some? || Moment(opts, "PXAT", -62_135_596_800_000).Some?
  }

  /** The millisecond up to which a value lives that is set at the time `now`; 0 if for ever. */
  function Due(opts: seq<Opt>, now: nat): nat {
    var ex, px := Lifetime(opts, "EX", 1_000_000_000), Lifetime(opts, "PX", 1_000_000);
    var exAt, pxAt := Moment(opts, "EXAT", -62_135_596_800), Moment(opts, "PXAT", -62_135_596_800_000);
    (if ex > 0 then now + ex / 1_000_000
     else if px > 0 then now + px / 1_000_000
     else if exAt.Some? then exAt.value * 1000
     else if pxAt.Some? then pxAt.value
     else 0) % 0x1_0000_0000_0000_0000
  }

  lemma DueIs(o: SetOptions, opts: seq<Opt>, now: nat)
    requires NumbersBecome(NO_OPTIONS, o, opts)
    ensures Deadline(o, now) == Due(opts, now) && (Expires(o) <==> GivesTime(opts))
  {
    hide Wrap, Given;
  }

  /** SET with options in any order: NX with XX, or KEEPTTL with an expiry, is refused; NX stores exactly if a GET
      would find nothing, XX exactly if it would find something. What is stored is found up to its time and not
      after it; every other key stays as it was. With GET the reply is the old string or nil, without it OK if
      the value was stored and nil if not. */
  lemma SetMeaning(store: Store, args: seq<bytes>, opts: seq<Opt>, now: nat, key: bytes, later: nat)
    requires |args| >= 2 && Reads(args[2..], opts) && now <= later
    ensures var nx, xx, get, keep := Word("NX") in opts, Word("XX") in opts, Word("GET") in opts, Word("KEEPTTL") in opts;
      var was, due := Found(store, args[0], now), Due(opts, now);
      var refused := (nx && xx) || (keep && GivesTime(opts));
      var stores := !refused && (nx ==> was.None?) && (xx ==> was.Some?);
      var (after, reply) := RunSet(store, args, now);
      && reply == (if refused then Refused
                   else if get then if was.Some? then Data(was.value) else Nil
                   else if stores then Done else Nil)
      && (stores ==> Found(after, args[0], later) == if due == 0 || later <= due then Some(args[1]) else None)
      && (key != args[0] || !stores ==> Found(after, key, later) == Found(store, key, later))
  {
    ReadsParse(args[2..], opts, NO_OPTIONS);
    var o := ParseOptions(args[2..], NO_OPTIONS).value;
    DueIs(o, opts, now);
    GetFinds(store, args[0], now);
    hide ParseOptions, Deadline, Expires, Reads, Due, GivesTime, NumbersBecome, Get;
  }

  /** SET k v NX stores exactly if there is no string under the key, and its reply tells which. */
  lemma SetNx(store: Store, key: bytes, data: bytes, word: bytes, now: nat)
    requires IsWord(word, "NX")
    ensures var (after, reply) := RunSet(store, [key, data, word], now);
      if Found(store, key, now).None? then reply == Done && Found(after, key, now) == Some(data)
      else reply == Nil && Found(after, key, now) == Found(store, key, now)
  {
    OneFlag([key, data, word], "NX");
    SetMeaning(store, [key, data, word], [Word("NX")], now, key, now);
    hide RunSet, Found, Reads;
  }

  /** SET k v XX stores exactly if there is one. */
  lemma SetXx(store: Store, key: bytes, data: bytes, word: bytes, now: nat)
    requires IsWord(word, "XX")
    ensures var (after, reply) := RunSet(store, [key, data, word], now);
      if Found(store, key, now).Some? then reply == Done && Found(after, key, now) == Some(data)
      else reply == Nil && Found(after, key, now) == None
  {
    OneFlag([key, data, word], "XX");
    SetMeaning(store, [key, data, word], [Word("XX")], now, key, now);
    hide RunSet, Found, Reads;
  }

  lemma OneFlag(args: seq<bytes>, w: string)
    requires |args| == 3 && IsFlag(w) && IsWord(args[2], w)
    ensures Reads(args[2..], [Word(w)]) && Due([Word(w)], 0) == 0
    ensures !GivesTime([Word(w)]) && forall now: nat :: Due([Word(w)], now) == 0
  {
    var opts := [Word(w)];
    assert args[2..][1..] == [] && opts[1..] == [];
    assert Given([], "EX") == Given([], "PX") == Given([], "EXAT") == Given([], "PXAT") == None;
    hide IsWord;
  }

  lemma OneNumber(args: seq<bytes>, w: string, n: int)
    requires |args| == 4 && TakesNumber(w) && IsWord(args[2], w) && ParseInt(args[3]) == Some(n)
    ensures Reads(args[2..], [WithNumber(w, n)])
    ensures forall v: string :: Given([WithNumber(w, n)], v) == if v == w then Some(n) else None
  {
    var opts := [WithNumber(w, n)];
    assert args[2..][2..] == [] && opts[1..] == [];
    assert forall v: string :: Given([], v) == None;
    hide IsWord, ParseInt;
  }

  /** SET k v with one number: EX lets the value live for so many seconds, PX for so many milliseconds, EXAT up to
      that second and PXAT up to that millisecond of the epoch. */
  lemma SetForAWhile(store: Store, key: bytes, data: bytes, word: bytes, number: bytes, n: int, now: nat, later: nat)
    requires ParseInt(number) == Some(n) && 0 < n && now <= later && now <= MAX_INT64
    ensures var after := RunSet(store, [key, data, word, number], now).0;
      && (IsWord(word, "EX") && n * 1_000_000_000 <= MAX_INT64 ==>
        Found(after, key, later) == if later <= now + 1000 * n then Some(data) else None)
      && (IsWord(word, "PX") && n * 1_000_000 <= MAX_INT64 ==>
        Found(after, key, later) == if later <= now + n then Some(data) else None)
      && (IsWord(word, "EXAT") && 1000 * n <= MAX_INT64 ==>
        Found(after, key, later) == if later <= 1000 * n then Some(data) else None)
      && (IsWord(word, "PXAT") && n <= MAX_INT64 ==>
        Found(after, key, later) == if later <= n then Some(data) else None)
  {
    var args := [key, data, word, number];
    hide RunSet, Found, Reads, ParseInt, IsWord;
    forall w: string | TakesNumber(w) && IsWord(word, w)
      ensures var after := RunSet(store, args, now).0;
        var due := Due([WithNumber(w, n)], now);
        Found(after, key, later) == if due == 0 || later <= due then Some(data) else None
    {
      OneNumber(args, w, n);
      SetMeaning(store, args, [WithNumber(w, n)], now, key, later);
      hide Due, GivesTime;
    }
    DueOfOne(n, now);
    hide Due;
    assert TakesNumber("EX") && TakesNumber("PX") && TakesNumber("EXAT") && TakesNumber("PXAT");
  }

  lemma DueOfOne(n: int, now: nat)
    requires 0 < n && now <= MAX_INT64
    ensures n * 1_000_000_000 <= MAX_INT64 ==> Due([WithNumber("EX", n)], now) == now + 1000 * n
    ensures n * 1_000_000 <= MAX_INT64 ==> Due([WithNumber("PX", n)], now) == now + n
    ensures 1000 * n <= MAX_INT64 ==> Due([WithNumber("EXAT", n)], now) == 1000 * n
    ensures n <= MAX_INT64 ==> Due([WithNumber("PXAT", n)], now) == n
  {
    GivenOfOne("EX", n);
    GivenOfOne("PX", n);
    GivenOfOne("EXAT", n);
    GivenOfOne("PXAT", n);
    hide Given;
  }

  lemma GivenOfOne(w: string, n: int)
    ensures forall v: string :: Given([WithNumber(w, n)], v) == if v == w then Some(n) else None
  {
    assert [WithNumber(w, n)][1..] == [];
    assert forall v: string :: Given([], v) == None;
  }

  /** EX and PX with a positive number give exactly that lifetime if and only if it fits 64 bits in nanoseconds. */
  lemma ExpiryMeaning(n: int, now: nat)
    requires 0 < n <= MAX_INT64 && now <= MAX_INT64
    ensures Due([WithNumber("EX", n)], now) == now + 1000 * n <==> n * 1_000_000_000 <= MAX_INT64
    ensures Due([WithNumber("PX", n)], now) == now + n <==> n * 1_000_000 <= MAX_INT64
  {
    GivenOfOne("EX", n);
    GivenOfOne("PX", n);
    hide Given;
  }

  /** KEEPTTL does not keep the expiry of a key: what it had stays if and only if it had none. */
  lemma KeepTtlForgets(store: Store, args: seq<bytes>, opts: seq<Opt>, now: nat)
    requires |args| >= 2 && Reads(args[2..], opts) && Word("KEEPTTL") in opts && args[0] in store
    requires !(Word("NX") in opts && Word("XX") in opts) && !GivesTime(opts)
    requires Word("NX") in opts ==> Found(store, args[0], now).None?
    requires Word("XX") in opts ==> Found(store, args[0], now).Some?
    ensures var after := RunSet(store, args, now).0;
      args[0] in after && (after[args[0]].expiry == store[args[0]].expiry <==> store[args[0]].expiry == 0)
  {
    ReadsParse(args[2..], opts, NO_OPTIONS);
    var o := ParseOptions(args[2..], NO_OPTIONS).value;
    DueIs(o, opts, now);
    GetFinds(store, args[0], now);
    hide ParseOptions, Reads, Due, GivesTime, NumbersBecome, Get;
  }

  /** SET never looks at the type of what it replaces: it overwrites a stream unless XX is given, and its
      GET is answered with nil. */
  lemma SetIgnoresType(store: Store, args: seq<bytes>, opts: seq<Opt>, now: nat)
    requires |args| >= 2 && Reads(args[2..], opts)
    requires args[0] in store && !store[args[0]].Str? && !(0 < store[args[0]].expiry < now)
    ensures var (after, reply) := RunSet(store, args, now);
      && (Word("GET") in opts ==> reply == Refused || reply == Nil)
      && (reply != Refused ==> (after == store <==> Word("XX") in opts))
  {
    ReadsParse(args[2..], opts, NO_OPTIONS);
    hide ParseOptions, Deadline, Expires, Reads, NumbersBecome;
  }

  // ---- INCR -----------------------------------------------------------------------------------

  /** INCR stores the decimal of the next number, without an expiry, and replies with it; a key without a string
      counts as 0. */
  lemma IncrMeaning(store: Store, key: bytes, now: nat)
    ensures var found := Found(store, key, now);
      var v := if found.None? then Some(0) else ParseInt(found.value);
      RunIncr(store, [key], now) ==
        if v.None? || v.value == 0x7fff_ffff_ffff_ffff then (Get(store, key, now).0, Refused)
        else (store[key := Str(Format(v.value + 1), 0)], Number(v.value + 1))
  {
    GetFinds(store, key, now);
    GetDeletes(store, key, now);
    hide ParseInt, Format, Get, Found;
    var v := Current(store, key, now);
    if v.Some? {
      var next := Str(Format(v.value + 1), 0);
      assert (store - {key})[key := next] == store[key := next];
    }
  }
}
