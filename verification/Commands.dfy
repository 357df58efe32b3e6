/** The commands that read and write the store: what each does to the data, and what it replies. */
module Commands {
  import opened Bytes
  import opened Decimal
  import opened RdbFormat

  // The registered command names, and one that counts as a write without being registered.
  const ECHO_NAME: bytes := [101, 99, 104, 111]
  const PING_NAME: bytes := [112, 105, 110, 103]
  const SET_NAME: bytes := [115, 101, 116]
  const GET_NAME: bytes := [103, 101, 116]
  const HELLO_NAME: bytes := [104, 101, 108, 108, 111]
  const INFO_NAME: bytes := [105, 110, 102, 111]
  const CLIENT_NAME: bytes := [99, 108, 105, 101, 110, 116]
  const CONFIG_NAME: bytes := [99, 111, 110, 102, 105, 103]
  const KEYS_NAME: bytes := [107, 101, 121, 115]
  const TYPE_NAME: bytes := [116, 121, 112, 101]
  const XADD_NAME: bytes := [120, 97, 100, 100]
  const XRANGE_NAME: bytes := [120, 114, 97, 110, 103, 101]
  const XREAD_NAME: bytes := [120, 114, 101, 97, 100]
  const REPLCONF_NAME: bytes := [114, 101, 112, 108, 99, 111, 110, 102]
  const PSYNC_NAME: bytes := [112, 115, 121, 110, 99]
  const SAVE_NAME: bytes := [115, 97, 118, 101]
  const WAIT_NAME: bytes := [119, 97, 105, 116]
  const INCR_NAME: bytes := [105, 110, 99, 114]
  const MULTI_NAME: bytes := [109, 117, 108, 116, 105]
  const DISCARD_NAME: bytes := [100, 105, 115, 99, 97, 114, 100]
  const EXEC_NAME: bytes := [101, 120, 101, 99]
  const DEL_NAME: bytes := [100, 101, 108]

  const REGISTERED: set<bytes> := {
    ECHO_NAME, PING_NAME, SET_NAME, GET_NAME, HELLO_NAME, INFO_NAME, CLIENT_NAME, CONFIG_NAME,
    KEYS_NAME, TYPE_NAME, XADD_NAME, XRANGE_NAME, XREAD_NAME, REPLCONF_NAME, PSYNC_NAME, SAVE_NAME,
    WAIT_NAME, INCR_NAME, MULTI_NAME, DISCARD_NAME, EXEC_NAME
  }

  const WRITEABLE: set<bytes> := {SET_NAME, DEL_NAME, INCR_NAME}

  // Option words.
  const NX: bytes := [78, 88]
  const XX: bytes := [88, 88]
  const GET: bytes := [71, 69, 84]
  const KEEPTTL: bytes := [75, 69, 69, 80, 84, 84, 76]
  const EX: bytes := [69, 88]
  const PX: bytes := [80, 88]
  const EXAT: bytes := [69, 88, 65, 84]
  const PXAT: bytes := [80, 88, 65, 84]
  const NOMKSTREAM: bytes := [78, 79, 77, 75, 83, 84, 82, 69, 65, 77]
  const MAXLEN: bytes := [77, 65, 88, 76, 69, 78]
  const MINID: bytes := [77, 73, 78, 73, 68]
  const LIMIT: bytes := [76, 73, 77, 73, 84]

  function LowerByte(b: byte): byte {
    if 65 <= b <= 90 then b + 32 else b
  }

  function UpperByte(b: byte): byte {
    if 97 <= b <= 122 then b - 32 else b
  }

  function Lower(s: bytes): (r: bytes)
    ensures |r| == |s|
  {
    seq(|s|, i requires 0 <= i < |s| => LowerByte(s[i]))
  }

  function Upper(s: bytes): (r: bytes)
    ensures |r| == |s|
  {
    seq(|s|, i requires 0 <= i < |s| => UpperByte(s[i]))
  }

  /** What a command answers. `Aborted` is an error that `Execute` returns, `Refused` one that it has
      already written as its reply. */
  datatype Reply = Done | Nil | Data(data: bytes) | Number(i: int) | Refused | Aborted

  // ---- The store ------------------------------------------------------------------------------

  /** `kv.Get`: an expired key is deleted on the way; only strings are found. */
  function Get(store: Store, key: bytes, now: nat): (Store, Option<bytes>) {
    if key in store && Expired(store[key].expiry, now) then (store - {key}, None)
    else (store, if key in store && store[key].Str? then Some(store[key].data) else None)
  }

  /** `kv.Set`: any earlier value and expiry are gone. */
  function Put(store: Store, key: bytes, data: bytes): Store {
    store[key := Str(data, 0)]
  }

  // ---- SET ------------------------------------------------------------------------------------

  /** The options of SET: what EX and PX give in nanoseconds, what EXAT and PXAT give in seconds and in
      milliseconds, where the zero time stands for none. */
  datatype SetOptions = SetOptions(nx: bool, xx: bool, get: bool, keepTtl: bool, ex: int, px: int, exAt: int, pxAt: int)

  // The first of January of the year 1.
  const ZERO_TIME: int := -62_135_596_800

  const NO_OPTIONS := SetOptions(false, false, false, false, 0, 0, ZERO_TIME, 1000 * ZERO_TIME)

  const NANOS_PER_SECOND: int := 1_000_000_000
  const NANOS_PER_MILLI: int := 1_000_000

  /** An `int64` product wraps around. */
  function Wrap(i: int): (w: int)
    ensures MIN_INT64 <= w <= MAX_INT64
    ensures MIN_INT64 <= i <= MAX_INT64 ==> w == i
  {
    (i - MIN_INT64) % 0x1_0000_0000_0000_0000 + MIN_INT64
  }

  /** An option that takes a number. */
  function Timed(word: bytes, amount: int, o: SetOptions): SetOptions {
    if word == EX then o.(ex := Wrap(amount * NANOS_PER_SECOND))
    else if word == PX then o.(px := Wrap(amount * NANOS_PER_MILLI))
    else if word == EXAT then o.(exAt := amount)
    else o.(pxAt := amount)
  }

  function ParseOptions(args: seq<bytes>, o: SetOptions): Option<SetOptions>
    decreases |args|
  {
    if args == [] then Some(o)
    else
      var word := Upper(args[0]);
      if word == NX then ParseOptions(args[1..], o.(nx := true))
      else if word == XX then ParseOptions(args[1..], o.(xx := true))
      else if word == GET then ParseOptions(args[1..], o.(get := true))
      else if word == KEEPTTL then ParseOptions(args[1..], o.(keepTtl := true))
      else if word == EX || word == PX || word == EXAT || word == PXAT then
        if |args| < 2 || ParseInt(args[1]).None? then None
        else ParseOptions(args[2..], Timed(word, ParseInt(args[1]).value, o))
      else None
  }

  /** The options ask for an expiry. */
  predicate Expires(o: SetOptions) {
    o.ex > 0 || o.px > 0 || o.exAt != ZERO_TIME || o.pxAt != 1000 * ZERO_TIME
  }

  /** The time in milliseconds that a SET at the given time lets a key live to; 0 if for ever. EX goes
      before PX, PX before EXAT, and EXAT before PXAT. */
  function Deadline(o: SetOptions, now: nat): uint64 {
    (if o.ex > 0 then now + o.ex / NANOS_PER_MILLI
     else if o.px > 0 then now + o.px / NANOS_PER_MILLI
     else if o.exAt != ZERO_TIME then o.exAt * 1000
     else if o.pxAt != 1000 * ZERO_TIME then o.pxAt
     else 0) % 0x1_0000_0000_0000_0000
  }

  /** The arguments give no expiry. */
  predicate Timeless(args: seq<bytes>) {
    |args| < 2 || ParseOptions(args[2..], NO_OPTIONS).None? || !Expires(ParseOptions(args[2..], NO_OPTIONS).value)
  }

  /** SET refuses options that exclude each other. */
  predicate Clash(o: SetOptions) {
    (o.nx && o.xx) || (o.keepTtl && Expires(o))
  }

  function RunSet(store: Store, args: seq<bytes>, now: nat): (Store, Reply) {
    if |args| < 2 then (store, Refused)
    else
      match ParseOptions(args[2..], NO_OPTIONS)
      case None => (store, Aborted)
      case Some(o) =>
        if Clash(o) then (store, Refused)
        else
          var (seen, was) := if o.get || o.nx || o.xx then Get(store, args[0], now) else (store, None);
          if o.nx && was.Some? then (seen, if o.get then Data(was.value) else Nil)
          else if o.xx && was.None? then (seen, Nil)
          else
            (seen[args[0] := Str(args[1], Deadline(o, now))], if !o.get then Done else if was.Some? then Data(was.value) else Nil)
  }

  // ---- INCR -----------------------------------------------------------------------------------

  function RunIncr(store: Store, args: seq<bytes>, now: nat): (Store, Reply) {
    if |args| != 1 then (store, Refused)
    else
      var (seen, was) := Get(store, args[0], now);
      var current := if was.None? then Some(0) else ParseInt(was.value);
      if current.None? || current.value == MAX_INT64 then (seen, Refused)
      else (Put(seen, args[0], Format(current.value + 1)), Number(current.value + 1))
  }

  // ---- GET and XADD ---------------------------------------------------------------------------

  function RunGet(store: Store, args: seq<bytes>, now: nat): (Store, Reply) {
    if |args| != 1 then (store, Aborted)
    else
      var (seen, was) := Get(store, args[0], now);
      (seen, if was.None? then Nil else Data(was.value))
  }

  datatype XAddOptions = XAddOptions(noMkStream: bool, maxLen: int, minId: bytes, id: bytes, fields: seq<seq<bytes>>)

  /** The options of XADD; None also where the source reads past its last argument and stops. */
  function ParseXAdd(args: seq<bytes>, x: XAddOptions): Option<XAddOptions>
    decreases |args|
  {
    if args == [] then if x.id == [] || x.fields == [] then None else Some(x)
    else
      var word := Upper(args[0]);
      if word == NOMKSTREAM then ParseXAdd(args[1..], x.(noMkStream := true))
      else if word == MAXLEN || word == MINID then
        var rest := if |args| > 1 && args[1] == [61] then args[2..] else args[1..];
        if |args| > 1 && args[1] == [126] then None
        else if |rest| < 2 || (word == MAXLEN && ParseInt(rest[0]).None?) || Upper(rest[1]) == LIMIT then None
        else if word == MAXLEN then ParseXAdd(rest[1..], x.(maxLen := ParseInt(rest[0]).value))
        else ParseXAdd(rest[1..], x.(minId := rest[0]))
      else if x.id == [] then ParseXAdd(args[1..], x.(id := args[0]))
      else if |args| < 2 then None
      else ParseXAdd(args[2..], x.(fields := x.fields + [[args[0], args[1]]]))
  }

  /** Of XADD only what it does to the keys of the store: a stream comes into being. */
  function RunXAdd(store: Store, args: seq<bytes>): (Store, Reply) {
    if |args| <= 3 then (store, Refused)
    else
      match ParseXAdd(args[1..], XAddOptions(false, 0, [], [], []))
      case None => (store, Refused)
      case Some(x) =>
        if args[0] in store then (store, if store[args[0]].Str? then Refused else Done)
        else if x.noMkStream then (store, Nil)
        else (store[args[0] := Other(0)], Done)
  }

  // ---- All commands ---------------------------------------------------------------------------

  /** A command as the client link delivers it: an array of bulk strings, not empty. REPLCONF and PSYNC
      come from replicas only, where they are steps of their own. */
  predicate Modelled(c: seq<bytes>) {
    c != [] && Lower(c[0]) != REPLCONF_NAME && Lower(c[0]) != PSYNC_NAME
  }

  type Command = c: seq<bytes> | Modelled(c) witness [[]]

  function Name(c: Command): bytes {
    Lower(c[0])
  }

  /** The command gives no key an expiry. */
  predicate SetsNoExpiry(c: Command) {
    Name(c) == SET_NAME ==> Timeless(c[1..])
  }

  /** What executing a command does to the data. Commands that are not listed leave it alone. */
  function Execute(store: Store, c: Command, now: nat): (Store, Reply) {
    if Name(c) == SET_NAME then RunSet(store, c[1..], now)
    else if Name(c) == INCR_NAME then RunIncr(store, c[1..], now)
    else if Name(c) == GET_NAME then RunGet(store, c[1..], now)
    else if Name(c) == XADD_NAME then RunXAdd(store, c[1..])
    else (store, Done)
  }

  // ---- Strings --------------------------------------------------------------------------------

  /** The string-valued keys. */
  function Strings(store: Store): map<bytes, bytes> {
    map k | k in store && store[k].Str? :: store[k].data
  }

  predicate NoExpiry(store: Store) {
    forall k :: k in store ==> store[k].expiry == 0
  }

  lemma GetWithoutExpiry(store: Store, key: bytes, now: nat)
    requires NoExpiry(store)
    ensures Get(store, key, now) == (store, if key in Strings(store) then Some(Strings(store)[key]) else None)
  {
  }

  lemma PutStrings(store: Store, key: bytes, data: bytes)
    ensures Strings(Put(store, key, data)) == Strings(store)[key := data]
    ensures NoExpiry(store) ==> NoExpiry(Put(store, key, data))
  {
  }

  /** Two stores after the same write. */
  predicate Alike(a: Store, b: Store) {
    NoExpiry(a) && NoExpiry(b) && Strings(a) == Strings(b)
  }

  lemma SetAlike(a: Store, b: Store, args: seq<bytes>, m: nat, n: nat)
    requires Alike(a, b) && Timeless(args)
    ensures Alike(RunSet(a, args, m).0, RunSet(b, args, n).0) && RunSet(a, args, m).1 == RunSet(b, args, n).1
  {
    if |args| >= 2 {
      GetWithoutExpiry(a, args[0], m);
      GetWithoutExpiry(b, args[0], n);
      PutStrings(a, args[0], args[1]);
      PutStrings(b, args[0], args[1]);
      hide Strings, Get, Put, NoExpiry;
    }
  }

  lemma IncrAlike(a: Store, b: Store, args: seq<bytes>, m: nat, n: nat)
    requires Alike(a, b)
    ensures Alike(RunIncr(a, args, m).0, RunIncr(b, args, n).0) && RunIncr(a, args, m).1 == RunIncr(b, args, n).1
  {
    if |args| == 1 {
      GetWithoutExpiry(a, args[0], m);
      GetWithoutExpiry(b, args[0], n);
      var was := Get(a, args[0], m).1;
      var current := if was.None? then Some(0) else ParseInt(was.value);
      if current.Some? {
        PutStrings(a, args[0], Format(current.value + 1));
        PutStrings(b, args[0], Format(current.value + 1));
      }
      hide Strings, Get, Put, NoExpiry;
    }
  }

  /** A write sees and changes the strings only: stores with the same strings answer it alike and
      still have the same strings afterwards, whatever streams they hold and whatever the time. */
  lemma WritesAlike(a: Store, b: Store, c: Command, m: nat, n: nat)
    requires Alike(a, b) && Name(c) in WRITEABLE && SetsNoExpiry(c)
    ensures Alike(Execute(a, c, m).0, Execute(b, c, n).0) && Execute(a, c, m).1 == Execute(b, c, n).1
  {
    hide Alike, RunSet, RunIncr;
    if Name(c) == SET_NAME {
      SetAlike(a, b, c[1..], m, n);
    } else if Name(c) == INCR_NAME {
      IncrAlike(a, b, c[1..], m, n);
    }
  }

  /** Everything else leaves the strings alone. */
  lemma OthersKeepStrings(store: Store, c: Command, now: nat)
    requires NoExpiry(store) && Name(c) !in WRITEABLE
    ensures NoExpiry(Execute(store, c, now).0) && Strings(Execute(store, c, now).0) == Strings(store)
  {
    hide ParseXAdd;
  }

  /** Without expiries no string ever goes away. */
  lemma StringsStay(store: Store, c: Command, now: nat)
    requires NoExpiry(store) && SetsNoExpiry(c)
    ensures NoExpiry(Execute(store, c, now).0) && Strings(store).Keys <= Strings(Execute(store, c, now).0).Keys
    ensures store.Keys <= Execute(store, c, now).0.Keys
  {
    if Name(c) == SET_NAME {
      hide ParseOptions;
    } else {
      hide ParseXAdd, ParseInt, Format, RunSet;
    }
  }

  // ---- Runs of INCR ---------------------------------------------------------------------------

  /** The number a key holds: 0 if it holds no string, nothing if the string is no number. */
  function Current(store: Store, key: bytes, now: nat): Option<int> {
    match Get(store, key, now).1
    case None => Some(0)
    case Some(data) => ParseInt(data)
  }

  /** INCR on one key at the given times: the store afterwards and the replies. */
  function RunIncrs(store: Store, key: bytes, times: seq<nat>): (Store, seq<Reply>)
    decreases |times|
  {
    if times == [] then (store, [])
    else
      var (next, reply) := RunIncr(store, [key], times[0]);
      var (last, replies) := RunIncrs(next, key, times[1..]);
      (last, [reply] + replies)
  }

  function Upto(v: int, n: nat): seq<Reply> {
    seq(n, i requires 0 <= i => Number(v + 1 + i))
  }

  lemma FormatCurrent(store: Store, key: bytes, i: int, now: nat)
    requires MIN_INT64 <= i <= MAX_INT64
    ensures Current(Put(store, key, Format(i)), key, now) == Some(i)
  {
    ParseFormat(i);
  }

  /** n INCRs on a key that holds v answer v + 1 to v + n, and leave the canonical decimal of v + n
      under the key and everything else as it was. */
  lemma {:induction false} IncrRun(store: Store, key: bytes, times: seq<nat>, v: int)
    requires times != [] && Current(store, key, times[0]) == Some(v)
    requires MIN_INT64 <= v && v + |times| <= MAX_INT64
    ensures RunIncrs(store, key, times) == (Put(store, key, Format(v + |times|)), Upto(v, |times|))
    decreases |times|
  {
    hide Format, ParseInt;
    var next := RunIncr(store, [key], times[0]).0;
    assert next == Put(store, key, Format(v + 1));
    if |times| == 1 {
      assert RunIncrs(next, key, times[1..]) == (next, []);
    } else {
      FormatCurrent(store, key, v + 1, times[1]);
      IncrRun(next, key, times[1..], v + 1);
      assert Put(next, key, Format(v + |times|)) == Put(store, key, Format(v + |times|));
    }
    assert Upto(v, |times|) == [Number(v + 1)] + Upto(v + 1, |times| - 1);
  }

  /** INCR fails exactly on a string that is no 64-bit integer and at the largest one, and then it
      changes nothing; any number of arguments but one is refused as well. */
  lemma IncrFails(store: Store, key: bytes, now: nat)
    ensures forall args: seq<bytes> :: |args| != 1 ==> RunIncr(store, args, now) == (store, Refused)
    ensures RunIncr(store, [key], now).1.Refused? <==> Current(store, key, now) == None || Current(store, key, now) == Some(MAX_INT64)
    ensures RunIncr(store, [key], now).1.Refused? ==> RunIncr(store, [key], now).0 == store
  {
    hide ParseInt, Format;
  }
}
