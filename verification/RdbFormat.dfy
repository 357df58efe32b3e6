/** The RDB file format: what each piece of a file is written as, what reading gives, and that
    reading undoes writing. */
module RdbFormat {
  import opened Bytes
  import opened Decimal
  import Crc64

  type uint64 = x: int | 0 <= x < 0x1_0000_0000_0000_0000

  const MAX_LENGTH: int := 0x1_0000_0000

  /** A stored value: a string with its expiry time in milliseconds (0 for none), or a value of
      another type, which the saver refuses. */
  datatype Value = Str(data: bytes, expiry: uint64) | Other(expiry: uint64)

  type Store = map<bytes, Value>

  const EOF_MARKER: byte := 0xFF
  const SELECT_DB: byte := 0xFE
  const RESIZE_DB: byte := 0xFB
  const EXPIRY_MS: byte := 0xFC
  const EXPIRY_SECONDS: byte := 0xFD
  const AUXILIARY: byte := 0xFA
  const TYPE_STRING: byte := 0

  /** "REDIS" and "0012" */
  const MAGIC: bytes := [82, 69, 68, 73, 83]
  const HEADER: bytes := [82, 69, 68, 73, 83, 48, 48, 49, 50]

  /** The auxiliary fields: redis-ver (which is to be 7.4.0), redis-bits, ctime, used-mem, aof-base. */
  const REDIS_VER: bytes := [114, 101, 100, 105, 115, 45, 118, 101, 114]
  const REDIS_BITS: bytes := [114, 101, 100, 105, 115, 45, 98, 105, 116, 115]
  const CTIME: bytes := [99, 116, 105, 109, 101]
  const USED_MEM: bytes := [117, 115, 101, 100, 45, 109, 101, 109]
  const VERSION: bytes := [55, 46, 52, 46, 48]
  const AOF_BASE: bytes := [97, 111, 102, 45, 98, 97, 115, 101]

  // ---- Writing --------------------------------------------------------------------------------

  /** The k lowest bytes of n, low byte first. */
  function LittleEndian(n: nat, k: nat): (s: bytes)
    ensures |s| == k
  {
    if k == 0 then [] else [n % 256] + LittleEndian(n / 256, k - 1)
  }

  /** The k lowest bytes of n, high byte first. */
  function BigEndian(n: nat, k: nat): (s: bytes)
    ensures |s| == k
  {
    if k == 0 then [] else BigEndian(n / 256, k - 1) + [n % 256]
  }

  /** 00xxxxxx, or 01xxxxxx xxxxxxxx, or 10000000 and four bytes of the length modulo 2^32. */
  function EncodeLength(n: nat): (s: bytes)
    ensures s != []
  {
    if n <= 0x3F then [n]
    else if n <= 0x3FFF then [n / 256 + 0x40, n % 256]
    else [0x80] + BigEndian(n, 4)
  }

  function EncodeString(s: bytes): bytes {
    EncodeLength(|s|) + s
  }

  /** An auxiliary value: a text (in whose place the saver writes the key once more), or an integer of
      one, two or four bytes in two's complement. */
  datatype AuxValue = Text(value: bytes) | Int8(v: int) | Int16(v: int) | Int32(v: int)

  function EncodeAuxValue(key: bytes, v: AuxValue): bytes {
    match v
    case Text(_) => EncodeString(key)
    case Int8(i) => [0xC0, i % 256]
    case Int16(i) => [0xC1] + LittleEndian(i % 0x1_0000, 2)
    case Int32(i) => [0xC2] + LittleEndian(i % 0x1_0000_0000, 4)
  }

  /** One piece of a file, between the header and the EOF marker. */
  datatype Piece =
    | Aux(key: bytes, value: AuxValue)
    | SelectDb(db: nat)
    | ResizeDb(size: nat, expires: nat)
    | Entry(key: bytes, data: bytes, expiry: uint64)

  function Encode(p: Piece): bytes {
    match p
    case Aux(key, v) => [AUXILIARY] + EncodeString(key) + EncodeAuxValue(key, v)
    case SelectDb(db) => [SELECT_DB] + EncodeLength(db)
    case ResizeDb(size, expires) => [RESIZE_DB] + EncodeLength(size) + EncodeLength(expires)
    case Entry(key, data, expiry) => EncodeExpiry(expiry) + [TYPE_STRING] + EncodeString(key) + EncodeString(data)
  }

  function EncodeExpiry(expiry: uint64): bytes {
    if expiry == 0 then [] else [EXPIRY_MS] + LittleEndian(expiry, 8)
  }

  function EncodeAll(ps: seq<Piece>): bytes {
    if ps == [] then [] else Encode(ps[0]) + EncodeAll(ps[1..])
  }

  function Preamble(ctime: int, size: nat, expires: nat): seq<Piece> {
    [Aux(REDIS_VER, Text(VERSION)), Aux(REDIS_BITS, Int8(64)), Aux(CTIME, Int32(ctime)), Aux(USED_MEM, Int32(0)),
     Aux(AOF_BASE, Int8(0)), SelectDb(0), ResizeDb(size, expires)]
  }

  predicate AllStrings(store: Store) {
    forall k :: k in store ==> store[k].Str?
  }

  function Entries(order: seq<bytes>, store: Store): seq<Piece>
    requires AllStrings(store)
    requires forall i :: 0 <= i < |order| ==> order[i] in store
  {
    seq(|order|, i requires 0 <= i < |order| => Entry(order[i], store[order[i]].data, store[order[i]].expiry))
  }

  /** The file up to and including the EOF marker. */
  function Body(pieces: seq<Piece>): bytes {
    HEADER + EncodeAll(pieces) + [EOF_MARKER]
  }

  /** The whole file: the body and the checksum of the body. */
  function File(pieces: seq<Piece>): bytes {
    Body(pieces) + Crc64.Unpack(Crc64.Digest(Body(pieces)))
  }

  // ---- Reading --------------------------------------------------------------------------------

  datatype Read<+T> = Ok(value: T, rest: bytes) | Failed

  function ReadBytes(s: bytes, n: nat): (r: Read<bytes>)
    ensures r.Ok? ==> |r.value| == n && |r.rest| + n == |s|
  {
    if |s| < n then Failed else Ok(s[..n], s[n..])
  }

  function FromLittleEndian(s: bytes): nat {
    if s == [] then 0 else s[0] + 256 * FromLittleEndian(s[1..])
  }

  function FromBigEndian(s: bytes): nat {
    if s == [] then 0 else 256 * FromBigEndian(s[..|s| - 1]) + s[|s| - 1]
  }

  datatype Length = Plain(n: nat) | Special(format: nat)

  function ReadLength(s: bytes): (r: Read<Length>)
    ensures r.Ok? ==> |r.rest| < |s|
  {
    if s == [] then Failed
    else
      var kind: int, low: int := s[0] / 64, s[0] % 64;
      if kind == 0 then Ok(Plain(low), s[1..])
      else if kind == 1 then
        if |s| < 2 then Failed else Ok(Plain(low * 256 + s[1]), s[2..])
      else if kind == 2 then
        match ReadBytes(s[1..], 4)
        case Failed => Failed
        case Ok(b, rest) => Ok(Plain(FromBigEndian(b)), rest)
      else Ok(Special(low), s[1..])
  }

  /** An integer of k bytes, printed in decimal. */
  function ReadInteger(s: bytes, k: nat): (r: Read<bytes>)
    ensures r.Ok? ==> |r.rest| <= |s|
  {
    match ReadBytes(s, k)
    case Failed => Failed
    case Ok(b, rest) => Ok(Digits(FromLittleEndian(b)), rest)
  }

  /** Compressed strings (format 3) are not part of this model. */
  function ReadString(s: bytes): (r: Read<bytes>)
    ensures r.Ok? ==> |r.rest| < |s|
  {
    match ReadLength(s)
    case Failed => Failed
    case Ok(Plain(n), rest) => ReadBytes(rest, n)
    case Ok(Special(format), rest) =>
      if format == 0 then ReadInteger(rest, 1)
      else if format == 1 then ReadInteger(rest, 2)
      else if format == 2 then ReadInteger(rest, 4)
      else Failed
  }

  /** What one round of the parser's loop finds. */
  datatype Record = AuxField(name: bytes, value: bytes) | Database(db: nat) | Sizes(size: nat) | Found(key: bytes, data: bytes, expiry: uint64)

  predicate IsNumericField(key: bytes) {
    key == CTIME || key == USED_MEM || key == REDIS_BITS
  }

  function ReadAux(s: bytes): (r: Read<Record>)
    ensures r.Ok? ==> |r.rest| < |s|
  {
    match ReadString(s)
    case Failed => Failed
    case Ok(key, rest) =>
      match ReadString(rest)
      case Failed => Failed
      case Ok(value, rest') =>
        if IsNumericField(key) && ParseInt(value).None? then Failed else Ok(AuxField(key, value), rest')
  }

  /** The number that a length carries, whatever its form. */
  function NumberOf(l: Length): nat {
    match l
    case Plain(n) => n
    case Special(n) => n
  }

  function ReadSelectDb(s: bytes): (r: Read<Record>)
    ensures r.Ok? ==> |r.rest| < |s|
  {
    match ReadLength(s)
    case Failed => Failed
    case Ok(db, rest) => Ok(Database(NumberOf(db)), rest)
  }

  function ReadResizeDb(s: bytes): (r: Read<Record>)
    ensures r.Ok? ==> |r.rest| < |s|
  {
    match ReadLength(s)
    case Failed => Failed
    case Ok(size, rest) =>
      match ReadLength(rest)
      case Failed => Failed
      case Ok(_, rest') => Ok(Sizes(NumberOf(size)), rest')
  }

  function ReadObject(objType: byte, s: bytes, expiry: uint64): (r: Read<Record>)
    ensures r.Ok? ==> |r.rest| < |s|
  {
    if objType != TYPE_STRING then Failed
    else
      match ReadString(s)
      case Failed => Failed
      case Ok(key, rest) =>
        match ReadString(rest)
        case Failed => Failed
        case Ok(data, rest') => Ok(Found(key, data, expiry), rest')
  }

  function ReadExpiring(s: bytes, k: nat): (r: Read<Record>)
    requires k <= 8
    ensures r.Ok? ==> |r.rest| < |s|
  {
    match ReadBytes(s, k)
    case Failed => Failed
    case Ok(b, rest) =>
      FromLittleEndianBound(b, k);
      if rest == [] then Failed else ReadObject(rest[0], rest[1..], FromLittleEndian(b))
  }

  lemma FromLittleEndianBound(s: bytes, k: nat)
    requires |s| == k <= 8
    ensures FromLittleEndian(s) < 0x1_0000_0000_0000_0000
  {
    FromLittleEndianPower(s);
    assert Power256(8) == 256 * Power256(7) == 0x1_0000_0000_0000_0000 by {
      assert Power256(2) == 0x1_0000 && Power256(4) == 0x1_0000_0000 && Power256(6) == 0x1_0000_0000_0000;
    }
    PowerMonotone(k, 8);
  }

  function Power256(k: nat): nat {
    if k == 0 then 1 else 256 * Power256(k - 1)
  }

  lemma {:induction false} PowerMonotone(j: nat, k: nat)
    requires j <= k
    ensures Power256(j) <= Power256(k)
  {
    if j < k {
      PowerMonotone(j, k - 1);
    }
  }

  lemma {:induction false} FromLittleEndianPower(s: bytes)
    ensures FromLittleEndian(s) < Power256(|s|)
  {
    if s != [] {
      FromLittleEndianPower(s[1..]);
    }
  }

  /** One round of the loop: the marker byte and what it announces. */
  function ReadRecord(s: bytes): (r: Read<Record>)
    requires s != [] && s[0] != EOF_MARKER
    ensures r.Ok? ==> |r.rest| < |s|
  {
    var marker, rest := s[0], s[1..];
    if marker == AUXILIARY then ReadAux(rest)
    else if marker == SELECT_DB then ReadSelectDb(rest)
    else if marker == RESIZE_DB then ReadResizeDb(rest)
    else if marker == EXPIRY_SECONDS then ReadExpiring(rest, 4)
    else if marker == EXPIRY_MS then ReadExpiring(rest, 8)
    else ReadObject(marker, rest, 0)
  }

  predicate Expired(expiry: uint64, now: nat) {
    0 < expiry < now
  }

  /** The data after a record: an expired entry is dropped, and does not even replace another. */
  function Absorb(store: Store, r: Record, now: nat): Store {
    if r.Found? && !Expired(r.expiry, now) then store[r.key := Str(r.data, r.expiry)] else store
  }

  /** The last eight bytes are the checksum of everything before them. */
  predicate ChecksumHolds(file: bytes) {
    |file| >= 8 && Crc64.Digest(file[..|file| - 8]) == Crc64.Pack(file[|file| - 8..])
  }

  /** The loop over the unread part s of the file, with the data found so far. The end of the
      input is accepted between records. Every round consumes a byte. */
  function ReadRecords(file: bytes, s: bytes, store: Store, now: nat): Option<Store>
    decreases |s|
  {
    if s == [] then Some(store)
    else if s[0] == EOF_MARKER then
      if ChecksumHolds(file) then Some(store) else None
    else
      match ReadRecord(s)
      case Failed => None
      case Ok(r, rest) => ReadRecords(file, rest, Absorb(store, r, now), now)
  }

  /** Parsing a whole file at time `now`: the data, or None for an error. */
  function ParseFile(file: bytes, now: nat): Option<Store> {
    if |file| < 9 || file[..5] != MAGIC then None else ReadRecords(file, file[9..], map[], now)
  }

  // ---- Reading undoes writing -----------------------------------------------------------------

  lemma {:induction false} LittleEndianInverse(n: nat, k: nat)
    requires n < Power256(k)
    ensures FromLittleEndian(LittleEndian(n, k)) == n
  {
    if k > 0 {
      var s := LittleEndian(n, k);
      assert s[1..] == LittleEndian(n / 256, k - 1);
      LittleEndianInverse(n / 256, k - 1);
    }
  }

  lemma {:induction false} BigEndianInverse(n: nat, k: nat)
    requires n < Power256(k)
    ensures FromBigEndian(BigEndian(n, k)) == n
  {
    if k > 0 {
      var s := BigEndian(n, k);
      assert s[..|s| - 1] == BigEndian(n / 256, k - 1);
      BigEndianInverse(n / 256, k - 1);
    }
  }

  lemma Powers()
    ensures Power256(1) == 0x100 && Power256(2) == 0x1_0000 && Power256(4) == 0x1_0000_0000
    ensures Power256(8) == 0x1_0000_0000_0000_0000
  {
    assert Power256(6) == 0x1_0000_0000_0000;
  }

  lemma LengthRoundTrip(n: nat, rest: bytes)
    requires n < MAX_LENGTH
    ensures ReadLength(EncodeLength(n) + rest) == Ok(Plain(n), rest)
  {
    var s := EncodeLength(n) + rest;
    if n <= 0x3F {
      assert s[1..] == rest;
    } else if n <= 0x3FFF {
      assert s[2..] == rest;
    } else {
      Powers();
      BigEndianInverse(n, 4);
      assert s[1..][..4] == BigEndian(n, 4) && s[1..][4..] == rest;
    }
  }

  /** Any length at all is read as some number, and leaves the rest. */
  lemma LengthTotal(n: nat, rest: bytes)
    ensures ReadLength(EncodeLength(n) + rest).Ok? && ReadLength(EncodeLength(n) + rest).rest == rest
  {
    var s := EncodeLength(n) + rest;
    if n <= 0x3F {
      assert s[1..] == rest;
    } else if n <= 0x3FFF {
      assert s[2..] == rest;
    } else {
      assert s[1..][4..] == rest;
    }
  }

  lemma StringRoundTrip(t: bytes, rest: bytes)
    requires |t| < MAX_LENGTH
    ensures ReadString(EncodeString(t) + rest) == Ok(t, rest)
  {
    assert EncodeString(t) + rest == EncodeLength(|t|) + (t + rest);
    LengthRoundTrip(|t|, t + rest);
    hide ReadLength, EncodeLength, EncodeString;
    assert (t + rest)[..|t|] == t && (t + rest)[|t|..] == rest;
  }

  lemma IntegerRoundTrip(format: nat, k: nat, n: nat, rest: bytes)
    requires (format, k) == (0, 1) || (format, k) == (1, 2) || (format, k) == (2, 4)
    requires n < Power256(k)
    ensures ReadString([0xC0 + format] + LittleEndian(n, k) + rest) == Ok(Digits(n), rest)
  {
    var s := [0xC0 + format] + LittleEndian(n, k) + rest;
    var b := LittleEndian(n, k);
    assert s[1..] == b + rest && (b + rest)[..k] == b && (b + rest)[k..] == rest;
    LittleEndianInverse(n, k);
    hide LittleEndian, FromLittleEndian, Digits, Power256;
  }

  /** An auxiliary value reads back as a text, or as the two's complement number in decimal. */
  lemma AuxValueRoundTrip(key: bytes, v: AuxValue, rest: bytes)
    requires |key| < MAX_LENGTH
    ensures ReadString(EncodeAuxValue(key, v) + rest) == Ok(AuxText(key, v), rest)
  {
    Powers();
    hide ReadString, EncodeString, LittleEndian, Power256;
    match v
    case Text(_) => StringRoundTrip(key, rest);
    case Int8(i) =>
      OneByte(i % 256);
      IntegerRoundTrip(0, 1, i % 256, rest);
    case Int16(i) => IntegerRoundTrip(1, 2, i % 0x1_0000, rest);
    case Int32(i) => IntegerRoundTrip(2, 4, i % 0x1_0000_0000, rest);
  }

  /** The value of a text field does not survive: reading gives it back if and only if it happens to be the
      name of the field; under the name of a numeric field the file cannot be read at all. */
  lemma AuxTextLost(key: bytes, value: bytes, rest: bytes)
    requires |key| < MAX_LENGTH
    ensures var r := ReadRecord(Encode(Aux(key, Text(value))) + rest);
      if IsNumericField(key) then r == Failed else r.Ok? && r.rest == rest && (r.value == AuxField(key, value) <==> value == key)
  {
    if IsNumericField(key) {
      NumericTextFails(key, value, rest);
    } else {
      AuxReads(key, Text(value), rest);
    }
    hide *;
  }

  lemma NumericTextFails(key: bytes, value: bytes, rest: bytes)
    requires |key| < MAX_LENGTH && IsNumericField(key)
    ensures ReadRecord(Encode(Aux(key, Text(value))) + rest) == Failed
  {
    NumericBodyFails(key, rest);
    hide *;
    var t := EncodeString(key) + (EncodeString(key) + rest);
    AuxTextBytes(key, value, rest);
    AuxMarker(t);
  }

  lemma AuxTextBytes(key: bytes, value: bytes, rest: bytes)
    ensures Encode(Aux(key, Text(value))) + rest == [AUXILIARY] + (EncodeString(key) + (EncodeString(key) + rest))
  {
    hide EncodeString;
  }

  lemma AuxMarker(t: bytes)
    ensures ReadRecord([AUXILIARY] + t) == ReadAux(t)
  {
    hide ReadAux;
    assert ([AUXILIARY] + t)[1..] == t;
  }

  lemma NumericBodyFails(key: bytes, rest: bytes)
    requires |key| < MAX_LENGTH && IsNumericField(key)
    ensures ReadAux(EncodeString(key) + (EncodeString(key) + rest)) == Failed
  {
    NumericNames();
    assert ParseInt(key).None?;
    hide ReadString, EncodeString, ParseInt, IsNumericField;
    StringRoundTrip(key, EncodeString(key) + rest);
    StringRoundTrip(key, rest);
  }

  lemma NumericNames()
    ensures ParseInt(CTIME).None? && ParseInt(USED_MEM).None? && ParseInt(REDIS_BITS).None?
  {
  }

  /** The version that the saver means to write is read back as something else. */
  lemma VersionLost(rest: bytes)
    ensures ReadRecord(Encode(Aux(REDIS_VER, Text(VERSION))) + rest) == Ok(AuxField(REDIS_VER, REDIS_VER), rest)
    ensures VERSION != REDIS_VER
  {
    AuxReads(REDIS_VER, Text(VERSION), rest);
  }

  lemma OneByte(n: byte)
    ensures LittleEndian(n, 1) == [n] && [0xC0 + 0] + LittleEndian(n, 1) == [0xC0, n]
  {
    assert LittleEndian(n / 256, 0) == [];
  }

  function AuxText(key: bytes, v: AuxValue): bytes {
    match v
    case Text(_) => key
    case Int8(i) => Digits(i % 256)
    case Int16(i) => Digits(i % 0x1_0000)
    case Int32(i) => Digits(i % 0x1_0000_0000)
  }

  /** The pieces that can be read back: lengths below 2^32, and numbers for the numeric fields. */
  predicate Readable(p: Piece) {
    match p
    case Aux(key, v) => |key| < MAX_LENGTH && (IsNumericField(key) ==> !v.Text?)
    case SelectDb(_) => true
    case ResizeDb(_, _) => true
    case Entry(key, data, _) => |key| < MAX_LENGTH && |data| < MAX_LENGTH
  }

  /** What reading a piece must do to the data. */
  function ApplyPiece(store: Store, p: Piece, now: nat): Store {
    if p.Entry? && !Expired(p.expiry, now) then store[p.key := Str(p.data, p.expiry)] else store
  }

  function ApplyPieces(store: Store, ps: seq<Piece>, now: nat): Store
    decreases |ps|
  {
    if ps == [] then store else ApplyPieces(ApplyPiece(store, ps[0], now), ps[1..], now)
  }

  /** The reader is at a piece: it is not at the end, and it reads the piece and what it means. */
  predicate ReadsAs(s: bytes, p: Piece, rest: bytes) {
    s != [] && s[0] != EOF_MARKER && ReadRecord(s).Ok? && ReadRecord(s).rest == rest &&
    var r := ReadRecord(s).value;
    match p
    case Aux(key, v) => r == AuxField(key, AuxText(key, v))
    case SelectDb(_) => r.Database?
    case ResizeDb(_, _) => r.Sizes?
    case Entry(key, data, expiry) => r == Found(key, data, expiry)
  }

  lemma AuxReads(key: bytes, v: AuxValue, rest: bytes)
    requires Readable(Aux(key, v))
    ensures ReadsAs(Encode(Aux(key, v)) + rest, Aux(key, v), rest)
  {
    hide ReadAux, EncodeString, EncodeAuxValue, Readable;
    var s := Encode(Aux(key, v)) + rest;
    var tail := EncodeAuxValue(key, v) + rest;
    assert s == [AUXILIARY] + (EncodeString(key) + tail);
    hide Encode;
    assert s[1..] == EncodeString(key) + tail;
    AuxBodyReads(key, v, rest);
  }

  lemma AuxBodyReads(key: bytes, v: AuxValue, rest: bytes)
    requires Readable(Aux(key, v))
    ensures ReadAux(EncodeString(key) + (EncodeAuxValue(key, v) + rest)) == Ok(AuxField(key, AuxText(key, v)), rest)
  {
    AuxShort(key, v);
    AuxNumber(key, v);
    hide ReadString, EncodeString, EncodeAuxValue, IsNumericField, AuxText, ParseInt, Readable;
    StringRoundTrip(key, EncodeAuxValue(key, v) + rest);
    AuxValueRoundTrip(key, v, rest);
  }

  lemma AuxShort(key: bytes, v: AuxValue)
    requires Readable(Aux(key, v))
    ensures |key| < MAX_LENGTH
  {
  }

  lemma AuxNumber(key: bytes, v: AuxValue)
    requires Readable(Aux(key, v))
    ensures IsNumericField(key) ==> ParseInt(AuxText(key, v)).Some?
  {
    if !v.Text? {
      var n := match v case Text(_) => 0 case Int8(i) => i % 256 case Int16(i) => i % 0x1_0000 case Int32(i) => i % 0x1_0000_0000;
      ParseFormat(n);
    }
  }

  lemma SelectReads(db: nat, rest: bytes)
    ensures ReadsAs(Encode(SelectDb(db)) + rest, SelectDb(db), rest)
  {
    var s := Encode(SelectDb(db)) + rest;
    LengthTotal(db, rest);
    hide ReadLength, EncodeLength;
    assert s[1..] == EncodeLength(db) + rest;
  }

  lemma ResizeReads(size: nat, expires: nat, rest: bytes)
    ensures ReadsAs(Encode(ResizeDb(size, expires)) + rest, ResizeDb(size, expires), rest)
  {
    var s := Encode(ResizeDb(size, expires)) + rest;
    LengthTotal(size, EncodeLength(expires) + rest);
    LengthTotal(expires, rest);
    hide ReadLength, EncodeLength;
    assert s[1..] == EncodeLength(size) + (EncodeLength(expires) + rest);
  }

  lemma ObjectReads(key: bytes, data: bytes, expiry: uint64, rest: bytes)
    requires |key| < MAX_LENGTH && |data| < MAX_LENGTH
    ensures ReadObject(TYPE_STRING, EncodeString(key) + EncodeString(data) + rest, expiry) == Ok(Found(key, data, expiry), rest)
  {
    hide ReadString, EncodeString;
    var tail := EncodeString(data) + rest;
    assert EncodeString(key) + EncodeString(data) + rest == EncodeString(key) + tail;
    StringRoundTrip(key, tail);
    StringRoundTrip(data, rest);
  }

  lemma EntryReads(key: bytes, data: bytes, expiry: uint64, rest: bytes)
    requires Readable(Entry(key, data, expiry))
    ensures ReadsAs(Encode(Entry(key, data, expiry)) + rest, Entry(key, data, expiry), rest)
  {
    ObjectReads(key, data, expiry, rest);
    var entry := EncodeString(key) + EncodeString(data) + rest;
    if expiry == 0 {
      PlainEntryReads(key, data, entry, rest);
    } else {
      Powers();
      LittleEndianInverse(expiry, 8);
      ExpiringEntryReads(key, data, expiry, LittleEndian(expiry, 8), entry, rest);
    }
  }

  lemma PlainEntryReads(key: bytes, data: bytes, entry: bytes, rest: bytes)
    requires entry == EncodeString(key) + EncodeString(data) + rest
    requires ReadObject(TYPE_STRING, entry, 0) == Ok(Found(key, data, 0), rest)
    ensures ReadsAs(Encode(Entry(key, data, 0)) + rest, Entry(key, data, 0), rest)
  {
    hide EncodeString, ReadObject;
    var s := Encode(Entry(key, data, 0)) + rest;
    assert s == [TYPE_STRING] + entry;
    assert s[1..] == entry;
  }

  lemma ExpiringEntryReads(key: bytes, data: bytes, expiry: uint64, b: bytes, entry: bytes, rest: bytes)
    requires expiry > 0 && b == LittleEndian(expiry, 8) && FromLittleEndian(b) == expiry
    requires entry == EncodeString(key) + EncodeString(data) + rest
    requires ReadObject(TYPE_STRING, entry, expiry) == Ok(Found(key, data, expiry), rest)
    ensures ReadsAs(Encode(Entry(key, data, expiry)) + rest, Entry(key, data, expiry), rest)
  {
    hide EncodeString, ReadObject, LittleEndian, FromLittleEndian, ReadExpiring;
    var s := Encode(Entry(key, data, expiry)) + rest;
    var t := b + ([TYPE_STRING] + entry);
    Regroup([EXPIRY_MS] + b, TYPE_STRING, EncodeString(key), EncodeString(data), rest);
    RegroupFront(EXPIRY_MS, b, [TYPE_STRING] + entry);
    assert s == [EXPIRY_MS] + t;
    hide Encode;
    assert s[1..] == t;
    ExpiryReads(b, entry);
  }

  lemma Regroup(e: bytes, marker: byte, k: bytes, d: bytes, rest: bytes)
    ensures e + [marker] + k + d + rest == e + ([marker] + (k + d + rest))
  {
  }

  lemma RegroupFront(marker: byte, b: bytes, rest: bytes)
    ensures [marker] + b + rest == [marker] + (b + rest)
  {
  }

  lemma ExpiryReads(b: bytes, entry: bytes)
    requires |b| == 8
    ensures FromLittleEndian(b) < 0x1_0000_0000_0000_0000
    ensures ReadExpiring(b + ([TYPE_STRING] + entry), 8) == ReadObject(TYPE_STRING, entry, FromLittleEndian(b))
  {
    hide ReadObject, FromLittleEndian;
    FromLittleEndianBound(b, 8);
    var t := b + ([TYPE_STRING] + entry);
    assert t[..8] == b && t[8..] == [TYPE_STRING] + entry;
    assert ([TYPE_STRING] + entry)[1..] == entry;
  }

  /** An entry whose expiry is given in seconds, as the format allows and the saver never writes it. */
  function SecondsEntry(key: bytes, data: bytes, seconds: nat): bytes {
    [0xFD] + LittleEndian(seconds, 4) + [TYPE_STRING] + EncodeString(key) + EncodeString(data)
  }

  /** The parser takes the seconds for milliseconds. */
  lemma SecondsRead(key: bytes, data: bytes, seconds: nat, rest: bytes)
    requires |key| < MAX_LENGTH && |data| < MAX_LENGTH && seconds < MAX_LENGTH
    ensures ReadRecord(SecondsEntry(key, data, seconds) + rest) == Ok(Found(key, data, seconds), rest)
  {
    ObjectReads(key, data, seconds, rest);
    Powers();
    LittleEndianInverse(seconds, 4);
    hide EncodeString, ReadObject, LittleEndian, FromLittleEndian, ReadExpiring;
    var b, entry := LittleEndian(seconds, 4), EncodeString(key) + EncodeString(data) + rest;
    var t := b + ([TYPE_STRING] + entry);
    Regroup([EXPIRY_SECONDS] + b, TYPE_STRING, EncodeString(key), EncodeString(data), rest);
    RegroupFront(EXPIRY_SECONDS, b, [TYPE_STRING] + entry);
    assert SecondsEntry(key, data, seconds) + rest == [EXPIRY_SECONDS] + t;
    hide SecondsEntry;
    assert ([EXPIRY_SECONDS] + t)[1..] == t;
    SecondsExpiryReads(b, entry);
  }

  lemma SecondsExpiryReads(b: bytes, entry: bytes)
    requires |b| == 4
    ensures FromLittleEndian(b) < 0x1_0000_0000_0000_0000
    ensures ReadExpiring(b + ([TYPE_STRING] + entry), 4) == ReadObject(TYPE_STRING, entry, FromLittleEndian(b))
  {
    hide ReadObject, FromLittleEndian;
    FromLittleEndianBound(b, 4);
    var t := b + ([TYPE_STRING] + entry);
    assert t[..4] == b && t[4..] == [TYPE_STRING] + entry;
    assert ([TYPE_STRING] + entry)[1..] == entry;
  }

  /** So such an entry is kept with the expiry that the format means, 1000 * seconds, if and only if it is
      to expire never; any other is dropped once `seconds` milliseconds of the epoch are over. */
  lemma SecondsExpiryMeaning(store: Store, key: bytes, data: bytes, seconds: nat, rest: bytes, now: nat)
    requires |key| < MAX_LENGTH && |data| < MAX_LENGTH && seconds < MAX_LENGTH
    ensures var r := ReadRecord(SecondsEntry(key, data, seconds) + rest);
      && r.Ok? && r.rest == rest
      && (r.value == Found(key, data, 1000 * seconds) <==> seconds == 0)
      && Absorb(store, r.value, now) == if 0 < seconds < now then store else store[key := Str(data, seconds)]
  {
    SecondsRead(key, data, seconds, rest);
    hide ReadRecord, SecondsEntry;
  }

  lemma PieceReads(p: Piece, rest: bytes)
    requires Readable(p)
    ensures ReadsAs(Encode(p) + rest, p, rest)
  {
    hide ReadsAs, Encode;
    match p
    case Aux(key, v) => AuxReads(key, v, rest);
    case SelectDb(db) => SelectReads(db, rest);
    case ResizeDb(size, expires) => ResizeReads(size, expires, rest);
    case Entry(key, data, expiry) => EntryReads(key, data, expiry, rest);
  }

  /** Reading any pieces, whatever follows them, does to the data what the pieces mean. */
  lemma {:induction false} PiecesRead(file: bytes, ps: seq<Piece>, tail: bytes, store: Store, now: nat)
    requires forall i :: 0 <= i < |ps| ==> Readable(ps[i])
    ensures ReadRecords(file, EncodeAll(ps) + tail, store, now) == ReadRecords(file, tail, ApplyPieces(store, ps, now), now)
    decreases |ps|
  {
    hide Encode, Readable, ReadRecord, ChecksumHolds;
    if ps == [] {
      assert EncodeAll(ps) + tail == tail;
    } else {
      var rest := EncodeAll(ps[1..]) + tail;
      assert EncodeAll(ps) + tail == Encode(ps[0]) + rest;
      PieceReads(ps[0], rest);
      PiecesRead(file, ps[1..], tail, ApplyPiece(store, ps[0], now), now);
    }
  }

  lemma ParseHeader(rest: bytes, now: nat)
    ensures ParseFile(HEADER + rest, now) == ReadRecords(HEADER + rest, rest, map[], now)
  {
    assert (HEADER + rest)[9..] == rest && (HEADER + rest)[..5] == MAGIC;
  }

  /** A file cut between two records parses to exactly what the records before the cut hold. */
  lemma CutFile(ps: seq<Piece>, now: nat)
    requires forall i :: 0 <= i < |ps| ==> Readable(ps[i])
    ensures ParseFile(HEADER + EncodeAll(ps), now) == Some(ApplyPieces(map[], ps, now))
  {
    hide Readable, ReadRecord;
    var file := HEADER + EncodeAll(ps);
    ParseHeader(EncodeAll(ps), now);
    PiecesRead(file, ps, [], map[], now);
    assert EncodeAll(ps) + [] == EncodeAll(ps);
  }

  lemma FileChecksum(body: bytes)
    ensures ChecksumHolds(body + Crc64.Unpack(Crc64.Digest(body)))
  {
    hide Crc64.Digest, Crc64.Pack, Crc64.Unpack;
    var sum := Crc64.Unpack(Crc64.Digest(body));
    var file := body + sum;
    assert file[..|file| - 8] == body && file[|file| - 8..] == sum;
    Crc64.PackUnpack(Crc64.Digest(body));
  }

  /** A whole file passes its checksum and parses to what its records hold. */
  lemma WholeFile(ps: seq<Piece>, now: nat)
    requires forall i :: 0 <= i < |ps| ==> Readable(ps[i])
    ensures ParseFile(File(ps), now) == Some(ApplyPieces(map[], ps, now))
  {
    hide Readable, ReadRecord, EncodeAll, Crc64.Unpack, Crc64.Digest, ChecksumHolds;
    var sum := Crc64.Unpack(Crc64.Digest(Body(ps)));
    var tail := [EOF_MARKER] + sum;
    assert File(ps) == HEADER + (EncodeAll(ps) + tail);
    ParseHeader(EncodeAll(ps) + tail, now);
    PiecesRead(File(ps), ps, tail, map[], now);
    FileChecksum(Body(ps));
  }

  // ---- Saving a store -------------------------------------------------------------------------

  /** An order in which every key of the store comes exactly once. */
  predicate Enumerates(order: seq<bytes>, keys: set<bytes>) {
    && (forall i :: 0 <= i < |order| ==> order[i] in keys)
    && (forall k :: k in keys ==> k in order)
    && (forall i, j :: 0 <= i < j < |order| ==> order[i] != order[j])
  }

  /** The entries that have not expired at time `now`. */
  function Unexpired(store: Store, now: nat): Store {
    map k | k in store && !Expired(store[k].expiry, now) :: store[k]
  }

  predicate Short(store: Store) {
    forall k :: k in store ==> |k| < MAX_LENGTH && (store[k].Str? ==> |store[k].data| < MAX_LENGTH)
  }

  function Restrict(store: Store, keys: seq<bytes>): Store {
    map k | k in store && k in keys :: store[k]
  }

  lemma {:induction false} EntriesApply(order: seq<bytes>, store: Store, acc: Store, now: nat)
    requires AllStrings(store) && forall i :: 0 <= i < |order| ==> order[i] in store
    ensures ApplyPieces(acc, Entries(order, store), now) == acc + Unexpired(Restrict(store, order), now)
    decreases |order|
  {
    hide ApplyPiece, Unexpired, Restrict;
    if order == [] {
      UnexpiredNone(store, now);
    } else {
      var k, others := order[0], order[1..];
      var es := Entries(order, store);
      assert es[1..] == Entries(others, store);
      EntriesApply(others, store, ApplyPiece(acc, es[0], now), now);
      UnexpiredCons(order, store, acc, now);
    }
  }

  lemma UnexpiredNone(store: Store, now: nat)
    ensures Unexpired(Restrict(store, []), now) == map[]
  {
  }

  lemma UnexpiredCons(order: seq<bytes>, store: Store, acc: Store, now: nat)
    requires order != [] && order[0] in store && store[order[0]].Str?
    ensures var k, others := order[0], order[1..];
      var e := Entry(k, store[k].data, store[k].expiry);
      ApplyPiece(acc, e, now) + Unexpired(Restrict(store, others), now) == acc + Unexpired(Restrict(store, order), now)
  {
    var k, others := order[0], order[1..];
    assert forall x :: x in order <==> x == k || x in others;
    assert Restrict(store, order) == Restrict(store, others)[k := store[k]];
    hide Restrict;
    UnexpiredUpdate(Restrict(store, others), k, store[k], acc, now);
  }

  lemma UnexpiredUpdate(m: Store, k: bytes, v: Value, acc: Store, now: nat)
    requires v.Str? && (k in m ==> m[k] == v)
    ensures ApplyPiece(acc, Entry(k, v.data, v.expiry), now) + Unexpired(m, now) == acc + Unexpired(m[k := v], now)
  {
  }

  lemma {:induction false} MetaApply(acc: Store, ps: seq<Piece>, qs: seq<Piece>, now: nat)
    requires forall i :: 0 <= i < |ps| ==> !ps[i].Entry?
    ensures ApplyPieces(acc, ps + qs, now) == ApplyPieces(acc, qs, now)
    decreases |ps|
  {
    if ps == [] {
      assert ps + qs == qs;
    } else {
      assert (ps + qs)[1..] == ps[1..] + qs;
      MetaApply(acc, ps[1..], qs, now);
    }
  }

  lemma PreambleReadable(ctime: int, size: nat, expires: nat)
    ensures var ps := Preamble(ctime, size, expires);
      forall i :: 0 <= i < |ps| ==> Readable(ps[i]) && !ps[i].Entry?
  {
  }

  /** Whatever order the saver visits the keys in, the file it writes parses to exactly the
      entries that have not expired by then. */
  lemma SavedFileParses(order: seq<bytes>, store: Store, ctime: int, size: nat, expires: nat, now: nat)
    requires AllStrings(store) && Short(store) && Enumerates(order, store.Keys)
    ensures ParseFile(File(Preamble(ctime, size, expires) + Entries(order, store)), now) == Some(Unexpired(store, now))
  {
    hide File, ParseFile, ApplyPieces;
    var pre, es := Preamble(ctime, size, expires), Entries(order, store);
    PreambleReadable(ctime, size, expires);
    assert forall i :: 0 <= i < |es| ==> Readable(es[i]);
    hide Readable, Preamble, Entries;
    WholeFile(pre + es, now);
    MetaApply(map[], pre, es, now);
    EntriesApply(order, store, map[], now);
    assert Restrict(store, order) == store;
    assert map[] + Unexpired(store, now) == Unexpired(store, now);
  }

  /** A saved file cut after any number of entries parses to the unexpired ones before the cut. */
  lemma CutSavedFileParses(order: seq<bytes>, store: Store, ctime: int, size: nat, expires: nat, now: nat, n: nat)
    requires AllStrings(store) && Short(store) && Enumerates(order, store.Keys) && n <= |order|
    ensures ParseFile(HEADER + EncodeAll(Preamble(ctime, size, expires) + Entries(order, store)[..n]), now)
         == Some(Unexpired(Restrict(store, order[..n]), now))
  {
    hide ParseFile, ApplyPieces, EncodeAll;
    var pre, es := Preamble(ctime, size, expires), Entries(order[..n], store);
    assert Entries(order, store)[..n] == es;
    PreambleReadable(ctime, size, expires);
    assert forall i :: 0 <= i < |es| ==> Readable(es[i]);
    hide Readable, Preamble, Entries;
    CutFile(pre + es, now);
    MetaApply(map[], pre, es, now);
    EntriesApply(order[..n], store, map[], now);
    assert map[] + Unexpired(Restrict(store, order[..n]), now) == Unexpired(Restrict(store, order[..n]), now);
  }

  /** A file whose checksum holds no longer passes the check after a change that stays inside
      eight consecutive bytes of the part the checksum covers. */
  lemma CorruptionDetected(before: bytes, u: bytes, v: bytes, after: bytes, sum: bytes)
    requires |u| == |v| <= 8 && u != v && |sum| == 8
    requires ChecksumHolds(before + u + after + sum)
    ensures !ChecksumHolds(before + v + after + sum)
  {
    hide Crc64.Digest, Crc64.Pack;
    var f, g := before + u + after + sum, before + v + after + sum;
    assert f[..|f| - 8] == before + u + after && f[|f| - 8..] == sum;
    assert g[..|g| - 8] == before + v + after && g[|g| - 8..] == sum;
    Crc64.BurstDetected(before, u, v, after);
  }
}
