/** The bytes of a snapshot file, in numbers: what the saver writes, and what the parser takes them for. */
module RdbBytes {
  import opened Bytes
  import opened Decimal
  import opened RdbFormat
  import Crc64
  import Crc64Table

  // ---- Numbers of several bytes ---------------------------------------------------------------

  /** The number in eight bytes, low byte first. */
  function Number8(b: bytes): nat
    requires |b| == 8
  {
    b[0] as int + 0x100 * (b[1] as int) + 0x1_0000 * (b[2] as int) + 0x100_0000 * (b[3] as int)
    + 0x1_0000_0000 * (b[4] as int) + 0x100_0000_0000 * (b[5] as int)
    + 0x1_0000_0000_0000 * (b[6] as int) + 0x100_0000_0000_0000 * (b[7] as int)
  }

  /** The number in four bytes, low byte first. */
  function Number4(b: bytes): nat
    requires |b| == 4
  {
    b[0] as int + 0x100 * (b[1] as int) + 0x1_0000 * (b[2] as int) + 0x100_0000 * (b[3] as int)
  }

  lemma LowFirst(b: bytes)
    requires b != []
    ensures FromLittleEndian(b) == b[0] as int + 0x100 * FromLittleEndian(b[1..])
  {
  }

  lemma FourBytes(b: bytes)
    requires |b| == 4
    ensures FromLittleEndian(b) == Number4(b)
  {
    LowFirst(b);
    LowFirst(b[1..]);
    LowFirst(b[2..]);
    LowFirst(b[3..]);
    assert b[1..][1..] == b[2..] && b[2..][1..] == b[3..] && b[3..][1..] == [];
  }

  lemma EightBytes(b: bytes)
    requires |b| == 8
    ensures FromLittleEndian(b) == Number8(b) < 0x1_0000_0000_0000_0000
  {
    LowFirst(b);
    LowFirst(b[1..]);
    LowFirst(b[2..]);
    LowFirst(b[3..]);
    assert b[1..][1..] == b[2..] && b[2..][1..] == b[3..] && b[3..][1..] == b[4..];
    FourBytes(b[4..]);
    hide FromLittleEndian;
  }

  // ---- Lengths and strings --------------------------------------------------------------------

  /** A length is written in one byte, in two with the upper one from 0x40 on, or as 0x80 and four bytes from the
      high one down. */
  lemma LengthBytes(n: nat)
    requires n < 0x1_0000_0000
    ensures EncodeLength(n) ==
      if n < 64 then [n]
      else if n < 16384 then [0x40 + n / 0x100, n % 0x100]
      else [0x80, n / 0x100_0000, n / 0x1_0000 % 0x100, n / 0x100 % 0x100, n % 0x100]
  {
    if n >= 16384 {
      assert n / 0x100 / 0x100 == n / 0x1_0000 && n / 0x1_0000 / 0x100 == n / 0x100_0000;
      assert BigEndian(n / 0x100_0000, 1) == BigEndian(n / 0x100_0000 / 256, 0) + [n / 0x100_0000 % 256] == [n / 0x100_0000];
      assert BigEndian(n / 0x1_0000, 2) == [n / 0x100_0000] + [n / 0x1_0000 % 0x100];
      assert BigEndian(n / 0x100, 3) == [n / 0x100_0000] + [n / 0x1_0000 % 0x100] + [n / 0x100 % 0x100];
      assert BigEndian(n, 4) == [n / 0x100_0000] + [n / 0x1_0000 % 0x100] + [n / 0x100 % 0x100] + [n % 0x100];
    }
  }

  /** The parser tells four forms apart by the two upper bits of the first byte. */
  lemma LengthRead(a: byte, b: byte, rest: bytes)
    ensures a < 64 ==> ReadLength([a] + rest) == Ok(Plain(a), rest)
    ensures 64 <= a < 128 ==> ReadLength([a, b] + rest) == Ok(Plain(0x100 * (a as int - 64) + b as int), rest)
    ensures 192 <= a ==> ReadLength([a] + rest) == Ok(Special(a - 192), rest)
  {
    assert ([a] + rest)[1..] == rest && ([a, b] + rest)[2..] == rest;
  }

  lemma LongLengthRead(a: byte, b: bytes, rest: bytes)
    requires 128 <= a < 192 && |b| == 4
    ensures ReadLength([a] + b + rest) ==
      Ok(Plain(0x100_0000 * (b[0] as int) + 0x1_0000 * (b[1] as int) + 0x100 * (b[2] as int) + b[3] as int), rest)
  {
    var s := [a] + b + rest;
    assert s[1..] == b + rest && (b + rest)[..4] == b && (b + rest)[4..] == rest;
    assert b[..3][..2] == b[..2] && b[..2][..1] == b[..1] && b[..1][..0] == [];
    assert FromBigEndian(b[..1]) == b[0];
    assert FromBigEndian(b[..2]) == 0x100 * (b[0] as int) + b[1] as int;
    assert FromBigEndian(b[..3]) == 0x1_0000 * (b[0] as int) + 0x100 * (b[1] as int) + b[2] as int;
  }

  /** A string is its length and its bytes; an integer of one, two or four bytes, low byte first, is read as its
      decimal digits. */
  lemma StringBytes(s: bytes, b: bytes, rest: bytes)
    ensures EncodeString(s) == EncodeLength(|s|) + s
    ensures |b| == 1 ==> ReadString([0xC0] + b + rest) == Ok(Digits(b[0]), rest)
    ensures |b| == 2 ==> ReadString([0xC1] + b + rest) == Ok(Digits(b[0] as int + 0x100 * (b[1] as int)), rest)
    ensures |b| == 4 ==> ReadString([0xC2] + b + rest) == Ok(Digits(Number4(b)), rest)
  {
    hide *;
    EncodedString(s);
    IntegerMarkers(b + rest);
    IntegerBytes(b, rest);
    assert forall a: byte :: [a] + b + rest == [a] + (b + rest);
  }

  lemma EncodedString(s: bytes)
    ensures EncodeString(s) == EncodeLength(|s|) + s
  {
    hide EncodeLength;
  }

  lemma IntegerMarkers(t: bytes)
    ensures ReadString([0xC0] + t) == ReadInteger(t, 1) && ReadString([0xC1] + t) == ReadInteger(t, 2) && ReadString([0xC2] + t) == ReadInteger(t, 4)
  {
    LengthRead(0xC0, 0, t);
    LengthRead(0xC1, 0, t);
    LengthRead(0xC2, 0, t);
    hide ReadLength, ReadInteger;
  }

  lemma IntegerBytes(b: bytes, rest: bytes)
    ensures |b| == 1 ==> ReadInteger(b + rest, 1) == Ok(Digits(b[0]), rest)
    ensures |b| == 2 ==> ReadInteger(b + rest, 2) == Ok(Digits(b[0] as int + 0x100 * (b[1] as int)), rest)
    ensures |b| == 4 ==> ReadInteger(b + rest, 4) == Ok(Digits(Number4(b)), rest)
  {
    assert (b + rest)[..|b|] == b && (b + rest)[|b|..] == rest;
    if |b| == 1 {
      LowFirst(b);
      assert b[1..] == [];
    } else if |b| == 2 {
      LowFirst(b);
      LowFirst(b[1..]);
      assert b[1..][1..] == [];
    } else if |b| == 4 {
      FourBytes(b);
    }
    hide Digits, Number4;
  }

  // ---- What is written ------------------------------------------------------------------------

  /** An entry: 0xFC and eight bytes if it has an expiry, then the type 0, the key and the value. */
  lemma EntryBytes(key: bytes, data: bytes, expiry: uint64)
    ensures expiry == 0 ==> Encode(Entry(key, data, expiry)) == [0] + EncodeString(key) + EncodeString(data)
    ensures expiry > 0 ==> exists b: bytes ::
      |b| == 8 && Number8(b) == expiry && Encode(Entry(key, data, expiry)) == [0xFC] + b + [0] + EncodeString(key) + EncodeString(data)
  {
    hide EncodeString, LittleEndian;
    if expiry > 0 {
      Powers();
      LittleEndianInverse(expiry, 8);
      EightBytes(LittleEndian(expiry, 8));
    } else {
      assert [] + [TYPE_STRING] == [0];
    }
  }

  /** The other pieces: 0xFA and two strings, or a string and an integer; 0xFE and a number; 0xFB and two. */
  lemma PieceBytes(key: bytes, value: bytes, i: int, m: nat, n: nat)
    ensures Encode(Aux(key, Text(value))) == [0xFA] + EncodeString(key) + EncodeString(key)
    ensures Encode(Aux(key, Int8(i))) == [0xFA] + EncodeString(key) + [0xC0, i % 0x100]
    ensures exists b: bytes :: |b| == 4 && Number4(b) == i % 0x1_0000_0000 && Encode(Aux(key, Int32(i))) == [0xFA] + EncodeString(key) + ([0xC2] + b)
    ensures Encode(SelectDb(m)) == [0xFE] + EncodeLength(m)
    ensures Encode(ResizeDb(m, n)) == [0xFB] + EncodeLength(m) + EncodeLength(n)
  {
    var k := i % 0x1_0000_0000;
    Powers();
    LittleEndianInverse(k, 4);
    FourBytes(LittleEndian(k, 4));
    hide EncodeString, EncodeLength, LittleEndian, FromLittleEndian, Number4;
  }

  /** The preamble: five auxiliary fields, database 0, and the numbers of keys and of expiring keys. */
  lemma PreambleBytes(ctime: int, size: nat, expires: nat)
    ensures Preamble(ctime, size, expires) == [
      Aux(Ascii("redis-ver"), Text(Ascii("7.4.0"))), Aux(Ascii("redis-bits"), Int8(64)), Aux(Ascii("ctime"), Int32(ctime)),
      Aux(Ascii("used-mem"), Int32(0)), Aux(Ascii("aof-base"), Int8(0)), SelectDb(0), ResizeDb(size, expires)]
  {
    assert REDIS_VER == Ascii("redis-ver");
    assert VERSION == Ascii("7.4.0");
    assert REDIS_BITS == Ascii("redis-bits");
    assert CTIME == Ascii("ctime");
    assert USED_MEM == Ascii("used-mem");
    assert AOF_BASE == Ascii("aof-base");
    hide Ascii;
  }

  /** A file: the nine bytes of the header, the pieces, 0xFF, and the CRC of all that, low byte first. */
  lemma FileBytes(ps: seq<Piece>)
    ensures var body := Ascii("REDIS0012") + EncodeAll(ps) + [0xFF];
      var f := File(ps);
      && |f| == |body| + 8 && f[..|body|] == body
      && IsLowFirst(f[|body|..], Crc64.Digest(body))
  {
    assert HEADER == Ascii("REDIS0012");
    var body := Ascii("REDIS0012") + EncodeAll(ps) + [0xFF];
    UnpackBytes(Crc64.Digest(body), 8);
    hide IsLowFirst, Crc64.UnpackN, Ascii, EncodeAll, Crc64.Digest, Crc64.Unpack;
  }

  /** The bytes of a word, from the lowest one up. */
  predicate IsLowFirst(w: bytes, x: bv64) {
    w == [] || (w[0] == (x & 0xff) as int && IsLowFirst(w[1..], x >> 8))
  }

  lemma LowByteIs(x: bv64)
    ensures Crc64.LowByte(x) == (x & 0xff) as int && Crc64Table.Down8(x) == x >> 8
  {
  }

  /** Unpacking gives them. */
  lemma {:induction false} UnpackBytes(x: bv64, n: nat)
    ensures IsLowFirst(Crc64.UnpackN(x, n), x)
    decreases n
  {
    LowByteIs(x);
    if n > 0 {
      hide Crc64.LowByte, Crc64Table.Down8;
      UnpackBytes(Crc64Table.Down8(x), n - 1);
    }
  }

  /** And no other bytes are. */
  lemma {:induction false} LowFirstUnique(v: bytes, w: bytes, x: bv64)
    requires |v| == |w| && IsLowFirst(v, x) && IsLowFirst(w, x)
    ensures v == w
  {
    if v != [] {
      LowFirstUnique(v[1..], w[1..], x >> 8);
      assert v == [v[0]] + v[1..] && w == [w[0]] + w[1..];
    }
  }

  // ---- What is read ---------------------------------------------------------------------------

  /** The byte 0 starts an entry without an expiry; 0xFC one whose expiry is in the next eight bytes; 0xFD one whose
      expiry is in the next four; any expiry is taken for milliseconds. */
  lemma EntryRead(key: bytes, data: bytes, b: bytes, rest: bytes)
    requires |key| < 0x1_0000_0000 && |data| < 0x1_0000_0000
    ensures var record := [0] + EncodeString(key) + EncodeString(data) + rest;
      && ReadRecord(record) == Ok(Found(key, data, 0), rest)
      && (|b| == 8 ==> Number8(b) < 0x1_0000_0000_0000_0000 && ReadRecord([0xFC] + (b + record)) == Ok(Found(key, data, Number8(b)), rest))
      && (|b| == 4 ==> ReadRecord([0xFD] + (b + record)) == Ok(Found(key, data, Number4(b)), rest))
  {
    hide *;
    var tail := EncodeString(key) + EncodeString(data) + rest;
    assert [0] + EncodeString(key) + EncodeString(data) + rest == [0] + tail;
    ObjectRead(key, data, 0, rest);
    PlainRead(tail);
    if |b| == 8 {
      EightBytes(b);
      ObjectRead(key, data, Number8(b), rest);
      ExpiringRead(0xFC, b, tail);
    } else if |b| == 4 {
      FourBytes(b);
      SmallEnough(b);
      ObjectRead(key, data, Number4(b), rest);
      ExpiringRead(0xFD, b, tail);
    }
  }

  lemma ObjectRead(key: bytes, data: bytes, expiry: uint64, rest: bytes)
    requires |key| < 0x1_0000_0000 && |data| < 0x1_0000_0000
    ensures ReadObject(0, EncodeString(key) + EncodeString(data) + rest, expiry) == Ok(Found(key, data, expiry), rest)
  {
    ObjectReads(key, data, expiry, rest);
    hide ReadObject, EncodeString;
  }

  lemma SmallEnough(b: bytes)
    requires |b| == 4
    ensures Number4(b) < 0x1_0000_0000
  {
  }

  lemma PlainRead(tail: bytes)
    ensures ReadRecord([0] + tail) == ReadObject(0, tail, 0)
  {
    assert ([0] + tail)[1..] == tail;
    hide ReadObject;
  }

  lemma ExpiringRead(m: byte, b: bytes, tail: bytes)
    requires (m == 0xFC && |b| == 8) || (m == 0xFD && |b| == 4)
    requires FromLittleEndian(b) < 0x1_0000_0000_0000_0000
    ensures ReadRecord([m] + (b + ([0] + tail))) == ReadObject(0, tail, FromLittleEndian(b))
  {
    ExpiryMarker(m, b + ([0] + tail));
    ExpiryThenObject(b, tail);
    hide *;
  }

  lemma ExpiryMarker(m: byte, s: bytes)
    ensures m == 0xFC ==> ReadRecord([m] + s) == ReadExpiring(s, 8)
    ensures m == 0xFD ==> ReadRecord([m] + s) == ReadExpiring(s, 4)
  {
    assert ([m] + s)[1..] == s;
    hide ReadExpiring;
  }

  lemma ExpiryThenObject(b: bytes, tail: bytes)
    requires |b| <= 8 && FromLittleEndian(b) < 0x1_0000_0000_0000_0000
    ensures ReadExpiring(b + ([0] + tail), |b|) == ReadObject(0, tail, FromLittleEndian(b))
  {
    var record := [0] + tail;
    assert (b + record)[..|b|] == b && (b + record)[|b|..] == record && record[1..] == tail;
    hide ReadObject, FromLittleEndian;
  }

  /** 0xFA starts an auxiliary field, 0xFE a database, 0xFB the sizes. No byte but these, 0, 0xFC, 0xFD and 0xFF
      starts anything. */
  lemma MarkersRead(m: byte, s: bytes)
    ensures ReadRecord([0xFA] + s) == ReadAux(s) && ReadRecord([0xFE] + s) == ReadSelectDb(s) && ReadRecord([0xFB] + s) == ReadResizeDb(s)
    ensures m !in {0, 0xFA, 0xFB, 0xFC, 0xFD, 0xFE, 0xFF} ==> ReadRecord([m] + s) == Failed
  {
    forall a: byte ensures ([a] + s)[1..] == s {
    }
    hide ReadAux, ReadSelectDb, ReadResizeDb, ReadString;
  }

  /** A file starts with "REDIS" and four more bytes, whatever they are; at 0xFF between records the parser checks
      the last eight bytes and stops. */
  lemma FileRead(file: bytes, s: bytes, store: Store, now: nat)
    ensures |file| < 9 || file[..5] != Ascii("REDIS") ==> ParseFile(file, now) == None
    ensures |file| >= 9 && file[..5] == Ascii("REDIS") ==> ParseFile(file, now) == ReadRecords(file, file[9..], map[], now)
    ensures ReadRecords(file, [0xFF] + s, store, now) == if ChecksumHolds(file) then Some(store) else None
    ensures ReadRecords(file, [], store, now) == Some(store)
  {
    assert MAGIC == Ascii("REDIS");
    hide Ascii, ChecksumHolds, ReadRecord;
  }

  /** The checksum of a file is in its last eight bytes, low byte first. */
  lemma ChecksumBytes(body: bytes, w: bytes)
    requires |w| == 8
    ensures ChecksumHolds(body + w) <==> IsLowFirst(w, Crc64.Digest(body))
  {
    var f := body + w;
    assert f[..|f| - 8] == body && f[|f| - 8..] == w;
    var x := Crc64.Digest(body);
    hide Crc64.Digest, IsLowFirst, Crc64.UnpackN, Crc64.Pack;
    UnpackBytes(x, 8);
    Crc64.PackUnpack(x);
    if Crc64.Pack(w) == x {
      Crc64.PackInjective(w, Crc64.Unpack(x));
    }
    if IsLowFirst(w, x) {
      LowFirstUnique(w, Crc64.Unpack(x), x);
    }
  }

  /** An auxiliary field is its name and its value; those of ctime, used-mem and redis-bits must be numbers. */
  lemma AuxRead(key: bytes, value: bytes, rest: bytes)
    requires |key| < 0x1_0000_0000 && |value| < 0x1_0000_0000
    ensures ReadAux(EncodeString(key) + (EncodeString(value) + rest)) ==
      if (key == Ascii("ctime") || key == Ascii("used-mem") || key == Ascii("redis-bits")) && ParseInt(value).None? then Failed
      else Ok(AuxField(key, value), rest)
  {
    assert CTIME == Ascii("ctime");
    assert USED_MEM == Ascii("used-mem");
    assert REDIS_BITS == Ascii("redis-bits");
    StringRoundTrip(key, EncodeString(value) + rest);
    StringRoundTrip(value, rest);
    hide Ascii, EncodeString, ReadString, ParseInt;
  }
}
