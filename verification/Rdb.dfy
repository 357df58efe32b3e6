/** The saver and the parser of RDB files, with their mutable state. */
module Rdb {
  import opened Bytes
  import opened Decimal
  import opened RdbFormat
  import Crc64

  /** Everything the saver writes goes to the output and into the running checksum. */
  class Saver {
    var out: bytes
    var hash: Crc64.Hash

    constructor ()
      ensures out == [] && hash.crc == 0 && fresh(hash)
    {
      out := [];
      hash := new Crc64.Hash();
    }

    /** The checksum is that of what has been written so far. */
    ghost predicate Consistent()
      reads this, hash
    {
      hash.crc == Crc64.Digest(out)
    }

    method Write(b: bytes)
      requires Consistent()
      modifies this`out, hash
      ensures Consistent() && out == old(out) + b
    {
      hide Crc64.Bitwise;
      Crc64.Chunks(0, out, b);
      var _ := hash.Write(b);
      out := out + b;
    }

    method WriteLength(n: nat)
      requires Consistent()
      modifies this`out, hash
      ensures Consistent() && out == old(out) + EncodeLength(n)
    {
      hide Crc64.Digest;
      if n <= 0x3F {
        Write([n]);
      } else if n <= 0x3FFF {
        Write([n / 256 + 0x40, n % 256]);
      } else {
        ghost var before := out;
        Write([0x80]);
        Write(BigEndian(n, 4));
        Join(before, [0x80], BigEndian(n, 4));
      }
    }

    method WriteBytes(b: bytes)
      requires Consistent()
      modifies this`out, hash
      ensures Consistent() && out == old(out) + EncodeString(b)
    {
      hide Crc64.Digest, EncodeLength;
      ghost var before := out;
      WriteLength(|b|);
      Write(b);
      Join(before, EncodeLength(|b|), b);
    }

    /** An integer in the special format: its width, then its bytes in two's complement. */
    method WriteWithSpecialFormat(value: AuxValue)
      requires Consistent() && !value.Text?
      modifies this`out, hash
      ensures Consistent() && out == old(out) + EncodeAuxValue([], value)
    {
      hide Crc64.Digest, LittleEndian;
      ghost var before := out;
      match value {
        case Int8(i) =>
          Write([0xC0]);
          Write([i % 256]);
        case Int16(i) =>
          Write([0xC1]);
          Write(LittleEndian(i % 0x1_0000, 2));
          Join(before, [0xC1], LittleEndian(i % 0x1_0000, 2));
        case Int32(i) =>
          Write([0xC2]);
          Write(LittleEndian(i % 0x1_0000_0000, 4));
          Join(before, [0xC2], LittleEndian(i % 0x1_0000_0000, 4));
      }
    }

    method WriteAuxiliaryField(key: bytes, value: AuxValue)
      requires Consistent()
      modifies this`out, hash
      ensures Consistent() && out == old(out) + Encode(Aux(key, value))
    {
      hide Crc64.Digest, EncodeString;
      ghost var before := out;
      Write([AUXILIARY]);
      WriteBytes(key);
      Join(before, [AUXILIARY], EncodeString(key));
      if value.Text? {
        WriteBytes(key);
      } else {
        WriteWithSpecialFormat(value);
      }
      Join(before, [AUXILIARY] + EncodeString(key), EncodeAuxValue(key, value));
    }

    method WriteExpire(expiry: uint64)
      requires Consistent()
      modifies this`out, hash
      ensures Consistent() && out == old(out) + EncodeExpiry(expiry)
    {
      hide Crc64.Digest, LittleEndian;
      if expiry == 0 {
        assert out + [] == out;
        return;
      }
      ghost var before := out;
      Write([EXPIRY_MS]);
      Write(LittleEndian(expiry, 8));
      Join(before, [EXPIRY_MS], LittleEndian(expiry, 8));
    }

    method WriteObject(key: bytes, value: Value) returns (ok: bool)
      requires Consistent()
      modifies this`out, hash
      ensures Consistent() && ok == value.Str?
      ensures ok ==> out == old(out) + Encode(Entry(key, value.data, value.expiry))
    {
      hide Crc64.Digest, EncodeString, EncodeExpiry;
      if value.Other? {
        return false;
      }
      ghost var before := out;
      WriteExpire(value.expiry);
      Write([TYPE_STRING]);
      WriteBytes(key);
      WriteBytes(value.data);
      Join4(before, EncodeExpiry(value.expiry), [TYPE_STRING], EncodeString(key), EncodeString(value.data));
      ok := true;
    }

    /** The checksum of everything written goes to the end of the file. */
    method WriteChecksum()
      requires Consistent()
      modifies this`out, hash
      ensures out == old(out) + Crc64.Unpack(Crc64.Digest(old(out)))
    {
      hide Crc64.Digest, Crc64.Pack;
      var sum := hash.Sum64();
      Write(Crc64.Unpack(sum));
    }

    /** Saving succeeds exactly for stores of strings, and writes a whole file: the fixed fields,
        every entry once in some order, and the checksum that was kept along the way. */
    method SaveRDB(data: Store, ctime: int) returns (ok: bool, ghost order: seq<bytes>)
      modifies this
      ensures ok <==> AllStrings(data)
      ensures ok ==> Enumerates(order, data.Keys)
      ensures ok ==> out == File(Preamble(ctime, |data|, Expiring(data)) + Entries(order, data))
    {
      hide Crc64.Digest, Crc64.Unpack, Encode;
      EmptyDigest();
      out := [];
      hash := new Crc64.Hash();
      Write(HEADER);
      WritePreambleFields(ctime);
      var expires := CountExpiring(data);
      WriteSizes(|data|, expires);
      ghost var pre := Preamble(ctime, |data|, expires);
      EncodePreamble(ctime, |data|, expires);
      JoinPreamble(HEADER, pre);
      hide Preamble, EncodeAll;
      ok, order := WriteEntries(data, pre);
      if ok {
        Write([EOF_MARKER]);
        WriteChecksum();
      }
    }

    /** The loop over the map, whose order nothing fixes. */
    method WriteEntries(data: Store, ghost pre: seq<Piece>) returns (ok: bool, ghost order: seq<bytes>)
      requires Consistent() && out == HEADER + EncodeAll(pre)
      modifies this`out, hash
      ensures Consistent() && (ok <==> AllStrings(data))
      ensures ok ==> Enumerates(order, data.Keys) && out == HEADER + EncodeAll(pre + Entries(order, data))
    {
      hide Crc64.Digest, Encode, EncodeAll;
      order := [];
      ok := true;
      var remaining := data.Keys;
      assert pre + EntriesOf(order, data) == pre;
      while remaining != {}
        invariant Consistent() && remaining <= data.Keys && ok
        invariant forall k :: k in data && k !in remaining ==> data[k].Str?
        invariant Enumerates(order, data.Keys - remaining)
        invariant out == HEADER + EncodeAll(pre + EntriesOf(order, data))
        decreases remaining
      {
        var key :| key in remaining;
        ok := WriteObject(key, data[key]);
        if !ok {
          return;
        }
        AppendEntry(HEADER, pre, order, key, data);
        Enumerated(order, data.Keys - remaining, key);
        assert data.Keys - remaining + {key} == data.Keys - (remaining - {key});
        order := order + [key];
        remaining := remaining - {key};
      }
      assert data.Keys - remaining == data.Keys;
      assert EntriesOf(order, data) == Entries(order, data);
    }

    /** The fixed auxiliary fields and the database selector. */
    method WritePreambleFields(ctime: int)
      requires Consistent()
      modifies this`out, hash
      ensures Consistent()
      ensures out == old(out) + (Encode(Aux(REDIS_VER, Text(VERSION))) + Encode(Aux(REDIS_BITS, Int8(64))) + Encode(Aux(CTIME, Int32(ctime)))
                   + Encode(Aux(USED_MEM, Int32(0))) + Encode(Aux(AOF_BASE, Int8(0))) + Encode(SelectDb(0)))
    {
      hide Crc64.Digest, EncodeLength, Encode;
      ghost var before := out;
      WriteAuxiliaryField(REDIS_VER, Text(VERSION));
      WriteAuxiliaryField(REDIS_BITS, Int8(64));
      WriteAuxiliaryField(CTIME, Int32(ctime));
      WriteAuxiliaryField(USED_MEM, Int32(0));
      WriteAuxiliaryField(AOF_BASE, Int8(0));
      WriteSelectDb();
      ghost var p := Preamble(ctime, 0, 0);
      Join4(before, Encode(p[0]), Encode(p[1]), Encode(p[2]), Encode(p[3]));
      Join(before, Encode(p[0]) + Encode(p[1]) + Encode(p[2]) + Encode(p[3]), Encode(p[4]));
      Join(before, Encode(p[0]) + Encode(p[1]) + Encode(p[2]) + Encode(p[3]) + Encode(p[4]), Encode(p[5]));
    }

    method WriteSelectDb()
      requires Consistent()
      modifies this`out, hash
      ensures Consistent() && out == old(out) + Encode(SelectDb(0))
    {
      hide Crc64.Digest, EncodeLength;
      ghost var before := out;
      Write([SELECT_DB]);
      WriteLength(0);
      Join(before, [SELECT_DB], EncodeLength(0));
    }

    method WriteSizes(size: nat, expires: nat)
      requires Consistent()
      modifies this`out, hash
      ensures Consistent() && out == old(out) + Encode(ResizeDb(size, expires))
    {
      hide Crc64.Digest, EncodeLength;
      ghost var before := out;
      Write([RESIZE_DB]);
      WriteLength(size);
      WriteLength(expires);
      Join(before, [RESIZE_DB], EncodeLength(size));
      Join(before, [RESIZE_DB] + EncodeLength(size), EncodeLength(expires));
    }
  }

  /** The parser: the file, what is unread of it, and what has been found. */
  class Parser {
    const file: bytes
    var rest: bytes
    var length: nat
    var db: nat
    var data: Store

    constructor (file: bytes)
      ensures this.file == file && rest == file && data == map[]
    {
      this.file := file;
      rest := file;
      length := 0;
      db := 0;
      data := map[];
    }

    method TakeBytes(n: nat) returns (r: Read<bytes>)
      modifies this`rest
      ensures r == ReadBytes(old(rest), n) && (r.Ok? ==> rest == r.rest)
    {
      if |rest| < n {
        return Failed;
      }
      r := Ok(rest[..n], rest[n..]);
      rest := rest[n..];
    }

    method TakeLength() returns (r: Read<Length>)
      modifies this`rest
      ensures r == ReadLength(old(rest)) && (r.Ok? ==> rest == r.rest)
    {
      var first := TakeBytes(1);
      if first.Failed? {
        return Failed;
      }
      var kind: int, low: int := first.value[0] / 64, first.value[0] % 64;
      if kind == 0 {
        r := Ok(Plain(low), rest);
      } else if kind == 1 {
        var next := TakeBytes(1);
        r := if next.Failed? then Failed else Ok(Plain(low * 256 + next.value[0]), rest);
      } else if kind == 2 {
        var b := TakeBytes(4);
        r := if b.Failed? then Failed else Ok(Plain(FromBigEndian(b.value)), rest);
      } else {
        r := Ok(Special(low), rest);
      }
    }

    method TakeString() returns (r: Read<bytes>)
      modifies this`rest
      ensures r == ReadString(old(rest)) && (r.Ok? ==> rest == r.rest)
    {
      hide ReadLength, FromLittleEndian, Digits;
      var l := TakeLength();
      if l.Failed? {
        return Failed;
      }
      match l.value {
        case Plain(n) =>
          r := TakeBytes(n);
        case Special(format) =>
          if format > 2 {
            return Failed;
          }
          var b := TakeBytes(if format == 0 then 1 else if format == 1 then 2 else 4);
          r := if b.Failed? then Failed else Ok(Digits(FromLittleEndian(b.value)), rest);
      }
    }

    method HandleAuxiliaryField() returns (r: Read<Record>)
      modifies this`rest
      ensures r == ReadAux(old(rest)) && (r.Ok? ==> rest == r.rest && !r.value.Found?)
    {
      hide ReadString, ParseInt, IsNumericField;
      var key := TakeString();
      if key.Failed? {
        return Failed;
      }
      var value := TakeString();
      if value.Failed? || (IsNumericField(key.value) && ParseInt(value.value).None?) {
        return Failed;
      }
      r := Ok(AuxField(key.value, value.value), rest);
    }

    method HandleSelectDb() returns (r: Read<Record>)
      modifies this`rest, this`db
      ensures r == ReadSelectDb(old(rest)) && (r.Ok? ==> rest == r.rest && r.value == Database(db))
    {
      hide ReadLength;
      var l := TakeLength();
      if l.Failed? {
        return Failed;
      }
      db := NumberOf(l.value);
      r := Ok(Database(db), rest);
    }

    method HandleResizeDb() returns (r: Read<Record>)
      modifies this`rest, this`length
      ensures r == ReadResizeDb(old(rest)) && (r.Ok? ==> rest == r.rest && r.value == Sizes(length))
    {
      hide ReadLength;
      var l := TakeLength();
      if l.Failed? {
        return Failed;
      }
      length := NumberOf(l.value);
      var e := TakeLength();
      if e.Failed? {
        return Failed;
      }
      r := Ok(Sizes(length), rest);
    }

    method HandleObject(objType: byte, expiry: uint64, now: nat) returns (r: Read<Record>)
      modifies this`rest, this`data
      ensures r == ReadObject(objType, old(rest), expiry)
      ensures r.Ok? ==> rest == r.rest && data == Absorb(old(data), r.value, now)
    {
      hide ReadString;
      if objType != TYPE_STRING {
        return Failed;
      }
      var key := TakeString();
      if key.Failed? {
        return Failed;
      }
      var value := TakeString();
      if value.Failed? {
        return Failed;
      }
      r := Ok(Found(key.value, value.value, expiry), rest);
      if !Expired(expiry, now) {
        data := data[key.value := Str(value.value, expiry)];
      }
    }

    method HandleExpiryTime(ms: bool, now: nat) returns (r: Read<Record>)
      modifies this`rest, this`data
      ensures r == ReadExpiring(old(rest), if ms then 8 else 4)
      ensures r.Ok? ==> rest == r.rest && data == Absorb(old(data), r.value, now)
    {
      hide ReadObject, FromLittleEndian;
      var b := TakeBytes(if ms then 8 else 4);
      if b.Failed? {
        return Failed;
      }
      FromLittleEndianBound(b.value, if ms then 8 else 4);
      var objType := TakeBytes(1);
      if objType.Failed? {
        return Failed;
      }
      r := HandleObject(objType.value[0], FromLittleEndian(b.value), now);
    }

    method VerifyChecksum() returns (ok: bool)
      ensures ok == ChecksumHolds(file)
    {
      if |file| < 8 {
        return false;
      }
      hide Crc64.Bitwise, Crc64.Pack;
      var sum := Crc64.Update(0, file[..|file| - 8]);
      ok := sum == Crc64.Pack(file[|file| - 8..]);
    }

    /** One round of the loop, after the marker byte. */
    method HandleRecord(marker: byte, now: nat) returns (r: Read<Record>)
      requires marker != EOF_MARKER
      modifies this
      ensures r == ReadRecord([marker] + old(rest))
      ensures r.Ok? ==> rest == r.rest && data == Absorb(old(data), r.value, now)
    {
      hide ReadAux, ReadSelectDb, ReadResizeDb, ReadExpiring, ReadObject;
      assert ([marker] + rest)[1..] == rest;
      if marker == AUXILIARY {
        r := HandleAuxiliaryField();
      } else if marker == SELECT_DB {
        r := HandleSelectDb();
      } else if marker == RESIZE_DB {
        r := HandleResizeDb();
      } else if marker == EXPIRY_SECONDS {
        r := HandleExpiryTime(false, now);
      } else if marker == EXPIRY_MS {
        r := HandleExpiryTime(true, now);
      } else {
        r := HandleObject(marker, 0, now);
      }
    }

    /** The whole parse: it ends on every input, succeeds exactly when `ParseFile` does, and then
        has found the same data. */
    method ParseRDB(now: nat) returns (ok: bool)
      requires rest == file && data == map[]
      modifies this
      ensures ok == ParseFile(file, now).Some?
      ensures ok ==> data == ParseFile(file, now).value
    {
      hide ReadRecord, Absorb, ChecksumHolds;
      if |file| < 9 || file[..5] != MAGIC {
        return false;
      }
      rest := file[9..];
      while rest != [] && rest[0] != EOF_MARKER
        invariant ReadRecords(file, rest, data, now) == ReadRecords(file, file[9..], map[], now)
        decreases |rest|
      {
        var marker := rest[0];
        assert rest == [marker] + rest[1..];
        ghost var before := rest;
        rest := rest[1..];
        var r := HandleRecord(marker, now);
        if r.Failed? {
          return false;
        }
      }
      if rest == [] {
        return true;
      }
      ok := VerifyChecksum();
    }
  }

  function Expiring(data: Store): nat {
    |set k | k in data && data[k].expiry > 0|
  }

  method CountExpiring(data: Store) returns (n: nat)
    ensures n == Expiring(data) == |set k | k in data && data[k].expiry > 0|
  {
    n := 0;
    var remaining := data.Keys;
    ghost var counted: set<bytes> := {};
    while remaining != {}
      invariant remaining <= data.Keys && counted == set k | k in data && k !in remaining && data[k].expiry > 0
      invariant n == |counted|
      decreases remaining
    {
      var key :| key in remaining;
      remaining := remaining - {key};
      if data[key].expiry > 0 {
        n := n + 1;
        counted := counted + {key};
      }
    }
    assert counted == set k | k in data && data[k].expiry > 0;
  }

  /** Like `Entries`, for orders over the strings of any store. */
  ghost function EntriesOf(order: seq<bytes>, data: Store): seq<Piece> {
    seq(|order|, i requires 0 <= i < |order| =>
      if order[i] in data && data[order[i]].Str? then Entry(order[i], data[order[i]].data, data[order[i]].expiry)
      else SelectDb(0))
  }

  lemma EmptyDigest()
    ensures Crc64.Digest([]) == 0
  {
  }

  lemma {:induction false} EncodeAllAppend(ps: seq<Piece>, p: Piece)
    ensures EncodeAll(ps + [p]) == EncodeAll(ps) + Encode(p)
    decreases |ps|
  {
    hide Encode;
    if ps == [] {
      assert ps + [p] == [p];
      assert EncodeAll([p]) == Encode(p) + EncodeAll([]);
    } else {
      assert (ps + [p])[1..] == ps[1..] + [p];
      EncodeAllAppend(ps[1..], p);
    }
  }

  lemma EncodePreamble(ctime: int, size: nat, expires: nat)
    ensures EncodeAll(Preamble(ctime, size, expires)) ==
      Encode(Aux(REDIS_VER, Text(VERSION))) + Encode(Aux(REDIS_BITS, Int8(64))) + Encode(Aux(CTIME, Int32(ctime)))
      + Encode(Aux(USED_MEM, Int32(0))) + Encode(Aux(AOF_BASE, Int8(0))) + Encode(SelectDb(0)) + Encode(ResizeDb(size, expires))
  {
    hide Encode;
    var p := Preamble(ctime, size, expires);
    assert p[..1] == [p[0]] == [] + [p[0]] && EncodeAll([]) == [];
    EncodeAllAppend([], p[0]);
    EncodeAllAppend(p[..1], p[1]); assert p[..1] + [p[1]] == p[..2];
    EncodeAllAppend(p[..2], p[2]); assert p[..2] + [p[2]] == p[..3];
    EncodeAllAppend(p[..3], p[3]); assert p[..3] + [p[3]] == p[..4];
    EncodeAllAppend(p[..4], p[4]); assert p[..4] + [p[4]] == p[..5];
    EncodeAllAppend(p[..5], p[5]); assert p[..5] + [p[5]] == p[..6];
    EncodeAllAppend(p[..6], p[6]); assert p[..6] + [p[6]] == p;
  }

  lemma AppendEntry(head: bytes, pre: seq<Piece>, order: seq<bytes>, key: bytes, data: Store)
    requires key in data && data[key].Str?
    ensures head + EncodeAll(pre + EntriesOf(order + [key], data)) ==
      head + EncodeAll(pre + EntriesOf(order, data)) + Encode(Entry(key, data[key].data, data[key].expiry))
  {
    hide Encode, EncodeAll;
    var e := Entry(key, data[key].data, data[key].expiry);
    assert pre + EntriesOf(order + [key], data) == (pre + EntriesOf(order, data)) + [e];
    EncodeAllAppend(pre + EntriesOf(order, data), e);
    Join(head, EncodeAll(pre + EntriesOf(order, data)), Encode(e));
  }

  lemma Enumerated(order: seq<bytes>, keys: set<bytes>, key: bytes)
    requires Enumerates(order, keys) && key !in keys
    ensures Enumerates(order + [key], keys + {key})
  {
    var order' := order + [key];
    assert order'[|order|] == key;
    forall k | k in keys + {key} ensures k in order' {
      if k != key {
        var i :| 0 <= i < |order| && order[i] == k;
        assert order'[i] == k;
      }
    }
  }

  lemma Join(o: bytes, a: bytes, b: bytes)
    ensures o + a + b == o + (a + b)
  {
  }

  lemma Join4(o: bytes, a: bytes, b: bytes, c: bytes, d: bytes)
    ensures o + a + b + c + d == o + (a + b + c + d)
  {
  }

  lemma JoinPreamble(o: bytes, ps: seq<Piece>)
    requires |ps| == 7
    ensures o + (Encode(ps[0]) + Encode(ps[1]) + Encode(ps[2]) + Encode(ps[3]) + Encode(ps[4]) + Encode(ps[5])) + Encode(ps[6])
         == o + (Encode(ps[0]) + Encode(ps[1]) + Encode(ps[2]) + Encode(ps[3]) + Encode(ps[4]) + Encode(ps[5]) + Encode(ps[6]))
  {
    hide Encode;
    Join(o, Encode(ps[0]) + Encode(ps[1]) + Encode(ps[2]) + Encode(ps[3]) + Encode(ps[4]) + Encode(ps[5]), Encode(ps[6]));
  }
}
