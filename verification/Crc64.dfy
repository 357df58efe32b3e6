/** CRC-64-Jones (reflected, initial value 0): the table-driven loop, the streaming digest,
    and what the checksum is there for, burst error detection. */
module Crc64 {
  import opened Bytes
  import opened Crc64Table
  import opened BitVectorBytes

  function Lift(b: byte): bv64 {
    (b as bv8) as bv64
  }

  /** The bit-at-a-time CRC: the reference that the table-driven loop is measured against. */
  function Bitwise(crc: bv64, data: bytes): bv64
    decreases |data|
  {
    if data == [] then crc else Bitwise(ShiftByte(Xor(crc, Lift(data[0]))), data[1..])
  }

  /** The digest of a whole byte string. */
  function Digest(data: bytes): bv64 {
    Bitwise(0, data)
  }

  /** The loop over the table computes the bit-at-a-time CRC, from any starting state. */
  method Update(start: bv64, data: bytes) returns (crc: bv64)
    ensures crc == Bitwise(start, data)
  {
    hide ShiftByte, Xor, Lift, LowOf, Down8;
    crc := start;
    for i := 0 to |data|
      invariant Bitwise(crc, data[i..]) == Bitwise(start, data)
    {
      var v := Lift(data[i]);
      LiftIsByte(data[i]);
      TableStep(crc, v);
      var entry := Lookup(Xor(LowOf(crc), v));
      crc := Xor(entry, Down8(crc));
      assert data[i..][1..] == data[i + 1..];
    }
    assert data[|data|..] == [];
  }

  /** The streaming hash: its state after any writes is the CRC of everything written. */
  class Hash {
    var crc: bv64

    constructor ()
      ensures crc == 0
    {
      crc := 0;
    }

    method Write(p: bytes) returns (n: nat)
      modifies this
      ensures crc == Bitwise(old(crc), p) && n == |p|
    {
      crc := Update(crc, p);
      n := |p|;
    }

    method Sum64() returns (sum: bv64)
      ensures sum == crc
    {
      sum := crc;
    }

    /** The state, low byte first, appended to `prefix`. */
    method Sum(prefix: bytes) returns (out: bytes)
      ensures |out| == |prefix| + 8 && out[..|prefix|] == prefix
      ensures Pack(out[|prefix|..]) == crc
    {
      hide Pack;
      out := prefix + Unpack(crc);
      PackUnpack(crc);
      assert out[|prefix|..] == Unpack(crc);
    }
  }

  /** Writing in chunks is writing at once: the state after `a` and then `b` is that after `a + b`. */
  lemma {:induction false} Chunks(crc: bv64, a: bytes, b: bytes)
    ensures Bitwise(crc, a + b) == Bitwise(Bitwise(crc, a), b)
    decreases |a|
  {
    hide ShiftByte, Xor, Lift;
    if a == [] {
      assert a + b == b;
    } else {
      assert (a + b)[1..] == a[1..] + b;
      Chunks(ShiftByte(Xor(crc, Lift(a[0]))), a[1..], b);
    }
  }

  function Concat(chunks: seq<bytes>): bytes {
    if chunks == [] then [] else chunks[0] + Concat(chunks[1..])
  }

  /** Any chunking of the input, written through the streaming hash, gives the one-shot digest. */
  method Stream(chunks: seq<bytes>) returns (sum: bv64)
    ensures sum == Digest(Concat(chunks))
  {
    hide Bitwise;
    var h := new Hash();
    for i := 0 to |chunks|
      invariant Bitwise(h.crc, Concat(chunks[i..])) == Digest(Concat(chunks))
    {
      Chunks(h.crc, chunks[i], Concat(chunks[i..][1..]));
      var _ := h.Write(chunks[i]);
      assert chunks[i..][1..] == chunks[i + 1..];
    }
    sum := h.Sum64();
    assert chunks[|chunks|..] == [];
    BitwiseEmpty(sum);
  }

  lemma BitwiseEmpty(crc: bv64)
    ensures Bitwise(crc, []) == crc
  {
  }

  // ---- Little-endian packing -----------------------------------------------------------------

  /** Up to eight bytes as a word, the first byte lowest (`binary.LittleEndian.Uint64`). */
  function Pack(w: bytes): bv64 {
    if w == [] then 0 else Xor(Lift(w[0]), Up8(Pack(w[1..])))
  }

  function LowByte(x: bv64): byte {
    (LowOf(x) as bv8) as int
  }

  /** n bytes of a word, low byte first. */
  function UnpackN(x: bv64, n: nat): (w: bytes)
    ensures |w| == n
    decreases n
  {
    if n == 0 then [] else [LowByte(x)] + UnpackN(Down8(x), n - 1)
  }

  /** The eight bytes of a word, low byte first (`binary.LittleEndian.PutUint64`). */
  function Unpack(x: bv64): (w: bytes)
    ensures |w| == 8
  {
    UnpackN(x, 8)
  }

  /** x has no bits above its lowest n bytes. */
  predicate Fits(x: bv64, n: nat)
    decreases n
  {
    if n == 0 then x == 0 else Fits(Down8(x), n - 1)
  }

  lemma {:induction false} FitsEight(x: bv64)
    ensures Fits(x, 8)
  {
    var x1 := Down8(x); var x2 := Down8(x1); var x3 := Down8(x2); var x4 := Down8(x3);
    var x5 := Down8(x4); var x6 := Down8(x5); var x7 := Down8(x6);
    assert Down8(x7) == 0;
    hide Down8;
    assert Fits(x7, 1);
    assert Fits(x6, 2);
    assert Fits(x5, 3);
    assert Fits(x4, 4);
    assert Fits(x3, 5);
    assert Fits(x2, 6);
    assert Fits(x1, 7);
  }

  lemma {:induction false} PackUnpackN(x: bv64, n: nat)
    requires Fits(x, n)
    ensures Pack(UnpackN(x, n)) == x
    decreases n
  {
    hide Xor, Up8, Down8, LowByte, Lift;
    if n > 0 {
      var w := UnpackN(x, n);
      assert w[0] == LowByte(x) && w[1..] == UnpackN(Down8(x), n - 1);
      PackUnpackN(Down8(x), n - 1);
      LiftOfLowByte(x);
      SplitWord(x);
    }
  }

  lemma PackUnpack(x: bv64)
    ensures Pack(Unpack(x)) == x
  {
    hide Pack, UnpackN, Fits;
    FitsEight(x);
    PackUnpackN(x, 8);
  }

  lemma SplitWord(x: bv64)
    ensures Xor(LowOf(x), Up8(Down8(x))) == x
  {
  }

  lemma UpDown(p: bv64)
    requires p <= 0xff_ffff_ffff_ffff
    ensures Down8(Up8(p)) == p && LowOf(Up8(p)) == 0
  {
  }

  lemma XorLow(a: bv64, b: bv64)
    ensures LowOf(Xor(a, b)) == Xor(LowOf(a), LowOf(b))
  {
  }

  lemma XorDown8(a: bv64, b: bv64)
    ensures Down8(Xor(a, b)) == Xor(Down8(a), Down8(b))
  {
  }

  lemma LowIsAll(b: bv64)
    requires b <= 0xff
    ensures LowOf(b) == b && Down8(b) == 0
  {
  }

  lemma JoinWord(b: bv64, p: bv64)
    requires b <= 0xff && p <= 0xff_ffff_ffff_ffff
    ensures LowOf(Xor(b, Up8(p))) == b && Down8(Xor(b, Up8(p))) == p && Down8(Up8(p)) == p && LowOf(Up8(p)) == 0
  {
    hide *;
    UpDown(p);
    LowIsAll(b);
    XorLow(b, Up8(p));
    XorDown8(b, Up8(p));
    XorZero(b);
    XorZero(p);
    XorSwap(0, p);
  }

  lemma XorZero(s: bv64)
    ensures Xor(s, 0) == s
  {
  }

  lemma XorSwap(a: bv64, b: bv64)
    ensures Xor(a, b) == Xor(b, a)
  {
  }

  /** The lowest k bytes, all ones. */
  function Mask(k: nat): bv64 {
    if k == 0 then 0 else Up8(Mask(k - 1)) | 0xff
  }

  predicate Within(p: bv64, mask: bv64) {
    p | mask == mask
  }

  lemma WithinStep(b: bv64, p: bv64, m: bv64)
    requires b <= 0xff && Within(p, m)
    ensures Within(Xor(b, Up8(p)), Up8(m) | 0xff)
  {
  }

  lemma {:induction false} PackWithin(w: bytes)
    ensures Within(Pack(w), Mask(|w|))
  {
    hide Within, Xor, Up8, Lift;
    if w == [] {
      WithinZero();
    } else {
      PackWithin(w[1..]);
      LiftIsByte(w[0]);
      WithinStep(Lift(w[0]), Pack(w[1..]), Mask(|w| - 1));
    }
  }

  lemma WithinZero()
    ensures Within(0, 0)
  {
  }

  lemma MaskSeven(k: nat)
    requires k <= 7
    ensures Mask(k) <= 0xff_ffff_ffff_ffff
  {
    assert Mask(1) == 0xff;
    assert Mask(2) == 0xffff;
    assert Mask(3) == 0xff_ffff;
    assert Mask(4) == 0xffff_ffff;
    assert Mask(5) == 0xff_ffff_ffff;
    assert Mask(6) == 0xffff_ffff_ffff;
    assert Mask(7) == 0xff_ffff_ffff_ffff;
  }

  lemma PackBound(w: bytes)
    requires |w| <= 7
    ensures Pack(w) <= 0xff_ffff_ffff_ffff
  {
    hide Pack, Mask;
    PackWithin(w);
    MaskSeven(|w|);
    WithinBound(Pack(w), Mask(|w|));
  }

  lemma WithinBound(p: bv64, m: bv64)
    requires Within(p, m)
    ensures p <= m
  {
  }

  /** Packing loses nothing. */
  lemma {:induction false} PackInjective(u: bytes, v: bytes)
    requires |u| == |v| <= 8 && Pack(u) == Pack(v)
    ensures u == v
  {
    hide Xor, Up8, Down8, LowOf, Lift, LowByte;
    if u != [] {
      PackBound(u[1..]);
      PackBound(v[1..]);
      LiftIsByte(u[0]);
      LiftIsByte(v[0]);
      JoinWord(Lift(u[0]), Pack(u[1..]));
      JoinWord(Lift(v[0]), Pack(v[1..]));
      LowByteOfLift(u[0]);
      LowByteOfLift(v[0]);
      PackInjective(u[1..], v[1..]);
      assert u == [u[0]] + u[1..] && v == [v[0]] + v[1..];
    }
  }

  // ---- Words and bytes ------------------------------------------------------------------------

  lemma NarrowWide(c: bv8)
    ensures c as bv64 <= 0xff && LowOf(c as bv64) as bv8 == c
  {
  }

  lemma WideNarrow(x: bv64)
    requires x <= 0xff
    ensures (x as bv8) as bv64 == x
  {
  }

  lemma LiftIsByte(b: byte)
    ensures Lift(b) <= 0xff
  {
    NarrowWide(b as bv8);
  }

  lemma LowByteOfLift(b: byte)
    ensures LowByte(Lift(b)) == b
  {
    hide LowOf;
    NarrowWide(b as bv8);
    ByteThroughBits(b);
  }

  lemma LiftOfLowByte(x: bv64)
    ensures Lift(LowByte(x)) == LowOf(x)
  {
    WideNarrow(LowOf(x));
    BitsThroughByte(LowOf(x) as bv8);
  }

  // ---- The algebra of the shift register ------------------------------------------------------

  lemma ShiftBitInjective(x: bv64, y: bv64)
    requires ShiftBit(x) == ShiftBit(y)
    ensures x == y
  {
  }

  lemma XorInjective(a: bv64, b: bv64, p: bv64)
    requires Xor(a, p) == Xor(b, p)
    ensures a == b
  {
  }

  lemma XorRegroup(s: bv64, b: bv64, p: bv64)
    ensures Xor(Xor(s, b), p) == Xor(s, Xor(b, p)) && Xor(b, p) == Xor(p, b)
  {
  }

  /** The lowest n bits of y are zero. */
  predicate LowZero(y: bv64, n: nat)
    decreases n
  {
    n == 0 || (y & 1 == 0 && LowZero(Down1(y), n - 1))
  }

  function DownBits(y: bv64, n: nat): bv64
    decreases n
  {
    if n == 0 then y else DownBits(Down1(y), n - 1)
  }

  lemma LowZeroByte(y: bv64)
    requires LowOf(y) == 0
    ensures LowZero(y, 8) && DownBits(y, 8) == Down8(y)
  {
    var y1 := Down1(y); var y2 := Down1(y1); var y3 := Down1(y2); var y4 := Down1(y3);
    var y5 := Down1(y4); var y6 := Down1(y5); var y7 := Down1(y6); var y8 := Down1(y7);
    assert y & 1 == 0 && y1 & 1 == 0 && y2 & 1 == 0 && y3 & 1 == 0;
    assert y4 & 1 == 0 && y5 & 1 == 0 && y6 & 1 == 0 && y7 & 1 == 0 && y8 == Down8(y);
    hide Down1, Down8;
    assert LowZero(y6, 2) && LowZero(y4, 4) && LowZero(y2, 6);
    assert DownBits(y6, 2) == y8 && DownBits(y4, 4) == y8 && DownBits(y2, 6) == y8;
  }

  /** An even word passes through a bit step untouched, only shifted. */
  lemma ShiftBitEven(x: bv64, y: bv64)
    requires y & 1 == 0
    ensures ShiftBit(Xor(x, y)) == Xor(ShiftBit(x), Down1(y))
  {
    XorEven(x, y);
    XorDown1(x, y);
    hide Xor, Down1;
    var p: bv64 := if x & 1 == 1 then 0x95ac9329ac4bc9b5 else 0;
    XorRegroup(Down1(x), Down1(y), p);
    XorRegroup(Down1(x), p, Down1(y));
  }

  lemma XorEven(x: bv64, y: bv64)
    requires y & 1 == 0
    ensures Xor(x, y) & 1 == x & 1
  {
  }

  lemma XorDown1(x: bv64, y: bv64)
    ensures Down1(Xor(x, y)) == Xor(Down1(x), Down1(y))
  {
  }

  lemma {:induction false} ShiftBitsHigh(x: bv64, y: bv64, n: nat)
    requires LowZero(y, n)
    ensures ShiftBits(Xor(x, y), n) == Xor(ShiftBits(x, n), DownBits(y, n))
    decreases n
  {
    hide ShiftBit, Xor, Down1;
    if n > 0 {
      ShiftBitEven(x, y);
      ShiftBitsHigh(ShiftBit(x), Down1(y), n - 1);
    }
  }

  /** A word above the low byte passes through a byte step and comes out eight bits lower. */
  lemma ShiftByteHigh(x: bv64, y: bv64)
    requires LowOf(y) == 0
    ensures ShiftByte(Xor(x, y)) == Xor(ShiftByte(x), Down8(y))
  {
    hide ShiftBits, LowZero, DownBits, Xor, LowOf, Down8;
    LowZeroByte(y);
    ShiftBitsHigh(x, y, 8);
  }

  lemma {:induction false} ShiftBitsInjective(x: bv64, y: bv64, n: nat)
    requires ShiftBits(x, n) == ShiftBits(y, n)
    ensures x == y
    decreases n
  {
    hide ShiftBit;
    if n > 0 {
      ShiftBitsInjective(ShiftBit(x), ShiftBit(y), n - 1);
      ShiftBitInjective(x, y);
    }
  }

  lemma ShiftByteInjective(x: bv64, y: bv64)
    requires ShiftByte(x) == ShiftByte(y)
    ensures x == y
  {
    hide ShiftBits;
    ShiftBitsInjective(x, y, 8);
  }

  /** One round of the table loop is one byte of the bit-at-a-time CRC. */
  lemma TableStep(crc: bv64, v: bv64)
    requires v <= 0xff
    ensures Xor(LowOf(crc), v) < 256
    ensures Xor(ShiftByte(Xor(LowOf(crc), v)), Down8(crc)) == ShiftByte(Xor(crc, v))
  {
    hide *;
    var low, high := LowOf(crc), Up8(Down8(crc));
    SplitWord(crc);
    DownUp(crc);
    XorOfBytes(low, v);
    XorRegroup(low, v, high);
    XorRegroup(low, high, v);
    ShiftByteHigh(Xor(low, v), high);
  }

  lemma DownUp(x: bv64)
    ensures LowOf(Up8(Down8(x))) == 0 && Down8(Up8(Down8(x))) == Down8(x)
  {
  }

  lemma XorOfBytes(a: bv64, b: bv64)
    requires a <= 0xff && b <= 0xff
    ensures Xor(a, b) < 256
  {
  }

  // ---- Burst detection ------------------------------------------------------------------------

  /** Feeding n zero bytes. */
  function ShiftBytes(x: bv64, n: nat): bv64
    decreases n
  {
    if n == 0 then x else ShiftBytes(ShiftByte(x), n - 1)
  }

  /** Up to eight bytes act on the register as one word xored in before that many zero bytes. */
  lemma {:induction false} WindowIsWord(s: bv64, w: bytes)
    requires |w| <= 8
    ensures Bitwise(s, w) == ShiftBytes(Xor(s, Pack(w)), |w|)
    decreases |w|
  {
    hide Xor, ShiftByte, Lift, Up8, Down8, LowOf;
    if w == [] {
      XorZero(s);
    } else {
      var b, p := Lift(w[0]), Pack(w[1..]);
      var s' := ShiftByte(Xor(s, b));
      LiftIsByte(w[0]);
      PackBound(w[1..]);
      JoinWord(b, p);
      WindowIsWord(s', w[1..]);
      ShiftByteHigh(Xor(s, b), Up8(p));
      XorRegroup(s, b, Up8(p));
    }
  }

  lemma {:induction false} ShiftBytesInjective(x: bv64, y: bv64, n: nat)
    requires ShiftBytes(x, n) == ShiftBytes(y, n)
    ensures x == y
    decreases n
  {
    hide ShiftByte;
    if n > 0 {
      ShiftBytesInjective(ShiftByte(x), ShiftByte(y), n - 1);
      ShiftByteInjective(x, y);
    }
  }

  /** From one state, two different windows of at most eight bytes lead to different states. */
  lemma WindowInjective(s: bv64, u: bytes, v: bytes)
    requires |u| == |v| <= 8 && Bitwise(s, u) == Bitwise(s, v)
    ensures u == v
  {
    hide *;
    WindowIsWord(s, u);
    WindowIsWord(s, v);
    ShiftBytesInjective(Xor(s, Pack(u)), Xor(s, Pack(v)), |u|);
    XorRegroup(s, s, Pack(u));
    XorRegroup(s, s, Pack(v));
    XorInjective(Pack(u), Pack(v), s);
    PackInjective(u, v);
  }

  /** Two states never merge: common data that follows keeps them apart. */
  lemma {:induction false} StatesStayApart(x: bv64, y: bv64, data: bytes)
    requires Bitwise(x, data) == Bitwise(y, data)
    ensures x == y
    decreases |data|
  {
    hide Xor, ShiftByte, Lift;
    if data != [] {
      var b := Lift(data[0]);
      StatesStayApart(ShiftByte(Xor(x, b)), ShiftByte(Xor(y, b)), data[1..]);
      ShiftByteInjective(Xor(x, b), Xor(y, b));
      XorInjective(x, y, b);
    }
  }

  /** Two messages that differ, but only inside a window of at most eight bytes, have
      different digests. */
  lemma BurstDetected(before: bytes, u: bytes, v: bytes, after: bytes)
    requires |u| == |v| <= 8 && u != v
    ensures Digest(before + u + after) != Digest(before + v + after)
  {
    hide Bitwise;
    var s := Bitwise(0, before);
    Chunks(0, before + u, after);
    Chunks(0, before + v, after);
    Chunks(0, before, u);
    Chunks(0, before, v);
    if Digest(before + u + after) == Digest(before + v + after) {
      StatesStayApart(Bitwise(s, u), Bitwise(s, v), after);
      WindowInjective(s, u, v);
    }
  }

  // ---- The check value ------------------------------------------------------------------------

  lemma OneMoreByte(crc: bv64, b: byte, next: bv64, rest: bytes)
    requires ShiftByte(Xor(crc, Lift(b))) == next
    ensures Bitwise(crc, [b] + rest) == Bitwise(next, rest)
  {
    assert ([b] + rest)[1..] == rest;
    hide ShiftByte, Xor, Lift;
  }

  /** The digest of the text "123456789", by which CRC algorithms are told apart. */
  lemma CheckValue()
    ensures Digest(Ascii("123456789")) == 0xe9c6d914c4b8d9ca
  {
    CheckText();
    hide ShiftByte, Xor, Lift, Bitwise, Ascii;
    Step1();
    OneMoreByte(0x0000000000000000, 49, 0xfdc17184a9f739fa, [50, 51, 52, 53, 54, 55, 56, 57]);
    assert [49] + [50, 51, 52, 53, 54, 55, 56, 57] == [49, 50, 51, 52, 53, 54, 55, 56, 57];
    Step2();
    OneMoreByte(0xfdc17184a9f739fa, 50, 0xe10364513a98ed96, [51, 52, 53, 54, 55, 56, 57]);
    assert [50] + [51, 52, 53, 54, 55, 56, 57] == [50, 51, 52, 53, 54, 55, 56, 57];
    Step3();
    OneMoreByte(0xe10364513a98ed96, 51, 0xd5bcfb814479b1ac, [52, 53, 54, 55, 56, 57]);
    assert [51] + [52, 53, 54, 55, 56, 57] == [51, 52, 53, 54, 55, 56, 57];
    Step4();
    OneMoreByte(0xd5bcfb814479b1ac, 52, 0x43593c5dcda521f0, [53, 54, 55, 56, 57]);
    assert [52] + [53, 54, 55, 56, 57] == [52, 53, 54, 55, 56, 57];
    Step5();
    OneMoreByte(0x43593c5dcda521f0, 53, 0xf0758513239c7e0d, [54, 55, 56, 57]);
    assert [53] + [54, 55, 56, 57] == [53, 54, 55, 56, 57];
    Step6();
    OneMoreByte(0xf0758513239c7e0d, 54, 0xa3a90925b2ab4903, [55, 56, 57]);
    assert [54] + [55, 56, 57] == [54, 55, 56, 57];
    Step7();
    OneMoreByte(0xa3a90925b2ab4903, 55, 0x47824d362431ad45, [56, 57]);
    assert [55] + [56, 57] == [55, 56, 57];
    Step8();
    OneMoreByte(0x47824d362431ad45, 56, 0x49ec20b315e86dc2, [57]);
    assert [56] + [57] == [56, 57];
    Step9();
    OneMoreByte(0x49ec20b315e86dc2, 57, 0xe9c6d914c4b8d9ca, []);
    assert [57] + [] == [57];
    BitwiseEmpty(0xe9c6d914c4b8d9ca);
  }

  lemma CheckText()
    ensures Ascii("123456789") == [49, 50, 51, 52, 53, 54, 55, 56, 57]
  {
  }

  lemma Step1()
    ensures ShiftByte(Xor(0x0000000000000000, Lift(49))) == 0xfdc17184a9f739fa
  {
    assert Lift(49) == 0x31;
  }

  lemma Step2()
    ensures ShiftByte(Xor(0xfdc17184a9f739fa, Lift(50))) == 0xe10364513a98ed96
  {
    assert Lift(50) == 0x32;
  }

  lemma Step3()
    ensures ShiftByte(Xor(0xe10364513a98ed96, Lift(51))) == 0xd5bcfb814479b1ac
  {
    assert Lift(51) == 0x33;
  }

  lemma Step4()
    ensures ShiftByte(Xor(0xd5bcfb814479b1ac, Lift(52))) == 0x43593c5dcda521f0
  {
    assert Lift(52) == 0x34;
  }

  lemma Step5()
    ensures ShiftByte(Xor(0x43593c5dcda521f0, Lift(53))) == 0xf0758513239c7e0d
  {
    assert Lift(53) == 0x35;
  }

  lemma Step6()
    ensures ShiftByte(Xor(0xf0758513239c7e0d, Lift(54))) == 0xa3a90925b2ab4903
  {
    assert Lift(54) == 0x36;
  }

  lemma Step7()
    ensures ShiftByte(Xor(0xa3a90925b2ab4903, Lift(55))) == 0x47824d362431ad45
  {
    assert Lift(55) == 0x37;
  }

  lemma Step8()
    ensures ShiftByte(Xor(0x47824d362431ad45, Lift(56))) == 0x49ec20b315e86dc2
  {
    assert Lift(56) == 0x38;
  }

  lemma Step9()
    ensures ShiftByte(Xor(0x49ec20b315e86dc2, Lift(57))) == 0xe9c6d914c4b8d9ca
  {
    assert Lift(57) == 0x39;
  }
}
