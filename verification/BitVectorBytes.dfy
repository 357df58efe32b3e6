/** Bytes as numbers and bytes as bit vectors are the same thing. */
module BitVectorBytes {

  lemma ByteThroughBits(n: int)
    requires 0 <= n < 256
    ensures (n as bv8) as int == n
  {
    if n >= 16 {
      ByteThroughBits(n - 16);
      AddSixteen((n - 16) as bv8);
    }
  }

  lemma AddSixteen(c: bv8)
    requires (c as int) + 16 < 256
    ensures (c + 16) as int == (c as int) + 16 && ((c as int) + 16) as bv8 == c + 16
  {
  }

  lemma BitsThroughByte(c: bv8)
    ensures (c as int) as bv8 == c
  {
  }
}
