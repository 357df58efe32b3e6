/** Decimal printing (`strconv.FormatInt`, `%d`) and parsing (`strconv.ParseInt`, `Atoi`). */
module Decimal {
  import opened Bytes

  const MAX_INT64: int := 0x7fff_ffff_ffff_ffff
  const MIN_INT64: int := -0x8000_0000_0000_0000

  predicate IsDigit(b: byte) {
    48 <= b <= 57
  }

  predicate AllDigits(s: bytes) {
    forall i :: 0 <= i < |s| ==> IsDigit(s[i])
  }

  /** The canonical digits of n: no leading zero, except for zero itself. */
  function Digits(n: nat): (s: bytes)
    ensures s != [] && AllDigits(s)
    ensures s[0] == 48 ==> n == 0
  {
    if n < 10 then [48 + n] else Digits(n / 10) + [48 + n % 10]
  }

  function Format(i: int): (s: bytes)
    ensures s != []
  {
    if i < 0 then [MINUS] + Digits(-i) else Digits(i)
  }

  function Value(s: bytes): (n: nat)
    requires AllDigits(s)
  {
    if s == [] then 0 else 10 * Value(s[..|s| - 1]) + (s[|s| - 1] - 48)
  }

  /** `strconv.ParseInt(s, 10, 64)`: an optional sign, at least one digit, and a value in range. */
  function ParseInt(s: bytes): (r: Option<int>)
  {
    if s == [] then None
    else
      var signed := s[0] == MINUS || s[0] == PLUS;
      var digits := if signed then s[1..] else s;
      if digits == [] || !AllDigits(digits) then None
      else
        var i: int := (if s[0] == MINUS then -1 else 1) * Value(digits);
        if MIN_INT64 <= i <= MAX_INT64 then Some(i) else None
  }

  lemma {:induction false} ValueOfDigits(n: nat)
    ensures Value(Digits(n)) == n
  {
    if n >= 10 {
      var s := Digits(n);
      assert s[..|s| - 1] == Digits(n / 10);
      ValueOfDigits(n / 10);
    }
  }

  /** Printing and parsing are inverse on 64-bit integers. */
  lemma ParseFormat(i: int)
    ensures ParseInt(Format(i)) == if MIN_INT64 <= i <= MAX_INT64 then Some(i) else None
  {
    var n := if i < 0 then -i else i;
    ValueOfDigits(n);
    if i < 0 {
      assert Format(i)[1..] == Digits(n);
    }
  }

  lemma FormatInjective(i: int, j: int)
    requires Format(i) == Format(j)
    ensures i == j
  {
    ValueOfDigits(if i < 0 then -i else i);
    ValueOfDigits(if j < 0 then -j else j);
    if i < 0 {
      assert Format(i)[1..] == Digits(-i);
    }
    if j < 0 {
      assert Format(j)[1..] == Digits(-j);
    }
  }

  /** The canonical digits are the shortest: a leading zero is the only other freedom. */
  lemma {:induction false} DigitsShortest(s: bytes)
    requires s != [] && AllDigits(s)
    ensures |Digits(Value(s))| <= |s|
  {
    if |s| > 1 {
      DigitsShortest(s[..|s| - 1]);
    }
  }

  /** Decimal notation, digit by digit. */
  lemma DigitsMeaning(n: nat, d: nat)
    requires d < 10
    ensures Digits(d) == [48 + d] && (n > 0 ==> Digits(10 * n + d) == Digits(n) + [48 + d])
  {
    var m := 10 * n + d;
    assert m / 10 == n && m % 10 == d;
  }

  lemma ValueMeaning(s: bytes, d: nat)
    requires AllDigits(s) && d < 10
    ensures Value([]) == 0 && Value(s + [48 + d]) == 10 * Value(s) + d
  {
    assert (s + [48 + d])[..|s|] == s;
  }

  /** What is read as a number: digits, with a plus or a minus sign or without one, leading zeros or not, as long as
      the number fits 64 bits. */
  lemma ParseIntMeaning(s: bytes, i: int)
    ensures ParseInt(s) == Some(i) <==>
      && -0x8000_0000_0000_0000 <= i <= 0x7fff_ffff_ffff_ffff
      && ((s != [] && AllDigits(s) && i == Value(s))
       || (|s| > 1 && s[0] == '+' as int && AllDigits(s[1..]) && i == Value(s[1..]))
       || (|s| > 1 && s[0] == '-' as int && AllDigits(s[1..]) && i + Value(s[1..]) == 0))
  {
    hide Value;
  }
}
