/** Decimal text as Go's standard library writes and reads it: the `%d` verb
    of fmt (and `%03d`, its zero-padded form) and `strconv.Atoi`. */
module Decimal {
  import opened Wrappers

  /** The range of Go's `int` on a 64-bit platform. */
  const MinInt64: int := -0x8000_0000_0000_0000
  const MaxInt64: int := 0x7fff_ffff_ffff_ffff

  predicate IsDigit(c: char) {
    '0' <= c <= '9'
  }

  predicate AllDigits(s: string) {
    forall i :: 0 <= i < |s| ==> IsDigit(s[i])
  }

  function DigitChar(d: nat): (c: char)
    requires d < 10
    ensures IsDigit(c) && c as int - '0' as int == d
  {
    ('0' as int + d) as char
  }

  /** The value of a string of decimal digits, most significant first. */
  function DigitsValue(s: string): nat
    requires AllDigits(s)
  {
    if s == [] then 0 else DigitsValue(s[..|s| - 1]) * 10 + (s[|s| - 1] as int - '0' as int)
  }

  /** `fmt.Sprintf("%d", n)` for a non-negative `n`: digits only, and no
      leading zero except for zero itself. */
  function DecimalString(n: nat): (r: string)
    ensures |r| >= 1 && AllDigits(r)
    ensures (r[0] == '0') == (n == 0)
  {
    if n < 10 then [DigitChar(n)] else DecimalString(n / 10) + [DigitChar(n % 10)]
  }

  /** Reading back what `%d` wrote gives the number again. */
  lemma {:induction false} DecimalRoundTrip(n: nat)
    ensures DigitsValue(DecimalString(n)) == n
  {
    if n >= 10 {
      DecimalRoundTrip(n / 10);
      var s := DecimalString(n);
      assert s[..|s| - 1] == DecimalString(n / 10);
    }
  }

  /** `%d` writes one digit below 10, two below 100 and three below 1000. */
  lemma DecimalLength(n: nat)
    ensures n < 10 ==> |DecimalString(n)| == 1
    ensures 10 <= n < 100 ==> |DecimalString(n)| == 2
    ensures 100 <= n < 1000 ==> |DecimalString(n)| == 3
  {
    if n >= 10 {
      DecimalLength(n / 10);
    }
  }

  /** The three digits of a number below 1000, hundreds first. */
  function ThreeDigits(n: nat): (r: string)
    requires n < 1000
    ensures |r| == 3 && AllDigits(r)
  {
    [DigitChar(n / 100), DigitChar(n / 10 % 10), DigitChar(n % 10)]
  }

  /** Zeros in front of a digit string do not change its value. */
  lemma {:induction false} LeadingZerosValue(z: string, d: string)
    requires AllDigits(d) && forall i :: 0 <= i < |z| ==> z[i] == '0'
    ensures AllDigits(z + d) && DigitsValue(z + d) == DigitsValue(d)
    decreases |d|
  {
    var zd := z + d;
    assert AllDigits(zd) by {
      forall i | 0 <= i < |zd| ensures IsDigit(zd[i]) {
        if i < |z| { assert zd[i] == z[i]; } else { assert zd[i] == d[i - |z|]; }
      }
    }
    if d == [] {
      assert zd == z;
      ZerosValue(z);
    } else {
      assert zd[..|zd| - 1] == z + d[..|d| - 1];
      LeadingZerosValue(z, d[..|d| - 1]);
    }
  }

  lemma {:induction false} ZerosValue(z: string)
    requires forall i :: 0 <= i < |z| ==> z[i] == '0'
    ensures AllDigits(z) && DigitsValue(z) == 0
    decreases |z|
  {
    if z != [] {
      ZerosValue(z[..|z| - 1]);
    }
  }

  /** `fmt.Sprintf("%03d", n)`: `%d` left-padded with zeros to width three. */
  function ZeroPad3(n: nat): (r: string)
    ensures |r| >= 3 && AllDigits(r)
    ensures n < 1000 ==> |r| == 3
    ensures n >= 100 ==> r == DecimalString(n)
  {
    var d := DecimalString(n);
    DecimalLength(n);
    if |d| >= 3 then d else seq(3 - |d|, _ => '0') + d
  }

  /** `%03d` pads but never cuts: its digits read back as the number. */
  lemma ZeroPad3Value(n: nat)
    ensures DigitsValue(ZeroPad3(n)) == n
  {
    var d := DecimalString(n);
    DecimalRoundTrip(n);
    if |d| < 3 {
      LeadingZerosValue(seq(3 - |d|, _ => '0'), d);
    }
  }

  /** Below 1000, `%03d` writes exactly the three digits of the number. */
  lemma ZeroPad3Digits(n: nat)
    requires n < 1000
    ensures ZeroPad3(n) == ThreeDigits(n)
  {
    if n >= 100 {
      assert DecimalString(n / 10) == [DigitChar(n / 100), DigitChar(n / 10 % 10)];
    } else if n >= 10 {
      assert DecimalString(n) == [DigitChar(n / 10), DigitChar(n % 10)];
    }
  }

  /** `strconv.Atoi(s)` on a 64-bit platform: an optional sign, then one or
      more decimal digits, and a value that fits in an `int`. Any other
      input is an error (`None`). */
  function Atoi(s: string): (r: Option<int>)
    ensures r.Some? ==> MinInt64 <= r.value <= MaxInt64
    ensures s == [] || (s[0] != '+' && s[0] != '-' && !AllDigits(s)) ==> r.None?
    ensures s != [] && AllDigits(s) ==>
      (r.Some? <==> DigitsValue(s) <= MaxInt64) && (r.Some? ==> r.value == DigitsValue(s))
    ensures s != [] && s[0] == '+' ==>
      (r.Some? <==> s[1..] != [] && AllDigits(s[1..]) && DigitsValue(s[1..]) <= MaxInt64)
      && (r.Some? ==> r.value == DigitsValue(s[1..]))
    ensures s != [] && s[0] == '-' ==>
      (r.Some? <==> s[1..] != [] && AllDigits(s[1..]) && DigitsValue(s[1..]) <= -MinInt64)
      && (r.Some? ==> r.value == -(DigitsValue(s[1..]) as int))
  {
    var signed := |s| > 0 && (s[0] == '-' || s[0] == '+');
    var digits := if signed then s[1..] else s;
    if digits == [] || !AllDigits(digits) then None
    else
      var v := if signed && s[0] == '-' then -(DigitsValue(digits) as int) else DigitsValue(digits);
      if MinInt64 <= v <= MaxInt64 then Some(v) else None
  }

  /** `strconv.Atoi` reads back what `strconv.Itoa` wrote, for every
      non-negative `int`. */
  lemma AtoiOfDecimal(n: nat)
    requires n <= MaxInt64
    ensures Atoi(DecimalString(n)) == Some(n)
  {
    DecimalRoundTrip(n);
  }

  /** Leading zeros and a sign in front of them are accepted; a sign alone
      is not. */
  lemma AtoiExamples()
    ensures Atoi("007") == Some(7)
    ensures Atoi("+060") == Some(60)
    ensures Atoi("-0") == Some(0)
    ensures Atoi("+") == None && Atoi("-") == None && Atoi("") == None
    ensures Atoi("6a") == None && Atoi(" 6") == None
  {
    assert "+060"[1..] == "060";
    assert "-0"[1..] == "0";
    assert DigitsValue("0") == 0 by { assert "0"[..0] == []; }
    assert DigitsValue("00") == 0 by { assert "00"[..1] == "0"; }
    assert DigitsValue("06") == 6 by { assert "06"[..1] == "0"; }
    assert DigitsValue("007") == 7 by { assert "007"[..2] == "00"; }
    assert DigitsValue("060") == 60 by { assert "060"[..2] == "06"; }
    assert !AllDigits("6a") by { assert !IsDigit("6a"[1]); }
  }

  /** An explicit sign is accepted in front of the digits. */
  lemma AtoiSigned(n: nat)
    requires n <= MaxInt64
    ensures Atoi("+" + DecimalString(n)) == Some(n)
    ensures Atoi("-" + DecimalString(n)) == Some(-(n as int))
  {
    DecimalRoundTrip(n);
    assert ("+" + DecimalString(n))[1..] == DecimalString(n);
    assert ("-" + DecimalString(n))[1..] == DecimalString(n);
  }
}
