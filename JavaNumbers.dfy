/**
 * Integer.parseInt and Long.parseLong over ASCII decimal text, and the
 * decimal rendering of an integer that they invert.
 */
module JavaNumbers {
  import opened Options

  const IntMin: int := -0x8000_0000
  const IntMax: int := 0x7FFF_FFFF
  const LongMin: int := -0x8000_0000_0000_0000
  const LongMax: int := 0x7FFF_FFFF_FFFF_FFFF

  predicate IsDigit(c: char) {
    '0' <= c <= '9'
  }

  predicate AllDigits(s: string) {
    forall i :: 0 <= i < |s| ==> IsDigit(s[i])
  }

  function DigitValue(c: char): (d: nat)
    requires IsDigit(c)
  {
    c as int - '0' as int
  }

  function DigitChar(d: nat): (c: char)
    requires d < 10
  {
    ('0' as int + d) as char
  }

  /** The number a string of decimal digits denotes (leading zeros allowed). */
  function DigitsValue(s: string): (v: nat)
    requires AllDigits(s)
  {
    if s == [] then 0 else 10 * DigitsValue(s[..|s| - 1]) + DigitValue(s[|s| - 1])
  }

  /** An optional '+' or '-' followed by at least one decimal digit, and nothing else. */
  predicate DecimalText(s: string) {
    |s| > 0 && (IsDigit(s[0]) || (|s| >= 2 && (s[0] == '+' || s[0] == '-'))) && AllDigits(s[1..])
  }

  /** The number a decimal text denotes; leading zeros and a '+' change nothing. */
  function DecimalValue(s: string): (v: int)
    requires DecimalText(s)
    ensures s[0] == '-' ==> v <= 0
    ensures s[0] != '-' ==> v >= 0
  {
    var tail: int := DigitsValue(s[1..]);
    if s[0] == '-' then -tail
    else if s[0] == '+' then tail
    else DigitsValue([s[0]]) * Pow10(|s| - 1) + tail
  }

  function Pow10(k: nat): (p: nat)
    ensures p >= 1
  {
    if k == 0 then 1 else 10 * Pow10(k - 1)
  }

  lemma ScaleTen(d: int, p: int)
    ensures d * (10 * p) == 10 * (d * p)
  {
  }

  /** Reading digits from the end agrees with reading the leading digit at its place value. */
  lemma {:induction false} DigitsValueSplit(s: string)
    requires |s| > 0 && AllDigits(s)
    ensures DigitsValue(s) == DigitsValue([s[0]]) * Pow10(|s| - 1) + DigitsValue(s[1..])
  {
    if |s| > 1 {
      var t := s[..|s| - 1];
      DigitsValueSplit(t);
      var u := s[1..];
      var last := DigitValue(s[|s| - 1]);
      assert t[0] == s[0];
      assert u[..|u| - 1] == t[1..] && u[|u| - 1] == s[|s| - 1];
      assert DigitsValue(s) == 10 * DigitsValue(t) + last;
      assert DigitsValue(u) == 10 * DigitsValue(t[1..]) + last;
      var d, p := DigitsValue([s[0]]), Pow10(|t| - 1);
      assert Pow10(|s| - 1) == 10 * p;
      ScaleTen(d, p);
    }
  }

  /**
   * Parses an optional '+' or '-' followed by at least one decimal digit,
   * and accepts the value only within [lo, hi]. `None` stands for the
   * NumberFormatException: empty text, a sign alone, any other character
   * (spaces included) or a value out of range.
   */
  function ParseDecimal(s: string, lo: int, hi: int): (r: Option<int>)
    ensures r.Some? <==> DecimalText(s) && lo <= DecimalValue(s) <= hi
    ensures r.Some? ==> r.value == DecimalValue(s)
  {
    if |s| == 0 then None
    else
      var signed := s[0] == '-' || s[0] == '+';
      var digits := if signed then s[1..] else s;
      if |digits| == 0 || !AllDigits(digits) then None
      else
        var magnitude: int := DigitsValue(digits);
        var v: int := if s[0] == '-' then -magnitude else magnitude;
        assert !signed ==> v == DecimalValue(s) by {
          if !signed { DigitsValueSplit(s); }
        }
        if lo <= v <= hi then Some(v) else None
  }

  /** Integer.parseInt. */
  function ParseInt(s: string): (r: Option<int>)
    ensures r.Some? ==> IntMin <= r.value <= IntMax
  {
    ParseDecimal(s, IntMin, IntMax)
  }

  /** Long.parseLong. */
  function ParseLong(s: string): (r: Option<int>)
    ensures r.Some? ==> LongMin <= r.value <= LongMax
  {
    ParseDecimal(s, LongMin, LongMax)
  }

  /** The decimal digits of `n`, without leading zeros. */
  function ShowNat(n: nat): (r: string)
    ensures |r| > 0 && AllDigits(r)
  {
    if n < 10 then [DigitChar(n)] else ShowNat(n / 10) + [DigitChar(n % 10)]
  }

  /** Integer.toString / Long.toString. */
  function ShowInt(n: int): (r: string)
    ensures |r| > 0
  {
    if n < 0 then "-" + ShowNat(-n) else ShowNat(n)
  }

  lemma {:induction false} DigitsOfShowNat(n: nat)
    ensures DigitsValue(ShowNat(n)) == n
  {
    var r := ShowNat(n);
    if n >= 10 {
      DigitsOfShowNat(n / 10);
      assert r[..|r| - 1] == ShowNat(n / 10);
    }
  }

  /**
   * Parsing the decimal rendering of a number gives the number back
   * exactly when it lies within the range.
   */
  lemma ParseShowInt(n: int, lo: int, hi: int)
    ensures ParseDecimal(ShowInt(n), lo, hi) == if lo <= n <= hi then Some(n) else None
  {
    var s := ShowInt(n);
    if n < 0 {
      DigitsOfShowNat(-n);
      assert s[0] == '-' && s[1..] == ShowNat(-n);
      assert DecimalText(s) && DecimalValue(s) == n;
    } else {
      DigitsOfShowNat(n);
      UnsignedValue(s);
    }
  }

  /** `k` zero digits. */
  function Zeros(k: nat): (r: string)
    ensures |r| == k && AllDigits(r)
  {
    if k == 0 then "" else Zeros(k - 1) + "0"
  }

  lemma {:induction false} ZerosValue(k: nat)
    ensures DigitsValue(Zeros(k)) == 0
  {
    if k > 0 {
      ZerosValue(k - 1);
      assert Zeros(k)[..k - 1] == Zeros(k - 1);
    }
  }

  /** Leading zeros do not change the number a digit string denotes. */
  lemma {:induction false} LeadingZeros(k: nat, s: string)
    requires AllDigits(s)
    ensures AllDigits(Zeros(k) + s) && DigitsValue(Zeros(k) + s) == DigitsValue(s)
  {
    var t := Zeros(k) + s;
    assert AllDigits(t) by {
      forall i | 0 <= i < |t| ensures IsDigit(t[i]) {
        if i >= k { assert t[i] == s[i - k]; }
      }
    }
    if s == [] {
      assert t == Zeros(k);
      ZerosValue(k);
    } else {
      LeadingZeros(k, s[..|s| - 1]);
      assert t[..|t| - 1] == Zeros(k) + s[..|s| - 1];
      assert t[|t| - 1] == s[|s| - 1];
    }
  }

  /** Leading zeros before the digits of n are accepted: "007" is 7, within range. */
  lemma ParsePaddedUnsigned(k: nat, n: nat, lo: int, hi: int)
    ensures ParseDecimal(Zeros(k) + ShowNat(n), lo, hi) == if lo <= n <= hi then Some(n) else None
  {
    var digits := Zeros(k) + ShowNat(n);
    LeadingZeros(k, ShowNat(n));
    DigitsOfShowNat(n);
    UnsignedValue(digits);
    ParseOfText(digits, lo, hi);
  }

  /**
   * A '+' or '-' before zero-padded digits of n is accepted: the text
   * denotes n, negated after '-', and parses to it within range (so
   * "+007" is 7 and "-0" is 0).
   */
  lemma ParsePaddedSigned(c: char, k: nat, n: nat, lo: int, hi: int)
    requires c == '+' || c == '-'
    ensures var v: int := if c == '-' then -(n as int) else n;
      ParseDecimal([c] + (Zeros(k) + ShowNat(n)), lo, hi) == if lo <= v <= hi then Some(v) else None
  {
    var digits := Zeros(k) + ShowNat(n);
    LeadingZeros(k, ShowNat(n));
    DigitsOfShowNat(n);
    SignedValue(c, digits);
    ParseOfText([c] + digits, lo, hi);
  }

  /** A well-formed text parses to its value exactly when that is in range. */
  lemma ParseOfText(s: string, lo: int, hi: int)
    requires DecimalText(s)
    ensures ParseDecimal(s, lo, hi) == if lo <= DecimalValue(s) <= hi then Some(DecimalValue(s)) else None
  {
  }

  /** A sign before a digit string negates it after '-' and keeps it after '+'. */
  lemma SignedValue(c: char, digits: string)
    requires c == '+' || c == '-'
    requires |digits| > 0 && AllDigits(digits)
    ensures DecimalText([c] + digits)
    ensures DecimalValue([c] + digits) == if c == '-' then -(DigitsValue(digits) as int) else DigitsValue(digits)
  {
    var s := [c] + digits;
    assert s[0] == c && s[1..] == digits;
  }

  /** A text of digits alone denotes the number its digits spell. */
  lemma UnsignedValue(s: string)
    requires |s| > 0 && AllDigits(s)
    ensures DecimalText(s) && DecimalValue(s) == DigitsValue(s)
  {
    DigitsValueSplit(s);
  }

  /** Values within the 32-bit range survive Integer.toString then Integer.parseInt. */
  lemma ParseIntRoundTrip(n: int)
    requires IntMin <= n <= IntMax
    ensures ParseInt(ShowInt(n)) == Some(n)
  {
    ParseShowInt(n, IntMin, IntMax);
  }

  /** Values within the 64-bit range survive Long.toString then Long.parseLong. */
  lemma ParseLongRoundTrip(n: int)
    requires LongMin <= n <= LongMax
    ensures ParseLong(ShowInt(n)) == Some(n)
  {
    ParseShowInt(n, LongMin, LongMax);
  }
}
