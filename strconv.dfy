/**
 * Number parsing in the place of Go's `strconv`. Amounts of money are exact
 * integer cents rather than `float64` values; integers are range-checked the
 * way `strconv.ParseInt(s, 10, bitSize)` checks them.
 */
module Strconv {
  import opened Wrappers
  import opened Text

  predicate IsDigit(b: byte)
  {
    '0' as byte <= b <= '9' as byte
  }

  predicate AllDigits(s: Bytes)
  {
    forall i :: 0 <= i < |s| ==> IsDigit(s[i])
  }

  /** The decimal value of a string of digits (0 for the empty string). */
  function DecimalValue(s: Bytes): (n: nat)
    requires AllDigits(s)
  {
    if s == [] then 0
    else DecimalValue(s[..|s| - 1]) * 10 + (s[|s| - 1] - '0' as byte) as int
  }

  /** One more digit shifts the value by a decimal place. */
  lemma DecimalValueAppend(s: Bytes, b: byte)
    requires AllDigits(s) && IsDigit(b)
    ensures DecimalValue(s + [b]) == DecimalValue(s) * 10 + (b - '0' as byte) as int
  {
    assert (s + [b])[..|s|] == s;
  }

  /** The shortest decimal spelling of `n`. */
  function Decimal(n: nat): (s: Bytes)
    ensures |s| >= 1 && AllDigits(s)
  {
    if n < 10 then ['0' as byte + n as byte]
    else Decimal(n / 10) + ['0' as byte + (n % 10) as byte]
  }

  lemma {:induction false} DecimalValueOfDecimal(n: nat)
    ensures DecimalValue(Decimal(n)) == n
  {
    if n >= 10 {
      var s := Decimal(n);
      assert s[..|s| - 1] == Decimal(n / 10);
      DecimalValueOfDecimal(n / 10);
    }
  }

  /**
   * `strconv.ParseFloat(s, 64)` on a plain decimal amount, as integer cents:
   * digits, optionally followed by '.' and at most two fractional digits, with
   * at least one digit in all. Every other spelling is an error here.
   */
  function ParseCents(s: Bytes): (r: Option<nat>)
    ensures r.Some? ==> s != [] && forall i :: 0 <= i < |s| ==> IsDigit(s[i]) || s[i] == '.' as byte
  {
    if '.' as byte !in s then
      if s != [] && AllDigits(s) then Some(DecimalValue(s) * 100) else None
    else
      var i := IndexOf(s, '.' as byte);
      var whole, frac := s[..i], s[i + 1..];
      if AllDigits(whole) && AllDigits(frac) && |frac| <= 2 && |whole| + |frac| >= 1 then
        Some(DecimalValue(whole) * 100 + DecimalValue(frac) * (if |frac| == 1 then 10 else 1))
      else None
  }

  /** The canonical spelling of an amount: dollars, '.', two digits of cents. */
  function FormatCents(c: nat): (s: Bytes)
  {
    Decimal(c / 100) + ['.' as byte, '0' as byte + (c % 100 / 10) as byte, '0' as byte + (c % 10) as byte]
  }

  /** Parsing the canonical spelling of an amount gives the amount back. */
  lemma FormatCentsRoundTrip(c: nat)
    ensures ParseCents(FormatCents(c)) == Some(c)
  {
    var d := Decimal(c / 100);
    var frac: Bytes := ['0' as byte + (c % 100 / 10) as byte, '0' as byte + (c % 10) as byte];
    var s := FormatCents(c);
    assert s == d + ['.' as byte] + frac;
    FirstDotAfterDigits(d, frac);
    assert s[..|d|] == d && s[|d| + 1..] == frac;
    DecimalValueOfDecimal(c / 100);
    TwoDigitValue(c % 100);
  }

  /** In digits followed by '.', the first '.' is the one after the digits. */
  lemma FirstDotAfterDigits(d: Bytes, rest: Bytes)
    requires AllDigits(d)
    ensures IndexOf(d + ['.' as byte] + rest, '.' as byte) == |d|
  {
    var s := d + ['.' as byte] + rest;
    assert s[..|d|] == d;
    IndexOfFirst(s, '.' as byte, |d|);
  }

  lemma TwoDigitValue(x: nat)
    requires x < 100
    ensures DecimalValue(['0' as byte + (x / 10) as byte, '0' as byte + (x % 10) as byte]) == x
  {
    var frac: Bytes := ['0' as byte + (x / 10) as byte, '0' as byte + (x % 10) as byte];
    assert frac[..1] == [frac[0]] && frac[..1][..0] == [];
    assert DecimalValue(frac[..1]) == x / 10;
    assert (frac[1] - '0' as byte) as int == x % 10;
  }

  /** The range of a signed integer of `bits` bits. */
  predicate InSignedRange(n: int, bits: nat)
    requires bits >= 1
  {
    var half: int := Pow2(bits - 1);
    -half <= n < half
  }

  function Pow2(k: nat): (p: nat)
    ensures p >= 1
  {
    if k == 0 then 1 else 2 * Pow2(k - 1)
  }

  /**
   * `strconv.ParseInt(s, 10, bits)`: an optional '+' or '-', then one or more
   * digits, and the value must fit a signed integer of `bits` bits.
   */
  function ParseInt(s: Bytes, bits: nat): (r: Option<int>)
    requires bits >= 1
    ensures r.Some? ==> InSignedRange(r.value, bits)
  {
    var negative := s != [] && s[0] == '-' as byte;
    var digits := if s != [] && (s[0] == '-' as byte || s[0] == '+' as byte) then s[1..] else s;
    if digits == [] || !AllDigits(digits) then None
    else
      var n: int := if negative then -(DecimalValue(digits) as int) else DecimalValue(digits);
      if InSignedRange(n, bits) then Some(n) else None
  }

  /** Any digit string whose value is in range parses to that value; leading zeros are allowed. */
  lemma ParseIntOfDigits(d: Bytes, bits: nat)
    requires bits >= 1 && d != [] && AllDigits(d) && InSignedRange(DecimalValue(d), bits)
    ensures ParseInt(d, bits) == Some(DecimalValue(d) as int)
  {
    assert IsDigit(d[0]);
  }
}
