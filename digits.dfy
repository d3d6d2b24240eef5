/** Decimal digit strings: the narrow slice of JavaScript's `parseInt`,
    `Number.prototype.toString` and `String.prototype.padStart` that the
    calculator applies to its two-character fields and results. */
module Digits {

  datatype Option<T> = None | Some(value: T)

  predicate IsDigit(c: char) { '0' <= c <= '9' }

  predicate AllDigits(s: string) { forall i :: 0 <= i < |s| ==> IsDigit(s[i]) }

  function DigitValue(c: char): (d: nat)
    requires IsDigit(c)
    ensures d < 10
  {
    c as int - '0' as int
  }

  function DigitChar(d: nat): (c: char)
    requires d < 10
    ensures IsDigit(c) && DigitValue(c) == d
  {
    ('0' as int + d) as char
  }

  function Pow10(n: nat): (p: nat)
    ensures p >= 1
  {
    if n == 0 then 1 else 10 * Pow10(n - 1)
  }

  /** The value of a digit string read most significant digit first;
      the empty string reads as 0. */
  function DigitsValue(s: string): (v: nat)
    requires AllDigits(s)
    ensures v < Pow10(|s|)
    decreases |s|
  {
    if s == [] then 0
    else
      var v' := DigitsValue(s[..|s| - 1]);
      assert v' * 10 + DigitValue(s[|s| - 1]) < Pow10(|s| - 1) * 10;
      v' * 10 + DigitValue(s[|s| - 1])
  }

  /** `parseInt` on a string of decimal digits: NaN (None) for the empty
      string and for anything that is not a digit string. */
  function ParseDigits(s: string): (r: Option<nat>)
    ensures r.Some? <==> s != [] && AllDigits(s)
    ensures r.Some? ==> r.value < Pow10(|s|)
  {
    if s != [] && AllDigits(s) then Some(DigitsValue(s)) else None
  }

  /** `n.toString()` for a natural number: its shortest decimal spelling. */
  function NatToString(n: nat): (s: string)
    ensures AllDigits(s) && |s| >= 1
    ensures DigitsValue(s) == n
    ensures s[0] != '0' || n == 0
    ensures |s| == 1 <==> n < 10
  {
    var last := [DigitChar(n % 10)];
    if n < 10 then last
    else
      var front := NatToString(n / 10);
      var s := front + last;
      assert s[..|s| - 1] == front;
      s
  }

  /** `s.padStart(width, fill)`: `fill` repeated on the left until the
      string is `width` long; a string already that long is unchanged. */
  function PadStart(s: string, width: nat, fill: char): (r: string)
    ensures |r| == if |s| >= width then |s| else width
    ensures r[|r| - |s|..] == s
    ensures forall i :: 0 <= i < |r| - |s| ==> r[i] == fill
    decreases width - |s|
  {
    if |s| >= width then s
    else
      var r := PadStart([fill] + s, width, fill);
      assert r[|r| - |s|..] == ([fill] + s)[1..];
      r
  }

  predicate AllZeros(z: string) { forall i :: 0 <= i < |z| ==> z[i] == '0' }

  lemma {:induction false} ZerosValue(z: string)
    requires AllZeros(z)
    ensures AllDigits(z) && DigitsValue(z) == 0
  {
    if z != [] {
      ZerosValue(z[..|z| - 1]);
    }
  }

  /** Leading zeros do not change the value of a digit string. */
  lemma {:induction false} LeadingZeros(z: string, s: string)
    requires AllZeros(z) && AllDigits(s)
    ensures AllDigits(z + s) && DigitsValue(z + s) == DigitsValue(s)
  {
    if s == [] {
      assert z + s == z;
      ZerosValue(z);
    } else {
      var t := z + s;
      assert t[..|t| - 1] == z + s[..|s| - 1];
      LeadingZeros(z, s[..|s| - 1]);
    }
  }

  /** Zero-padding a digit string keeps it a digit string of the same value. */
  lemma PadZerosValue(s: string, width: nat)
    requires AllDigits(s)
    ensures var r := PadStart(s, width, '0');
      AllDigits(r) && DigitsValue(r) == DigitsValue(s)
  {
    var r := PadStart(s, width, '0');
    var z := r[..|r| - |s|];
    assert r == z + s;
    LeadingZeros(z, s);
  }

  /** The number of whole tens in `n`, counted by repeated subtraction. */
  function Tens(n: nat): (q: nat)
    ensures 10 * q <= n < 10 * q + 10
  {
    if n < 10 then 0 else 1 + Tens(n - 10)
  }

  /** The units digit of `n`, what is left once the tens are taken away. */
  function Units(n: nat): (u: nat)
    ensures u < 10 && 10 * Tens(n) + u == n
  {
    if n < 10 then n else Units(n - 10)
  }

  /** `n.toString().padStart(2, "0")` for a number below 100, spelled
      directly as its tens and units digits. */
  function TwoDigitString(n: nat): (s: string)
    requires n < 100
    ensures |s| == 2 && AllDigits(s) && DigitsValue(s) == n
  {
    var s := [DigitChar(Tens(n)), DigitChar(Units(n))];
    assert s[..1] == [DigitChar(Tens(n))];
    s
  }

  /** Two-digit strings with the same value are the same string. */
  lemma TwoDigitsUnique(r: string, t: string)
    requires |r| == 2 && |t| == 2 && AllDigits(r) && AllDigits(t)
    requires DigitsValue(r) == DigitsValue(t)
    ensures r == t
  {
    assert r[..1] == [r[0]];
    assert t[..1] == [t[0]];
    assert DigitValue(r[0]) == DigitValue(t[0]);
    assert DigitValue(r[1]) == DigitValue(t[1]);
  }

  /** Padding `n.toString()` to two places and reading it back gives `n`
      again, for every `n` below 100; the padded string is the two-digit
      spelling. */
  lemma FormatNumberRoundTrip(n: nat)
    requires n < 100
    ensures var r := PadStart(NatToString(n), 2, '0');
      |r| == 2 && AllDigits(r) && DigitsValue(r) == n && r == TwoDigitString(n)
  {
    PadZerosValue(NatToString(n), 2);
    TwoDigitsUnique(PadStart(NatToString(n), 2, '0'), TwoDigitString(n));
  }
}
