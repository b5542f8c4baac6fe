/** Shared numeric vocabulary: an optional value, JavaScript numbers as seen at the
    display boundary, integer powers over the reals, and decimal digits. */
module Numbers {

  /** The conventional Some/None datatype, used where the source passes an
      optional argument or reads an optional field. */
  datatype Option<+T> = None | Some(value: T)

  /** A JavaScript number. The engine computes over exact reals; only when a
      result is handed to a formatter is it one of these, because the source
      encodes "no IRR" as NaN and "never pays back" as +Infinity. */
  datatype Num = Finite(value: real) | NaN | PosInf | NegInf

  /** The em dash shown in place of a non-finite number. */
  const EmDash: string := "\U{2014}"

  function Abs(x: real): (r: real)
    ensures r >= 0.0
    ensures r == x || r == -x
  {
    if x < 0.0 then -x else x
  }

  /** `Math.pow(x, n)` for a natural exponent. */
  function Pow(x: real, n: nat): (r: real)
    ensures x > 0.0 ==> r > 0.0
    ensures x != 0.0 ==> r != 0.0
  {
    if n == 0 then 1.0 else x * Pow(x, n - 1)
  }

  /** Raising a larger positive base to the same power gives a larger value. */
  lemma {:induction false} PowMonotoneBase(x: real, y: real, n: nat)
    requires 0.0 < x <= y
    ensures Pow(x, n) <= Pow(y, n)
  {
    if n > 0 {
      PowMonotoneBase(x, y, n - 1);
      MulMonotone(x, Pow(x, n - 1), y, Pow(y, n - 1));
    }
  }

  /** Product of non-negative factors is monotone in both factors. */
  lemma MulMonotone(a: real, b: real, c: real, d: real)
    requires 0.0 <= a <= c
    requires 0.0 <= b <= d
    ensures a * b <= c * d
  {
    assert a * b <= c * b;
    assert c * b <= c * d;
  }

  /** Pow(2, n) grows at least linearly. */
  lemma {:induction false} PowTwoAtLeast(n: nat)
    ensures Pow(2.0, n) >= (n + 1) as real
  {
    if n > 0 {
      PowTwoAtLeast(n - 1);
    }
  }

  /** Dividing a non-negative amount by a larger positive divisor never gives more. */
  lemma DivAntitone(x: real, p: real, q: real)
    requires x >= 0.0
    requires 0.0 < p <= q
    ensures x / q <= x / p
  {
    var a, b := x / p, x / q;
    assert a * p == x && b * q == x;
    assert a >= 0.0;
    MulMonotone(a, p, a, q);
    assert b * q <= a * q;
  }

  function DigitChar(d: nat): (c: char)
    requires d < 10
    ensures '0' <= c <= '9'
    ensures c as int - '0' as int == d
  {
    ['0', '1', '2', '3', '4', '5', '6', '7', '8', '9'][d]
  }

  /** Decimal rendering of a natural number, as `Number.prototype.toString`
      gives it for integers. */
  function NatToString(n: nat): (s: string)
    ensures |s| >= 1
    ensures forall i :: 0 <= i < |s| ==> '0' <= s[i] <= '9'
    ensures n < 10 ==> s == [DigitChar(n)]
  {
    if n < 10 then [DigitChar(n)] else NatToString(n / 10) + [DigitChar(n % 10)]
  }

  /** The number a string of decimal digits denotes, most significant first. */
  function DigitsValue(s: string): int
  {
    if |s| == 0 then 0 else 10 * DigitsValue(s[..|s| - 1]) + (s[|s| - 1] as int - '0' as int)
  }

  /** Reading the digits back gives the number: the rendering is faithful. */
  lemma {:induction false} NatToStringRoundTrip(n: nat)
    ensures DigitsValue(NatToString(n)) == n
  {
    if n >= 10 {
      NatToStringRoundTrip(n / 10);
      var s := NatToString(n);
      assert s[..|s| - 1] == NatToString(n / 10);
    }
  }
}
