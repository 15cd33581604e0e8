/** Strings of ASCII decimal digits and the numbers they denote.
    A digit string read as a whole number is big-endian (`NumberValue("120") == 120`). */
module Digits {

  /** The characters matched by `\d` in a JavaScript regular expression. */
  predicate IsDigit(c: char) {
    '0' <= c <= '9'
  }

  predicate AllDigits(s: string) {
    forall i :: 0 <= i < |s| ==> IsDigit(s[i])
  }

  function DigitValue(c: char): (d: nat)
    requires IsDigit(c)
    ensures d < 10
  {
    c as int - '0' as int
  }

  function Pow10(k: nat): (p: nat)
    ensures p >= 1
  {
    if k == 0 then 1 else 10 * Pow10(k - 1)
  }

  /** The whole number written by `s`, most significant digit first. */
  function NumberValue(s: string): nat
    requires AllDigits(s)
  {
    if s == [] then 0 else NumberValue(s[..|s| - 1]) * 10 + DigitValue(s[|s| - 1])
  }

  /** `10^k` as a real number. */
  function RealPow10(k: nat): (p: real)
    ensures p >= 1.0
  {
    if k == 0 then 1.0 else 10.0 * RealPow10(k - 1)
  }

  lemma {:induction false} RealPow10IsPow10(k: nat)
    ensures RealPow10(k) == Pow10(k) as real
  {
    if k > 0 {
      RealPow10IsPow10(k - 1);
      RealOfProduct(10, Pow10(k - 1));
    }
  }

  lemma RealOfProduct(x: int, y: int)
    ensures (x * y) as real == x as real * y as real
  {
  }

  /** A string of `n` zero digits. */
  function Zeros(n: nat): (z: string)
    ensures |z| == n && AllDigits(z)
  {
    seq(n, _ => '0')
  }

  lemma {:induction false} AllDigitsConcat(a: string, b: string)
    ensures AllDigits(a + b) <==> AllDigits(a) && AllDigits(b)
  {
    if AllDigits(a) && AllDigits(b) {
      forall i | 0 <= i < |a + b| ensures IsDigit((a + b)[i]) {
        if i < |a| { assert (a + b)[i] == a[i]; } else { assert (a + b)[i] == b[i - |a|]; }
      }
    }
    if AllDigits(a + b) {
      forall i | 0 <= i < |a| ensures IsDigit(a[i]) { assert (a + b)[i] == a[i]; }
      forall i | 0 <= i < |b| ensures IsDigit(b[i]) { assert (a + b)[|a| + i] == b[i]; }
    }
  }

  /** Writing `w` in front of `f` shifts `w` left by `|f|` decimal places. */
  lemma {:induction false} NumberValueConcat(w: string, f: string)
    requires AllDigits(w) && AllDigits(f)
    ensures AllDigits(w + f)
    ensures NumberValue(w + f) == NumberValue(w) * Pow10(|f|) + NumberValue(f)
  {
    AllDigitsConcat(w, f);
    if f == [] {
      assert w + f == w;
    } else {
      var f' := f[..|f| - 1];
      AllDigitsConcat(f', [f[|f| - 1]]);
      assert f == f' + [f[|f| - 1]];
      assert (w + f)[..|w + f| - 1] == w + f';
      NumberValueConcat(w, f');
      var a, q, b, c := NumberValue(w), Pow10(|f'|), NumberValue(f'), DigitValue(f[|f| - 1]);
      assert NumberValue(w + f) == NumberValue(w + f') * 10 + c;
      assert NumberValue(f) == b * 10 + c;
      assert Pow10(|f|) == 10 * q;
      ShiftLeft(a, q, b, c);
    }
  }

  /** The arithmetic step of `NumberValueConcat`. */
  lemma ShiftLeft(a: int, q: int, b: int, c: int)
    ensures (a * q + b) * 10 + c == a * (10 * q) + (b * 10 + c)
  {
  }

  /** Leading zeros do not change a whole number. */
  lemma NumberValueLeadingZero(s: string)
    requires AllDigits(s)
    ensures AllDigits("0" + s) && NumberValue("0" + s) == NumberValue(s)
  {
    NumberValueConcat("0", s);
  }

  lemma {:induction false} NumberValueZeros(n: nat)
    ensures NumberValue(Zeros(n)) == 0
  {
    if n > 0 {
      assert Zeros(n)[..n - 1] == Zeros(n - 1);
      NumberValueZeros(n - 1);
    }
  }

  /** Appending `m` zeros multiplies a whole number by `10^m`. */
  lemma NumberValuePadded(s: string, m: nat)
    requires AllDigits(s)
    ensures AllDigits(s + Zeros(m)) && NumberValue(s + Zeros(m)) == NumberValue(s) * Pow10(m)
  {
    NumberValueConcat(s, Zeros(m));
    NumberValueZeros(m);
  }

  lemma {:induction false} Pow10Add(i: nat, j: nat)
    ensures Pow10(i + j) == Pow10(i) * Pow10(j)
  {
    if j > 0 {
      Pow10Add(i, j - 1);
      MulLeftCommute(10, Pow10(i), Pow10(j - 1));
    }
  }

  lemma Pow10Split(k: nat, j: nat)
    requires j <= k
    ensures Pow10(k - j) * Pow10(j) == Pow10(k)
  {
    Pow10Add(k - j, j);
  }

  lemma {:induction false} Pow10Monotone(i: nat, j: nat)
    requires i <= j
    ensures Pow10(i) <= Pow10(j)
  {
    if i < j {
      Pow10Monotone(i, j - 1);
    }
  }

  /** A digit string of length `n` is below `10^n`, and at least `10^(n-1)` when it does
      not start with a zero. */
  lemma {:induction false} NumberValueBounds(s: string)
    requires AllDigits(s)
    ensures NumberValue(s) < Pow10(|s|)
    ensures s != [] && s[0] != '0' ==> NumberValue(s) >= Pow10(|s| - 1)
  {
    if s != [] {
      var s' := s[..|s| - 1];
      NumberValueBounds(s');
      if |s| > 1 {
        assert s'[0] == s[0];
      }
    }
  }

  lemma MulLeftCommute(a: int, b: int, c: int)
    ensures a * (b * c) == b * (a * c)
  {
  }
}
