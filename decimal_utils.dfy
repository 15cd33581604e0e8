/** The amount-formatting utilities of the transfer form: the per-currency precision
    check on amount strings, the exact "greater or equal" comparison of two amounts,
    and the hint string that shows the expected format. */
module DecimalUtils {
  import opened Digits

  // ---------------------------------------------------------------------------
  // checkDecimalPrecision
  // ---------------------------------------------------------------------------

  /** A non-empty string matched by the anchored pattern `^(\d+\.\d{precision})?$`:
      one or more ASCII digits, one point, then exactly `precision` ASCII digits. */
  ghost predicate FixedPointAmount(value: string, precision: nat) {
    exists i ::
      && 0 < i < |value|
      && value[i] == '.'
      && AllDigits(value[..i])
      && AllDigits(value[i + 1..])
      && |value| - (i + 1) == precision
  }

  /** The precision check. For a positive precision the source compiles
      `^(\d+\.\d{precision})?$`, whose whole body is optional, so the empty string is
      accepted too. For precision 0 (also the default) it compiles the string
      `/^d+(.d+)?$/` as a pattern: a match would have to consume a literal `/` and then
      stand at the start of the input, which no position does, so nothing is accepted. */
  function CheckDecimalPrecision(value: string, precision: nat := 0): (r: bool)
    ensures r <==> precision > 0 && (value == "" || FixedPointAmount(value, precision))
  {
    if precision > 0 then
      var point := |value| - precision - 1;
      value == "" || (0 < point && value[point] == '.' && AllDigits(value[..point]) && AllDigits(value[point + 1..]))
    else
      false
  }

  /** With precision 0, given or defaulted, every value is rejected, the empty one included. */
  lemma ZeroPrecisionRejectsEverything(value: string)
    ensures !CheckDecimalPrecision(value) && !CheckDecimalPrecision(value, 0)
  {
  }

  /** An accepted non-empty amount is a decimal literal with exactly `precision`
      fraction digits, and its point is the only non-digit in it. */
  lemma AcceptedAmountIsDecimalLiteral(value: string, precision: nat)
    requires CheckDecimalPrecision(value, precision) && value != ""
    ensures IsDecimalLiteral(value) && Scale(value) == precision
    ensures DotIndex(value) == |value| - precision - 1
    ensures forall j :: 0 <= j < |value| && j != |value| - precision - 1 ==> IsDigit(value[j])
  {
    var point := |value| - precision - 1;
    DotIndexAt(value, point);
    forall j | 0 <= j < |value| && j != point ensures IsDigit(value[j]) {
      if j < point {
        assert value[..point][j] == value[j];
      } else {
        assert value[point + 1..][j - point - 1] == value[j];
      }
    }
  }

  lemma CheckDecimalPrecisionExamples()
    ensures CheckDecimalPrecision("1000.000", 3)
    ensures CheckDecimalPrecision("", 3)
    ensures !CheckDecimalPrecision("1.5", 3)
    ensures !CheckDecimalPrecision("12", 2)
    ensures !CheckDecimalPrecision("-1.000", 3)
    ensures !CheckDecimalPrecision(" 1.000", 3)
    ensures !CheckDecimalPrecision(".000", 3)
    ensures !CheckDecimalPrecision("12.34")
    ensures !CheckDecimalPrecision("")
  {
    assert "1000.000"[..4] == "1000";
    assert "1000.000"[5..] == "000";
    assert !IsDigit("-1.000"[0]);
    assert !IsDigit(" 1.000"[0]);
  }

  // ---------------------------------------------------------------------------
  // isFirstGreater
  // ---------------------------------------------------------------------------

  /** The position of the first point in `s`, or `|s|` if there is none. */
  function DotIndex(s: string): (i: nat)
    ensures i <= |s|
    ensures forall j :: 0 <= j < i ==> s[j] != '.'
    ensures i < |s| ==> s[i] == '.'
  {
    if s == [] || s[0] == '.' then 0 else 1 + DotIndex(s[1..])
  }

  lemma DotIndexAt(s: string, i: nat)
    requires i < |s| && s[i] == '.' && AllDigits(s[..i])
    ensures DotIndex(s) == i
  {
  }

  /** The amounts the comparison accepts: `\d+(\.\d*)?`, one or more digits optionally
      followed by a point and zero or more digits. These are the unsigned, exponent-free
      literals of the decimal library. */
  predicate IsDecimalLiteral(s: string) {
    var i := DotIndex(s);
    0 < i && AllDigits(s[..i]) && (i == |s| || AllDigits(s[i + 1..]))
  }

  /** The digits before the point. */
  function WholeDigits(s: string): (w: string)
    requires IsDecimalLiteral(s)
    ensures AllDigits(w) && w != []
  {
    s[..DotIndex(s)]
  }

  /** The digits after the point (none when there is no point). */
  function FractionDigits(s: string): (f: string)
    requires IsDecimalLiteral(s)
    ensures AllDigits(f)
  {
    var i := DotIndex(s);
    if i == |s| then "" else s[i + 1..]
  }

  function Scale(s: string): nat
    requires IsDecimalLiteral(s)
  {
    |FractionDigits(s)|
  }

  /** The amount `s` written with `k` fraction digits (padding with zeros) and read
      without its point: the amount counted in units of `10^-k`. */
  function AtScale(s: string, k: nat): nat
    requires IsDecimalLiteral(s) && Scale(s) <= k
  {
    var w, f, z := WholeDigits(s), FractionDigits(s), Zeros(k - Scale(s));
    AllDigitsConcat(w, f);
    AllDigitsConcat(w + f, z);
    NumberValue(w + f + z)
  }

  /** The digits of `s` without its point: `s` is this number times `10^-Scale(s)`. */
  function Coefficient(s: string): nat
    requires IsDecimalLiteral(s)
  {
    AtScale(s, Scale(s))
  }

  function Max(a: nat, b: nat): nat {
    if a >= b then a else b
  }

  /** The exact meaning of an amount: its whole part plus its fraction digits read as
      tenths, hundredths, and so on. */
  function ExactValue(s: string): real
    requires IsDecimalLiteral(s)
  {
    NumberValue(WholeDigits(s)) as real + NumberValue(FractionDigits(s)) as real / RealPow10(Scale(s))
  }

  /** The comparison, named after the source although it holds when the first amount is
      greater than OR EQUAL to the second. The decimal library compares the amounts
      exactly; here they are compared by cross-multiplying their coefficients with each
      other's powers of ten. Equivalently, written with the same number of fraction
      digits, the first amount is the larger or equal whole number. */
  function IsFirstGreater(first: string, second: string): (r: bool)
    requires IsDecimalLiteral(first) && IsDecimalLiteral(second)
    ensures var k := Max(Scale(first), Scale(second));
            r <==> AtScale(first, k) >= AtScale(second, k)
  {
    CrossMultiplyIsAligned(first, second, Max(Scale(first), Scale(second)));
    Coefficient(first) * Pow10(Scale(second)) >= Coefficient(second) * Pow10(Scale(first))
  }

  /** Writing an amount with `d` more fraction digits multiplies its count by `10^d`. */
  lemma AtScaleShift(s: string, k: nat)
    requires IsDecimalLiteral(s) && Scale(s) <= k
    ensures AtScale(s, k) == Coefficient(s) * Pow10(k - Scale(s))
  {
    var w, f := WholeDigits(s), FractionDigits(s);
    AllDigitsConcat(w, f);
    assert w + f + Zeros(0) == w + f;
    NumberValuePadded(w + f, k - Scale(s));
  }

  lemma CrossMultiplyIsAligned(a: string, b: string, k: nat)
    requires IsDecimalLiteral(a) && IsDecimalLiteral(b) && Scale(a) <= k && Scale(b) <= k
    ensures Coefficient(a) * Pow10(Scale(b)) >= Coefficient(b) * Pow10(Scale(a))
            <==> AtScale(a, k) >= AtScale(b, k)
  {
    var ka, kb := Scale(a), Scale(b);
    Pow10Split(k, ka);
    Pow10Split(k, kb);
    AtScaleShift(a, k);
    AtScaleShift(b, k);
    CrossScale(Coefficient(a), Coefficient(b), Pow10(ka), Pow10(kb), Pow10(k - ka), Pow10(k - kb), Pow10(k),
               AtScale(a, k), AtScale(b, k));
  }

  /** The arithmetic of `CrossMultiplyIsAligned`: with `qa * pa == qb * pb == p > 0`,
      comparing `ca * pb` with `cb * pa` is comparing `ca * qa` with `cb * qb`. */
  lemma CrossScale(ca: int, cb: int, pa: int, pb: int, qa: int, qb: int, p: int, xa: int, xb: int)
    requires pa > 0 && pb > 0 && qa > 0 && qa * pa == p && qb * pb == p
    requires xa == ca * qa && xb == cb * qb
    ensures ca * pb >= cb * pa <==> xa >= xb
  {
  }

  /** The comparison agrees with comparing the two amounts written with any common
      number of fraction digits. */
  lemma IsFirstGreaterAtAnyScale(a: string, b: string, k: nat)
    requires IsDecimalLiteral(a) && IsDecimalLiteral(b) && Scale(a) <= k && Scale(b) <= k
    ensures IsFirstGreater(a, b) <==> AtScale(a, k) >= AtScale(b, k)
  {
    CrossMultiplyIsAligned(a, b, k);
  }

  /** Counting in units of `10^-k` and dividing by `10^k` gives back the exact value. */
  lemma ExactValueAtScale(s: string, k: nat)
    requires IsDecimalLiteral(s) && Scale(s) <= k
    ensures ExactValue(s) == AtScale(s, k) as real / RealPow10(k)
  {
    var w, f := WholeDigits(s), FractionDigits(s);
    assert Coefficient(s) == NumberValue(w) * Pow10(|f|) + NumberValue(f) by {
      NumberValueConcat(w, f);
      assert w + f + Zeros(0) == w + f;
    }
    AtScaleShift(s, k);
    Pow10Split(k, |f|);
    RealPow10IsPow10(|f|);
    RealPow10IsPow10(k);
    ExactStep(NumberValue(w), NumberValue(f), Pow10(|f|), Pow10(k - |f|), Pow10(k), AtScale(s, k),
              RealPow10(|f|), RealPow10(k));
  }

  /** The arithmetic of `ExactValueAtScale`: `w + f / 10^j == ((w * 10^j + f) * 10^(k-j)) / 10^k`. */
  lemma ExactStep(w: nat, f: nat, pj: nat, q: nat, pk: nat, count: nat, rj: real, rk: real)
    requires pj > 0 && q > 0 && count == (w * pj + f) * q && pk == q * pj
    requires rj == pj as real && rk == pk as real
    ensures w as real + f as real / rj == count as real / rk
  {
  }

  /** The comparison is exact: it holds precisely when the first amount's value is at
      least the second's. */
  lemma IsFirstGreaterIsExact(a: string, b: string)
    requires IsDecimalLiteral(a) && IsDecimalLiteral(b)
    ensures IsFirstGreater(a, b) <==> ExactValue(a) >= ExactValue(b)
  {
    var k := Max(Scale(a), Scale(b));
    ExactValueAtScale(a, k);
    ExactValueAtScale(b, k);
    DivPreservesOrder(AtScale(a, k) as real, AtScale(b, k) as real, RealPow10(k));
  }

  lemma DivPreservesOrder(x: real, y: real, d: real)
    requires d > 0.0
    ensures x >= y <==> x / d >= y / d
  {
  }

  lemma IsFirstGreaterReflexive(a: string)
    requires IsDecimalLiteral(a)
    ensures IsFirstGreater(a, a)
  {
  }

  lemma IsFirstGreaterTotal(a: string, b: string)
    requires IsDecimalLiteral(a) && IsDecimalLiteral(b)
    ensures IsFirstGreater(a, b) || IsFirstGreater(b, a)
  {
  }

  lemma IsFirstGreaterTransitive(a: string, b: string, c: string)
    requires IsDecimalLiteral(a) && IsDecimalLiteral(b) && IsDecimalLiteral(c)
    requires IsFirstGreater(a, b) && IsFirstGreater(b, c)
    ensures IsFirstGreater(a, c)
  {
    IsFirstGreaterIsExact(a, b);
    IsFirstGreaterIsExact(b, c);
    IsFirstGreaterIsExact(a, c);
  }

  /** Amounts that compare both ways have the same value, however they are written. */
  lemma IsFirstGreaterAntisymmetric(a: string, b: string)
    requires IsDecimalLiteral(a) && IsDecimalLiteral(b)
    ensures IsFirstGreater(a, b) && IsFirstGreater(b, a) <==> ExactValue(a) == ExactValue(b)
  {
    IsFirstGreaterIsExact(a, b);
    IsFirstGreaterIsExact(b, a);
  }

  /** A trailing zero after the point changes neither the value nor any comparison. */
  lemma TrailingZeroIgnored(s: string, t: string)
    requires IsDecimalLiteral(s) && DotIndex(s) < |s| && IsDecimalLiteral(t)
    ensures IsDecimalLiteral(s + "0") && ExactValue(s + "0") == ExactValue(s)
    ensures IsFirstGreater(s + "0", t) == IsFirstGreater(s, t)
    ensures IsFirstGreater(t, s + "0") == IsFirstGreater(t, s)
  {
    var k := Scale(s) + 1 + Scale(t);
    TrailingZeroSameCount(s, k);
    TrailingZeroKeepsValue(s, k);
    TrailingZeroKeepsComparison(s, t, k);
  }

  lemma TrailingZeroKeepsValue(s: string, k: nat)
    requires IsDecimalLiteral(s) && IsDecimalLiteral(s + "0") && Scale(s + "0") <= k && Scale(s) <= k
    requires AtScale(s + "0", k) == AtScale(s, k)
    ensures ExactValue(s + "0") == ExactValue(s)
  {
    ExactValueAtScale(s + "0", k);
    ExactValueAtScale(s, k);
  }

  lemma TrailingZeroKeepsComparison(s: string, t: string, k: nat)
    requires IsDecimalLiteral(s) && IsDecimalLiteral(s + "0") && IsDecimalLiteral(t)
    requires Scale(s + "0") <= k && Scale(s) <= k && Scale(t) <= k
    requires AtScale(s + "0", k) == AtScale(s, k)
    ensures IsFirstGreater(s + "0", t) == IsFirstGreater(s, t)
    ensures IsFirstGreater(t, s + "0") == IsFirstGreater(t, s)
  {
    IsFirstGreaterAtAnyScale(s + "0", t, k);
    IsFirstGreaterAtAnyScale(s, t, k);
    IsFirstGreaterAtAnyScale(t, s + "0", k);
    IsFirstGreaterAtAnyScale(t, s, k);
  }

  /** Counted in units of `10^-k`, `s` and `s + "0"` are the same number. */
  lemma TrailingZeroSameCount(s: string, k: nat)
    requires IsDecimalLiteral(s) && DotIndex(s) < |s| && Scale(s) < k
    ensures IsDecimalLiteral(s + "0") && Scale(s + "0") == Scale(s) + 1
    ensures AtScale(s + "0", k) == AtScale(s, k)
  {
    AppendZeroToLiteral(s);
    ZeroMovesIntoPadding(WholeDigits(s), FractionDigits(s), k - Scale(s + "0"));
  }

  lemma AppendZeroToLiteral(s: string)
    requires IsDecimalLiteral(s) && DotIndex(s) < |s|
    ensures IsDecimalLiteral(s + "0")
    ensures WholeDigits(s + "0") == WholeDigits(s) && FractionDigits(s + "0") == FractionDigits(s) + "0"
  {
    var i := DotIndex(s);
    SlicesOfAppend(s, "0", i);
    DotIndexAt(s + "0", i);
    SlicesOfAppend(s, "0", i + 1);
    AllDigitsConcat(s[i + 1..], "0");
  }

  lemma SlicesOfAppend(s: string, t: string, i: nat)
    requires i <= |s|
    ensures (s + t)[..i] == s[..i] && (s + t)[i..] == s[i..] + t
  {
  }

  lemma ZeroMovesIntoPadding(w: string, f: string, m: nat)
    ensures w + (f + "0") + Zeros(m) == w + f + Zeros(m + 1)
  {
  }

  /** A leading zero changes neither the value nor any comparison: `"00.5"` is `"0.5"`. */
  lemma LeadingZeroIgnored(s: string, t: string)
    requires IsDecimalLiteral(s) && IsDecimalLiteral(t)
    ensures IsDecimalLiteral("0" + s) && ExactValue("0" + s) == ExactValue(s)
    ensures IsFirstGreater("0" + s, t) == IsFirstGreater(s, t)
    ensures IsFirstGreater(t, "0" + s) == IsFirstGreater(t, s)
  {
    PrependZeroToLiteral(s);
    NumberValueLeadingZero(WholeDigits(s));
    IsFirstGreaterIsExact("0" + s, t);
    IsFirstGreaterIsExact(s, t);
    IsFirstGreaterIsExact(t, "0" + s);
    IsFirstGreaterIsExact(t, s);
  }

  lemma PrependZeroToLiteral(s: string)
    requires IsDecimalLiteral(s)
    ensures IsDecimalLiteral("0" + s)
    ensures WholeDigits("0" + s) == "0" + WholeDigits(s) && FractionDigits("0" + s) == FractionDigits(s)
  {
    var z, i := "0" + s, DotIndex(s);
    assert z[1..] == s;
    assert DotIndex(z) == i + 1;
    assert z[..i + 1] == "0" + s[..i];
    AllDigitsConcat("0", s[..i]);
    if i < |s| {
      assert z[i + 2..] == s[i + 1..];
    }
  }

  lemma LeadingZeroExample()
    ensures IsDecimalLiteral("0.5") && IsDecimalLiteral("00.5")
    ensures IsFirstGreater("00.5", "0.5") && IsFirstGreater("0.5", "00.5")
  {
    assert "0.5" == "0" + "." + "5" && "00.5" == "0" + "0.5";
    PointedLiteral("0", "5");
    LeadingZeroIgnored("0.5", "0.5");
  }

  /** The empty amount passes the precision check at every positive precision, but it is
      not an amount the comparison accepts: the decimal library throws on it. */
  lemma EmptyAmountOutsideComparisonDomain(precision: nat)
    requires precision > 0
    ensures CheckDecimalPrecision("", precision) && !IsDecimalLiteral("")
  {
  }

  /** An amount whose whole part has more digits, without a leading zero, is the larger:
      the comparison is numeric, not by characters (`"10"` is above `"9"`). */
  lemma LongerWholePartIsGreater(a: string, b: string)
    requires IsDecimalLiteral(a) && IsDecimalLiteral(b)
    requires a[0] != '0' && |WholeDigits(a)| > |WholeDigits(b)|
    ensures IsFirstGreater(a, b) && !IsFirstGreater(b, a)
  {
    var k := Scale(a) + Scale(b);
    assert AtScale(a, k) > AtScale(b, k) by {
      AtScaleBounds(a, k);
      AtScaleBounds(b, k);
      Pow10Monotone(|WholeDigits(b)| + k, |WholeDigits(a)| + k - 1);
    }
    IsFirstGreaterAtAnyScale(a, b, k);
    IsFirstGreaterAtAnyScale(b, a, k);
  }

  /** Counted in units of `10^-k`, an amount has `|WholeDigits(s)| + k` digits. */
  lemma AtScaleBounds(s: string, k: nat)
    requires IsDecimalLiteral(s) && Scale(s) <= k
    ensures AtScale(s, k) < Pow10(|WholeDigits(s)| + k)
    ensures s[0] != '0' ==> AtScale(s, k) >= Pow10(|WholeDigits(s)| + k - 1)
  {
    var w, f := WholeDigits(s), FractionDigits(s);
    var digits := w + f + Zeros(k - Scale(s));
    assert digits[0] == s[0];
    AllDigitsConcat(w, f);
    AllDigitsConcat(w + f, Zeros(k - Scale(s)));
    NumberValueBounds(digits);
  }

  /** `w.f` is a decimal literal with whole part `w` and fraction digits `f`. */
  lemma PointedLiteral(w: string, f: string)
    requires AllDigits(w) && w != [] && AllDigits(f)
    ensures IsDecimalLiteral(w + "." + f)
    ensures DotIndex(w + "." + f) == |w|
    ensures WholeDigits(w + "." + f) == w && FractionDigits(w + "." + f) == f
  {
    var s := w + "." + f;
    assert s[..|w|] == w && s[|w|] == '.' && s[|w| + 1..] == f;
    DotIndexAt(s, |w|);
  }

  /** A digit string is a decimal literal without fraction digits. */
  lemma WholeLiteral(w: string)
    requires AllDigits(w) && w != []
    ensures IsDecimalLiteral(w) && WholeDigits(w) == w && FractionDigits(w) == ""
  {
    assert w[..|w|] == w;
  }

  /** The scenario of a transfer above the ceiling: `999999.000` against `1000.000`. */
  lemma IsFirstGreaterCeilingExample()
    ensures IsDecimalLiteral("999999.000") && IsDecimalLiteral("1000.000")
    ensures IsFirstGreater("999999.000", "1000.000") && !IsFirstGreater("1000.000", "999999.000")
    ensures IsFirstGreater("1000.000", "1000.000")
  {
    assert "999999.000" == "999999" + "." + "000";
    assert "1000.000" == "1000" + "." + "000";
    PointedLiteral("999999", "000");
    PointedLiteral("1000", "000");
    LongerWholePartIsGreater("999999.000", "1000.000");
  }

  lemma IsFirstGreaterTrailingZerosExample()
    ensures IsDecimalLiteral("1.5") && IsDecimalLiteral("1.500")
    ensures IsFirstGreater("1.5", "1.500") && IsFirstGreater("1.500", "1.5")
  {
    assert "1.5" == "1" + "." + "5" && "1.50" == "1" + "." + "50";
    assert "1.5" + "0" == "1.50" && "1.50" + "0" == "1.500";
    PointedLiteral("1", "5");
    PointedLiteral("1", "50");
    TrailingZeroIgnored("1.5", "1.5");
    TrailingZeroIgnored("1.50", "1.5");
  }

  lemma IsFirstGreaterNotByCharactersExample()
    ensures IsDecimalLiteral("9") && IsDecimalLiteral("10")
    ensures IsFirstGreater("10", "9") && !IsFirstGreater("9", "10")
  {
    WholeLiteral("9");
    WholeLiteral("10");
    LongerWholePartIsGreater("10", "9");
  }

  // ---------------------------------------------------------------------------
  // generateDecimalHintString
  // ---------------------------------------------------------------------------

  /** The hint for a currency with `decimals` fraction digits: `0`, a point, and
      `decimals` zeros. The point is there even when no zeros follow it. */
  function DecimalHint(decimals: nat): string {
    "0." + Zeros(decimals)
  }

  method GenerateDecimalHintString(decimals: nat) returns (decimalString: string)
    ensures decimalString == DecimalHint(decimals)
  {
    decimalString := "0";
    var zeros := "";
    for i := 0 to decimals
      invariant zeros == Zeros(i)
    {
      zeros := zeros + "0";
    }
    decimalString := decimalString + "." + zeros;
  }

  lemma DecimalHintShape(decimals: nat)
    ensures var hint := DecimalHint(decimals);
            && |hint| == decimals + 2
            && hint[0] == '0' && hint[1] == '.'
            && forall i :: 2 <= i < |hint| ==> hint[i] == '0'
  {
  }

  /** The hint for `decimals` passes the precision check for `precision` exactly when the
      two agree and are positive: the hint is a well-formed example of the format. */
  lemma DecimalHintMatchesItsPrecision(decimals: nat, precision: nat)
    ensures CheckDecimalPrecision(DecimalHint(decimals), precision) <==> precision == decimals && decimals > 0
  {
    var hint := DecimalHint(decimals);
    if precision == decimals && decimals > 0 {
      assert hint[..1] == "0";
      assert hint[2..] == Zeros(decimals);
    }
    if CheckDecimalPrecision(hint, precision) {
      var point := |hint| - precision - 1;
      assert hint[point] == '.';
      assert point == 1;
    }
  }

  /** Read as an amount, the hint is zero. */
  lemma DecimalHintIsZero(decimals: nat)
    ensures IsDecimalLiteral(DecimalHint(decimals)) && Scale(DecimalHint(decimals)) == decimals
    ensures ExactValue(DecimalHint(decimals)) == 0.0
    ensures IsFirstGreater(DecimalHint(decimals), "0") && IsFirstGreater("0", DecimalHint(decimals))
  {
    var hint := DecimalHint(decimals);
    assert hint == "0" + "." + Zeros(decimals);
    PointedLiteral("0", Zeros(decimals));
    WholeLiteral("0");
    assert ExactValue(hint) == 0.0 by {
      assert NumberValue("0") == 0;
      NumberValueZeros(decimals);
    }
    assert ExactValue("0") == 0.0 by {
      assert NumberValue("0") == 0;
    }
    IsFirstGreaterIsExact(hint, "0");
    IsFirstGreaterIsExact("0", hint);
  }

  lemma DecimalHintExamples()
    ensures DecimalHint(3) == "0.000"
    ensures DecimalHint(2) == "0.00"
    ensures DecimalHint(0) == "0."
  {
  }
}
