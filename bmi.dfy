/** `calculateBMI` and `getStatus`: the body-mass index, its two-decimal
    text, and the ordered classification of a value into a weight category. */
module Bmi {
  import opened Options
  import opened NumericText

  /** The number of hundredths `String.format("%.2f", x)` shows for `x >= 0`:
      `x * 100` rounded to the nearest integer, halves upward. */
  function Hundredths(x: real): (m: nat)
    requires x >= 0.0
    ensures m as real <= x * 100.0 + 0.5 < m as real + 1.0
  {
    (x * 100.0 + 0.5).Floor
  }

  /** The value `"%.2f"` shows: `x` rounded to hundredths, halves away from zero. */
  function Round2(x: real): (r: real)
    ensures -0.005 <= r - x <= 0.005
  {
    if x >= 0.0 then Hundredths(x) as real / 100.0 else -(Hundredths(-x) as real / 100.0)
  }

  /** A value that already has at most two decimals is shown as it is. */
  lemma Round2OfHundredths(k: int)
    ensures Round2(k as real / 100.0) == k as real / 100.0
  {
    var x := k as real / 100.0;
    if k >= 0 {
      assert Hundredths(x) == k;
    } else {
      assert Hundredths(-x) == -k;
    }
  }

  /** Rounding a shown value again changes nothing. */
  lemma Round2Idempotent(x: real)
    ensures Round2(Round2(x)) == Round2(x)
  {
    if x >= 0.0 {
      Round2OfHundredths(Hundredths(x));
    } else {
      Round2OfHundredths(-(Hundredths(-x) as int));
    }
  }

  /** `String.format("%.2f", x)` with '.' as the decimal separator: an optional
      minus sign, the integer part without leading zeros, a point, two digits. */
  function Fixed2(x: real): (s: string)
    ensures ' ' !in s
  {
    var m := Hundredths(if x >= 0.0 then x else -x);
    (if x < 0.0 then "-" else "")
      + Unsigned2(m)
  }

  /** The unsigned text of `m` hundredths: integer part, point, two digits. */
  function Unsigned2(m: nat): string {
    var cents := m % 100;
    NatToDigits(m / 100) + "." + [DigitChar(cents / 10), DigitChar(cents % 10)]
  }

  /** Text as `"%.2f"` prints it: an optional '-', a run of digits that starts
      with '0' only when it is the single digit "0", a point, two digits. */
  predicate IsFixed2Text(s: string) {
    var p := if |s| > 0 && s[0] == '-' then 1 else 0;
    && |s| >= p + 4
    && (forall i :: p <= i < |s| - 3 ==> IsDigit(s[i]))
    && s[|s| - 3] == '.' && IsDigit(s[|s| - 2]) && IsDigit(s[|s| - 1])
    && (s[p] == '0' ==> |s| == p + 4)
  }

  /** The unsigned text of `m` hundredths has the two-decimal shape and
      starts with a digit. */
  lemma Unsigned2Shape(m: nat)
    ensures IsFixed2Text(Unsigned2(m)) && IsDigit(Unsigned2(m)[0])
  {
    var cents := m % 100;
    var d := NatToDigits(m / 100);
    var u := Unsigned2(m);
    NatToDigitsNoLeadingZero(m / 100);
    assert u == d + "." + [DigitChar(cents / 10), DigitChar(cents % 10)];
    assert forall i :: 0 <= i < |d| ==> u[i] == d[i];
    assert u[|u| - 3] == '.';
  }

  /** `"%.2f"` prints the two-decimal shape, with a minus sign exactly for a
      negative value. */
  lemma Fixed2Shape(x: real)
    ensures IsFixed2Text(Fixed2(x))
    ensures Fixed2(x)[0] == '-' <==> x < 0.0
  {
    var m := Hundredths(if x >= 0.0 then x else -x);
    var u := Unsigned2(m);
    Unsigned2Shape(m);
    var s := Fixed2(x);
    if x < 0.0 {
      assert s == "-" + u;
      assert forall i :: 1 <= i < |s| ==> s[i] == u[i - 1];
    } else {
      assert s == u;
    }
  }

  /** The unsigned text of `m` hundredths, read back, is `m / 100`. */
  lemma Unsigned2RoundTrip(m: nat)
    ensures ParseUnsigned(Unsigned2(m)) == Some(m as real / 100.0)
  {
    var cents := m % 100;
    var frac := [DigitChar(cents / 10), DigitChar(cents % 10)];
    ParseDigitsPointDigits(NatToDigits(m / 100), frac);
    NatToDigitsRoundTrip(m / 100);
    TwoDigitsValue(cents);
    assert Pow10(2) == 100;
    assert (m / 100) as real + cents as real / 100.0 == m as real / 100.0;
  }

  /** Two digits read back as the number below 100 they were made from. */
  lemma TwoDigitsValue(cents: nat)
    requires cents < 100
    ensures DigitsValue([DigitChar(cents / 10), DigitChar(cents % 10)]) == cents
  {
    var tens, units := DigitChar(cents / 10), DigitChar(cents % 10);
    DigitsValueTwo(tens, units);
  }

  /** `toDoubleOrNull` on the text of `"%.2f"` gives back the rounded value. */
  lemma Fixed2RoundTrip(x: real)
    ensures ParseNumber(Fixed2(x)) == Some(Round2(x))
  {
    if x < 0.0 {
      var m := Hundredths(-x);
      Unsigned2RoundTrip(m);
      assert Fixed2(x) == "-" + Unsigned2(m);
      assert Fixed2(x)[1..] == Unsigned2(m);
      assert Round2(x) == -(m as real / 100.0);
    } else {
      var m := Hundredths(x);
      Unsigned2RoundTrip(m);
      assert Fixed2(x) == Unsigned2(m);
      assert IsDigit(Unsigned2(m)[0]);
      assert Round2(x) == m as real / 100.0;
    }
  }

  /** The index `weight / height²` as the result text shows it. */
  function RoundedBmi(weight: real, height: real): real
    requires height != 0.0
  {
    Round2(weight / (height * height))
  }

  /** The unit `calculateBMI` appends after the number. */
  const UnitSuffix: string := " kg/m²"

  /** `calculateBMI(weight, height)`: the index `weight / height²` as
      `"<two decimals> kg/m²"`. The leading field of the text, read back as a
      number, is the index rounded to hundredths. */
  function CalculateBmi(weight: real, height: real): (r: string)
    requires height != 0.0
    ensures r == FirstField(r) + UnitSuffix
    ensures ParseNumber(FirstField(r)) == Some(RoundedBmi(weight, height))
  {
    var shown := Fixed2(weight / (height * height));
    FirstFieldBeforeSpace(shown, "kg/m²");
    Fixed2RoundTrip(weight / (height * height));
    assert shown + UnitSuffix == shown + " " + "kg/m²";
    shown + UnitSuffix
  }

  /** A non-negative weight over a non-zero height squared is not negative. */
  lemma QuotientNonNegative(weight: real, height: real)
    requires weight >= 0.0 && height != 0.0
    ensures weight / (height * height) >= 0.0
  {
    DivisionNonNegative(weight, height, height);
  }

  /** A non-negative number over a positive product is not negative. */
  lemma DivisionNonNegative(a: real, h: real, k: real)
    requires a >= 0.0 && h * k > 0.0
    ensures a / (h * k) >= 0.0
  {
  }

  /** The result text is a two-decimal number followed by " kg/m²", and it
      has no minus sign when the weight is not negative. */
  lemma CalculateBmiShape(weight: real, height: real)
    requires height != 0.0
    ensures var r := CalculateBmi(weight, height);
      r == FirstField(r) + UnitSuffix && IsFixed2Text(FirstField(r))
    ensures weight >= 0.0 ==> CalculateBmi(weight, height)[0] != '-'
  {
    var shown := Fixed2(weight / (height * height));
    Fixed2Shape(weight / (height * height));
    if weight >= 0.0 {
      QuotientNonNegative(weight, height);
    }
    FirstFieldBeforeSpace(shown, "kg/m²");
    assert shown + UnitSuffix == shown + " " + "kg/m²";
  }

  /** `s.split(" ")[0]`: the text before the first space, or all of `s`. */
  function FirstField(s: string): (f: string)
    ensures |f| <= |s| && f == s[..|f|] && ' ' !in f
    ensures |f| < |s| ==> s[|f|] == ' '
  {
    if s == [] || s[0] == ' ' then [] else [s[0]] + FirstField(s[1..])
  }

  /** The first field of `a + " " + b` is `a` when `a` has no space. */
  lemma {:induction false} FirstFieldBeforeSpace(a: string, b: string)
    requires ' ' !in a
    ensures FirstField(a + " " + b) == a
  {
    var s := a + " " + b;
    var f := FirstField(s);
    assert s[|a|] == ' ';
    assert forall j :: 0 <= j < |a| ==> s[j] == a[j];
    assert |f| == |a|;
    assert s[..|a|] == a;
  }

  /** The six categories `getStatus` names, in ascending order. */
  datatype Category = Underweight | NormalWeight | Overweight | ObeseClassI | ObeseClassII | ObeseClassIII

  /** The status text the screen shows for a category. */
  function Label(c: Category): string {
    match c
    case Underweight => "Underweight"
    case NormalWeight => "Normal Weight"
    case Overweight => "Overweight"
    case ObeseClassI => "Obese Class I"
    case ObeseClassII => "Obese Class II"
    case ObeseClassIII => "Obese Class III"
  }

  /** Distinct categories show distinct status texts, so the status text
      names its category. */
  lemma LabelInjective(c: Category, d: Category)
    ensures Label(c) == Label(d) <==> c == d
  {
  }

  /** The band of values a category covers, read as a table: below 18.5, then
      the closed ranges [18.5, 24.9], [25, 29.9], [30, 34.9], [35, 39.9], then
      40 and above. */
  predicate InBand(c: Category, x: real) {
    match c
    case Underweight => x < 18.5
    case NormalWeight => 18.5 <= x && x <= 24.9
    case Overweight => 25.0 <= x && x <= 29.9
    case ObeseClassI => 30.0 <= x && x <= 34.9
    case ObeseClassII => 35.0 <= x && x <= 39.9
    case ObeseClassIII => 40.0 <= x
  }

  /** The values no band covers: the four open gaps between the closed ranges. */
  predicate InGap(x: real) {
    (24.9 < x < 25.0) || (29.9 < x < 30.0) || (34.9 < x < 35.0) || (39.9 < x < 40.0)
  }

  /** `getStatus(bmi)`: the first branch of the `when` that matches, or `None`
      where the source reaches `error("Invalid parameters")`. */
  function GetStatus(bmi: real): (r: Option<Category>)
    ensures r.None? <==> InGap(bmi)
    ensures r.Some? ==> InBand(r.value, bmi)
  {
    if bmi < 18.5 then Some(Underweight)
    else if 18.5 <= bmi <= 24.9 then Some(NormalWeight)
    else if 25.0 <= bmi <= 29.9 then Some(Overweight)
    else if 30.0 <= bmi <= 34.9 then Some(ObeseClassI)
    else if 35.0 <= bmi <= 39.9 then Some(ObeseClassII)
    else if bmi >= 40.0 then Some(ObeseClassIII)
    else None
  }

  /** The bands do not overlap, so the first match of the ordered `when` is
      the only band holding the value. */
  lemma StatusIsTheOnlyBand(bmi: real, c: Category)
    ensures GetStatus(bmi) == Some(c) <==> InBand(c, bmi)
  {
  }

  /** On two-decimal values, the classifier fails exactly at 24.91..24.99,
      29.91..29.99, 34.91..34.99 and 39.91..39.99. */
  lemma StatusGapsOnHundredths(k: nat)
    ensures GetStatus(k as real / 100.0).None?
        <==> (2490 < k < 2500 || 2990 < k < 3000 || 3490 < k < 3500 || 3990 < k < 4000)
  {
  }

  /** The status the screen shows for a result text: line 299 splits off the
      number, parses it (falling back to 0.0) and classifies that. */
  function StatusOfResult(result: string): (r: Option<Category>)
    ensures ParseNumber(FirstField(result)).None? ==> r == Some(Underweight)
    ensures r.None? ==> ParseNumber(FirstField(result)).Some? && InGap(ParseNumber(FirstField(result)).value)
  {
    GetStatus(ParseNumber(FirstField(result)).GetOr(0.0))
  }

  /** For a result `calculateBMI` produced, the status is the classification
      of the index rounded to hundredths, not of the exact quotient. */
  lemma StatusUsesRoundedBmi(weight: real, height: real)
    requires height != 0.0
    ensures StatusOfResult(CalculateBmi(weight, height)) == GetStatus(RoundedBmi(weight, height))
  {
  }
}
