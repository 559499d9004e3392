/** The text of the weight and height fields: the keystroke filter that keeps
    digits and the decimal point, and `String.toDoubleOrNull` on such text. */
module NumericText {
  import opened Options

  /** `Char.isDigit`, restricted to the ASCII digits. */
  predicate IsDigit(c: char) {
    '0' <= c <= '9'
  }

  /** A character the input filter keeps: a digit or the decimal point. */
  predicate IsNumericChar(c: char) {
    IsDigit(c) || c == '.'
  }

  /** Text made only of characters the input filter keeps. */
  predicate IsNumericText(s: string) {
    forall i :: 0 <= i < |s| ==> IsNumericChar(s[i])
  }

  /** `newValue.filter { it.isDigit() || it == '.' }`, run on every edit of
      the weight field and of the height field. */
  function FilterNumeric(s: string): (r: string)
    ensures IsNumericText(r)
    ensures |r| <= |s|
    ensures r == s <==> IsNumericText(s)
  {
    if s == [] then []
    else if IsNumericChar(s[0]) then [s[0]] + FilterNumeric(s[1..])
    else FilterNumeric(s[1..])
  }

  /** Filtering twice keeps what filtering once kept. */
  lemma FilterNumericIdempotent(s: string)
    ensures FilterNumeric(FilterNumeric(s)) == FilterNumeric(s)
  {
  }

  /** The filter works character by character: it distributes over concatenation. */
  lemma {:induction false} FilterNumericAppend(a: string, b: string)
    ensures FilterNumeric(a + b) == FilterNumeric(a) + FilterNumeric(b)
  {
    if a == [] {
      assert a + b == b;
    } else {
      assert (a + b)[0] == a[0];
      assert (a + b)[1..] == a[1..] + b;
      FilterNumericAppend(a[1..], b);
    }
  }

  /** `pos` lists, increasing, positions of `s` from `lo` on that spell `r`,
      and every such position holding a digit or a point is among them. */
  ghost predicate EnumeratesFrom(s: string, pos: seq<nat>, r: string, lo: nat) {
    && |pos| == |r|
    && (forall k :: 0 <= k < |pos| ==> lo <= pos[k] < |s| && s[pos[k]] == r[k])
    && (forall k, l :: 0 <= k < l < |pos| ==> pos[k] < pos[l])
    && (forall i :: lo <= i < |s| && IsNumericChar(s[i]) ==> i in pos)
  }

  /** The filtered text is the input with every other character removed, in
      order: the lemma returns, increasing, the input positions it keeps, and
      every position holding a digit or a point is among them. */
  lemma {:induction false} FilterNumericKeepsOrder(s: string) returns (pos: seq<nat>)
    ensures EnumeratesFrom(s, pos, FilterNumeric(s), 0)
  {
    if s == [] {
      return [];
    }
    var rest := FilterNumericKeepsOrder(s[1..]);
    EnumeratesShifted(s, rest, FilterNumeric(s[1..]));
    if IsNumericChar(s[0]) {
      pos := [0] + ShiftPositions(rest);
      EnumeratesKeep(s, ShiftPositions(rest), FilterNumeric(s[1..]));
    } else {
      pos := ShiftPositions(rest);
    }
  }

  /** Positions of `s[1..]`, shifted by one, are positions of `s` from 1 on. */
  lemma EnumeratesShifted(s: string, rest: seq<nat>, r: string)
    requires s != []
    requires EnumeratesFrom(s[1..], rest, r, 0)
    ensures EnumeratesFrom(s, ShiftPositions(rest), r, 1)
  {
    var shifted := ShiftPositions(rest);
    forall k | 0 <= k < |shifted|
      ensures 1 <= shifted[k] < |s| && s[shifted[k]] == r[k]
    {
      assert s[shifted[k]] == s[1..][rest[k]];
    }
    forall i | 1 <= i < |s| && IsNumericChar(s[i])
      ensures i in shifted
    {
      assert s[1..][i - 1] == s[i];
      var k :| 0 <= k < |rest| && rest[k] == i - 1;
      assert shifted[k] == i;
    }
  }

  /** Keeping the first character of `s` puts position 0 in front. */
  lemma EnumeratesKeep(s: string, tail: seq<nat>, r: string)
    requires s != [] && IsNumericChar(s[0])
    requires EnumeratesFrom(s, tail, r, 1)
    ensures EnumeratesFrom(s, [0] + tail, [s[0]] + r, 0)
  {
    var pos, kept := [0] + tail, [s[0]] + r;
    assert |pos| == |kept|;
    forall k | 0 <= k < |pos|
      ensures 0 <= pos[k] < |s| && s[pos[k]] == kept[k]
    {
      if k > 0 {
        assert pos[k] == tail[k - 1] && kept[k] == r[k - 1];
      }
    }
    forall k, l | 0 <= k < l < |pos|
      ensures pos[k] < pos[l]
    {
      assert pos[l] == tail[l - 1];
      if k > 0 {
        assert pos[k] == tail[k - 1];
      }
    }
    forall i | 0 <= i < |s| && IsNumericChar(s[i])
      ensures i in pos
    {
      if i > 0 {
        assert i in tail;
        var k :| 0 <= k < |tail| && tail[k] == i;
        assert pos[k + 1] == i;
      }
    }
  }

  /** Every position moved one place to the right. */
  function ShiftPositions(p: seq<nat>): (r: seq<nat>)
    ensures |r| == |p|
    ensures forall k :: 0 <= k < |p| ==> r[k] == p[k] + 1
  {
    seq(|p|, k requires 0 <= k < |p| => p[k] + 1)
  }

  /** The value of one digit. */
  function DigitValue(c: char): (d: nat)
    ensures d < 10
  {
    if IsDigit(c) then c as int - '0' as int else 0
  }

  /** The value of a string of digits, most significant first. */
  function DigitsValue(s: string): nat {
    if s == [] then 0 else DigitsValue(s[..|s| - 1]) * 10 + DigitValue(s[|s| - 1])
  }

  function Pow10(n: nat): (r: nat)
    ensures r >= 1
  {
    if n == 0 then 1 else 10 * Pow10(n - 1)
  }

  /** The position of the first decimal point, or |s| when there is none. */
  function DotIndex(s: string): (i: nat)
    ensures i <= |s|
    ensures forall j :: 0 <= j < i ==> s[j] != '.'
    ensures i < |s| ==> s[i] == '.'
  {
    if s == [] || s[0] == '.' then 0 else 1 + DotIndex(s[1..])
  }

  /** An unsigned decimal made of digits and at most one point, with at least
      one digit on some side of it ("12", "12.", ".5", "12.50"), read as an
      exact value; anything else has no value (".", "1.2.3", ""). */
  function ParseUnsigned(s: string): (r: Option<real>)
    ensures r.Some? ==> s != [] && IsNumericText(s) && r.value >= 0.0
  {
    if !IsNumericText(s) then None
    else
      var i := DotIndex(s);
      if i == |s| then
        if s == [] then None else Some(DigitsValue(s) as real)
      else ParsePointed(s[..i], s[i + 1..])
  }

  /** The digits either side of the first point: no second point, and not
      both sides empty. */
  function ParsePointed(whole: string, frac: string): (r: Option<real>)
    ensures r.Some? ==> |whole| + |frac| > 0 && r.value >= 0.0
  {
    if '.' in frac || |whole| + |frac| == 0 then None else Some(DecimalValue(whole, frac))
  }

  /** The value of `whole.frac`, both strings of digits. */
  function DecimalValue(whole: string, frac: string): (v: real)
    ensures v >= DigitsValue(whole) as real
  {
    DigitsValue(whole) as real + DigitsValue(frac) as real / Pow10(|frac|) as real
  }

  /** Digits, a point, digits: the value of the whole part plus that of the
      fraction scaled down by its length. */
  lemma ParseDigitsPointDigits(whole: string, frac: string)
    requires whole != []
    requires forall i :: 0 <= i < |whole| ==> IsDigit(whole[i])
    requires forall i :: 0 <= i < |frac| ==> IsDigit(frac[i])
    ensures ParseUnsigned(whole + "." + frac) == Some(DecimalValue(whole, frac))
    ensures ParseNumber(whole + "." + frac) == Some(DecimalValue(whole, frac))
  {
    var s := whole + "." + frac;
    assert s[0] == whole[0];
    assert s[|whole|] == '.';
    assert forall j :: 0 <= j < |whole| ==> s[j] == whole[j];
    assert DotIndex(s) == |whole|;
    assert s[..|whole|] == whole;
    assert s[|whole| + 1..] == frac;
    assert IsNumericText(s) by {
      forall i | 0 <= i < |s| ensures IsNumericChar(s[i]) {
        if i < |whole| {
          assert s[i] == whole[i];
        } else if i > |whole| {
          assert s[i] == frac[i - |whole| - 1];
        }
      }
    }
  }

  /** A point and digits with no whole part (".5"): the fraction scaled down
      by its length. */
  lemma ParsePointDigits(frac: string)
    requires frac != []
    requires forall i :: 0 <= i < |frac| ==> IsDigit(frac[i])
    ensures ParseUnsigned("." + frac) == Some(DigitsValue(frac) as real / Pow10(|frac|) as real)
    ensures ParseNumber("." + frac) == Some(DigitsValue(frac) as real / Pow10(|frac|) as real)
  {
    var s := "." + frac;
    assert DotIndex(s) == 0;
    assert s[..0] == [] && s[1..] == frac;
    assert IsNumericText(s) by {
      forall i | 0 <= i < |s| ensures IsNumericChar(s[i]) {
        if i > 0 {
          assert s[i] == frac[i - 1];
        }
      }
    }
  }

  /** Digits alone: their value. */
  lemma ParseDigits(s: string)
    requires s != []
    requires forall i :: 0 <= i < |s| ==> IsDigit(s[i])
    ensures ParseUnsigned(s) == Some(DigitsValue(s) as real)
    ensures ParseNumber(s) == Some(DigitsValue(s) as real)
  {
    assert DotIndex(s) == |s|;
    assert IsDigit(s[0]);
  }

  /** The value of a one-digit string. */
  lemma DigitsValueOne(a: char)
    ensures DigitsValue([a]) == DigitValue(a)
  {
    assert [a][..0] == [];
  }

  /** The value of a two-digit string. */
  lemma DigitsValueTwo(a: char, b: char)
    ensures DigitsValue([a, b]) == DigitValue(a) * 10 + DigitValue(b)
  {
    assert [a, b][..1] == [a];
    DigitsValueOne(a);
  }

  /** The value of a three-digit string. */
  lemma DigitsValueThree(a: char, b: char, c: char)
    ensures DigitsValue([a, b, c]) == (DigitValue(a) * 10 + DigitValue(b)) * 10 + DigitValue(c)
  {
    assert [a, b, c][..2] == [a, b];
    DigitsValueTwo(a, b);
  }

  /** `String.toDoubleOrNull` on an optional sign followed by an unsigned
      decimal; `None` stands for Kotlin's `null`. */
  function ParseNumber(s: string): (r: Option<real>)
    ensures r.Some? ==> s != []
    ensures r.Some? && r.value < 0.0 ==> s[0] == '-'
  {
    if |s| > 0 && (s[0] == '+' || s[0] == '-') then
      match ParseUnsigned(s[1..])
      case None => None
      case Some(v) => Some(if s[0] == '-' then -v else v)
    else ParseUnsigned(s)
  }

  /** Text that passed the input filter has no sign, so whatever it parses to
      is at least zero. */
  lemma NumericTextIsNonNegative(s: string)
    requires IsNumericText(s)
    ensures ParseNumber(s).Some? ==> ParseNumber(s) == ParseUnsigned(s) && ParseNumber(s).value >= 0.0
  {
    if |s| > 0 {
      assert IsNumericChar(s[0]);
    }
  }

  /** A string of digits is worth zero exactly when every digit is '0'. */
  lemma {:induction false} DigitsValueZero(s: string)
    requires forall i :: 0 <= i < |s| ==> IsDigit(s[i])
    ensures DigitsValue(s) == 0 <==> forall i :: 0 <= i < |s| ==> s[i] == '0'
  {
    if s != [] {
      var init := s[..|s| - 1];
      assert forall i :: 0 <= i < |init| ==> init[i] == s[i];
      DigitsValueZero(init);
    }
  }

  /** Some character of `s` is a digit. */
  predicate HasDigit(s: string) {
    exists i :: 0 <= i < |s| && IsDigit(s[i])
  }

  /** No two characters of `s` are decimal points. */
  predicate AtMostOnePoint(s: string) {
    forall i, j :: 0 <= i < j < |s| && s[i] == '.' ==> s[j] != '.'
  }

  /** Every digit of `s` is '0'. */
  predicate ZeroDigitsOnly(s: string) {
    forall i :: 0 <= i < |s| && IsDigit(s[i]) ==> s[i] == '0'
  }

  /** Filtered text reads as zero, which is what the zero checks of Calculate
      test, exactly when it has a digit, at most one point, and no digit
      other than '0' ("0", "00.", ".0", "0.00"; not "", ".", "0.0."). */
  lemma ParsesToZero(s: string)
    requires IsNumericText(s)
    ensures ParseNumber(s) == Some(0.0) <==> HasDigit(s) && AtMostOnePoint(s) && ZeroDigitsOnly(s)
  {
    var i := DotIndex(s);
    if i == |s| {
      assert forall j :: 0 <= j < |s| ==> IsDigit(s[j]);
      DigitsValueZero(s);
      if s != [] {
        assert IsDigit(s[0]);
      }
    } else {
      var whole, frac := s[..i], s[i + 1..];
      assert forall j :: 0 <= j < i ==> s[j] == whole[j];
      assert forall j :: i < j < |s| ==> s[j] == frac[j - i - 1];
      if '.' in frac {
        var k :| 0 <= k < |frac| && frac[k] == '.';
        assert s[i] == '.' && s[i + 1 + k] == '.';
      } else if |whole| + |frac| == 0 {
        assert s == ".";
        assert !HasDigit(s);
      } else {
        assert forall j :: 0 <= j < |whole| ==> IsDigit(whole[j]) by {
          forall j | 0 <= j < |whole| ensures IsDigit(whole[j]) {
            assert IsNumericChar(s[j]);
          }
        }
        assert forall j :: 0 <= j < |frac| ==> IsDigit(frac[j]) by {
          forall j | 0 <= j < |frac| ensures IsDigit(frac[j]) {
            assert IsNumericChar(s[j + i + 1]);
          }
        }
        DigitsValueZero(whole);
        DigitsValueZero(frac);
        var p := Pow10(|frac|) as real;
        assert DigitsValue(frac) as real / p == 0.0 <==> DigitsValue(frac) == 0;
        assert ZeroDigitsOnly(s) <==>
          (forall j :: 0 <= j < |whole| ==> whole[j] == '0') && (forall j :: 0 <= j < |frac| ==> frac[j] == '0')
        by {
          assert forall j :: 0 <= j < |frac| ==> s[j + i + 1] == frac[j];
        }
        if |whole| > 0 {
          assert IsDigit(s[0]);
        } else {
          assert IsDigit(s[i + 1]);
        }
      }
    }
  }

  /** The digit character for a value below ten. */
  function DigitChar(d: nat): (c: char)
    requires d < 10
    ensures IsDigit(c) && DigitValue(c) == d
  {
    ('0' as int + d) as char
  }

  /** The decimal digits of a natural number, most significant first. */
  function NatToDigits(n: nat): (s: string)
    ensures s != []
    ensures forall i :: 0 <= i < |s| ==> IsDigit(s[i])
  {
    if n < 10 then [DigitChar(n)] else NatToDigits(n / 10) + [DigitChar(n % 10)]
  }

  /** The digits of a number have no leading zero: a first digit '0' is
      the single digit of zero itself. */
  lemma {:induction false} NatToDigitsNoLeadingZero(n: nat)
    ensures NatToDigits(n)[0] == '0' ==> n == 0
    ensures n < 10 ==> |NatToDigits(n)| == 1
  {
    if n >= 10 {
      NatToDigitsNoLeadingZero(n / 10);
      assert NatToDigits(n)[0] == NatToDigits(n / 10)[0];
    }
  }

  /** Reading back the digits of a number gives the number. */
  lemma {:induction false} NatToDigitsRoundTrip(n: nat)
    ensures DigitsValue(NatToDigits(n)) == n
  {
    var s := NatToDigits(n);
    if n >= 10 {
      assert s[..|s| - 1] == NatToDigits(n / 10);
      NatToDigitsRoundTrip(n / 10);
    } else {
      assert s[..|s| - 1] == [];
    }
  }
}
