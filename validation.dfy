/** The decision the Calculate button makes about the two fields, stated as a
    value: which error it reports, or the two numbers it computes with. */
module Validation {
  import opened Options
  import opened NumericText

  /** Why Calculate refuses the input. `NotANumber` is a non-empty field that
      `toDoubleOrNull` rejects while no field reads as zero. */
  datatype Reason = BothMissing | WeightMissing | HeightMissing | NotANumber | BothZero | WeightZero | HeightZero

  datatype Verdict = Accepted(weight: real, height: real) | Rejected(reason: Reason)

  /** The checks in the order the handler makes them: emptiness first, then
      zero (both, weight, height), then a field that does not parse. */
  function Validate(weightText: string, heightText: string): (v: Verdict)
    ensures v.Accepted? ==>
      && ParseNumber(weightText) == Some(v.weight) && ParseNumber(heightText) == Some(v.height)
      && v.weight != 0.0 && v.height != 0.0
    ensures v.Rejected? && v.reason == NotANumber ==>
      ParseNumber(weightText).None? || ParseNumber(heightText).None?
  {
    var w := ParseNumber(weightText);
    var h := ParseNumber(heightText);
    if weightText == [] && heightText == [] then Rejected(BothMissing)
    else if weightText == [] then Rejected(WeightMissing)
    else if heightText == [] then Rejected(HeightMissing)
    else if w == Some(0.0) && h == Some(0.0) then Rejected(BothZero)
    else if w == Some(0.0) then Rejected(WeightZero)
    else if h == Some(0.0) then Rejected(HeightZero)
    else if w.None? || h.None? then Rejected(NotANumber)
    else Accepted(w.value, h.value)
  }

  /** The message the handler puts in `dialogMessage`; an unparsable field
      that is not zero gets none. */
  function Message(r: Reason): (m: Option<string>)
    ensures m.None? <==> r == NotANumber
  {
    match r
    case BothMissing => Some("Please enter both weight and height.")
    case WeightMissing => Some("Please enter your weight.")
    case HeightMissing => Some("Please enter your height.")
    case NotANumber => None
    case BothZero => Some("Both weight and height cannot be zero.")
    case WeightZero => Some("Weight cannot be zero.")
    case HeightZero => Some("Height cannot be zero.")
  }

  /** An empty field is reported whatever the other field holds, before any
      parse result is looked at; and only an empty field is reported so. */
  lemma EmptinessDecidesFirst(weightText: string, heightText: string)
    ensures Validate(weightText, heightText) == Rejected(BothMissing) <==> weightText == [] && heightText == []
    ensures Validate(weightText, heightText) == Rejected(WeightMissing) <==> weightText == [] && heightText != []
    ensures Validate(weightText, heightText) == Rejected(HeightMissing) <==> weightText != [] && heightText == []
  {
  }

  /** With both fields filled, a zero is reported in priority order (both,
      weight, height), even when the other field does not parse. */
  lemma ZeroReportedInPriorityOrder(weightText: string, heightText: string)
    requires weightText != [] && heightText != []
    ensures Validate(weightText, heightText) == Rejected(BothZero)
        <==> ParseNumber(weightText) == Some(0.0) && ParseNumber(heightText) == Some(0.0)
    ensures Validate(weightText, heightText) == Rejected(WeightZero)
        <==> ParseNumber(weightText) == Some(0.0) && ParseNumber(heightText) != Some(0.0)
    ensures Validate(weightText, heightText) == Rejected(HeightZero)
        <==> ParseNumber(weightText) != Some(0.0) && ParseNumber(heightText) == Some(0.0)
  {
  }

  /** An unparsable field is reported only when neither field is zero. */
  lemma NotANumberOnlyWithoutZero(weightText: string, heightText: string)
    ensures Validate(weightText, heightText) == Rejected(NotANumber)
        <==> && weightText != [] && heightText != []
             && (ParseNumber(weightText).None? || ParseNumber(heightText).None?)
             && ParseNumber(weightText) != Some(0.0) && ParseNumber(heightText) != Some(0.0)
  {
  }

  /** Input accepted from fields that passed the keystroke filter is strictly
      positive, so the division by `height * height` is defined; and it is
      what the fields parse to. */
  lemma AcceptedIsPositive(weightText: string, heightText: string)
    requires IsNumericText(weightText) && IsNumericText(heightText)
    ensures Validate(weightText, heightText).Accepted? ==>
      && Some(Validate(weightText, heightText).weight) == ParseNumber(weightText)
      && Some(Validate(weightText, heightText).height) == ParseNumber(heightText)
      && Validate(weightText, heightText).weight > 0.0
      && Validate(weightText, heightText).height > 0.0
  {
    NumericTextIsNonNegative(weightText);
    NumericTextIsNonNegative(heightText);
  }

  /** Calculate goes on to compute exactly when both fields are filled, both
      parse, and neither reads as zero; it then computes with the parsed values. */
  lemma AcceptedExactly(weightText: string, heightText: string, w: real, h: real)
    ensures Validate(weightText, heightText) == Accepted(w, h)
        <==> && weightText != [] && heightText != []
             && ParseNumber(weightText) == Some(w) && ParseNumber(heightText) == Some(h)
             && w != 0.0 && h != 0.0
  {
  }

  /** The zero check outranks the parse check: a lone point beside a zero
      height is reported as a zero height, not as a bad number. */
  lemma PointBesideZeroHeight()
    ensures Validate(".", "0") == Rejected(HeightZero)
  {
    assert ParseNumber(".") == None by {
      assert DotIndex(".") == 0;
    }
    assert ParseNumber("0") == Some(0.0) by {
      assert DotIndex("0") == 1;
      assert DigitsValue("0") == 0;
    }
  }
}
