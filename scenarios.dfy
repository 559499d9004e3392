/** Worked cases of the screen: typical inputs, a rounded value that lands in
    a gap of the classifier, and a value whose rounding changes its category. */
module Scenarios {
  import opened Options
  import opened NumericText
  import opened Bmi
  import opened Validation
  import opened Form

  /** 70 kg at 1.75 m: 22.857... is shown as "22.86 kg/m²", Normal Weight. */
  lemma TypicalAdult()
    ensures Validate("70", "1.75") == Accepted(70.0, 1.75)
    ensures CalculateBmi(70.0, 1.75) == "22.86" + UnitSuffix
    ensures GetStatus(RoundedBmi(70.0, 1.75)) == Some(NormalWeight)
  {
    TypicalAdultInput();
    TypicalAdultShown();
  }

  lemma TypicalAdultInput()
    ensures Validate("70", "1.75") == Accepted(70.0, 1.75)
  {
    ParseDigits("70");
    DigitsValueTwo('7', '0');
    assert "1.75" == "1" + "." + "75";
    ParseDigitsPointDigits("1", "75");
    DigitsValueOne('1');
    DigitsValueTwo('7', '5');
    assert Pow10(2) == 100;
  }

  lemma TypicalAdultShown()
    ensures CalculateBmi(70.0, 1.75) == "22.86" + UnitSuffix
    ensures GetStatus(RoundedBmi(70.0, 1.75)) == Some(NormalWeight)
  {
    assert Hundredths(70.0 / (1.75 * 1.75)) == 2286;
    ShownHundredths(70.0, 1.75, 2286);
    TypicalAdultDigits();
  }

  lemma TypicalAdultDigits()
    ensures Unsigned2(2286) == "22.86"
  {
    assert NatToDigits(22) == "22";
    assert DigitChar(8) == '8' && DigitChar(6) == '6';
    assert Unsigned2(2286) == "22" + "." + "86";
  }

  /** 120 kg at 1.80 m: 37.037... is shown as "37.04 kg/m²", Obese Class II. */
  lemma HeavyAdult()
    ensures Validate("120", "1.80") == Accepted(120.0, 1.8)
    ensures CalculateBmi(120.0, 1.8) == "37.04" + UnitSuffix
    ensures GetStatus(RoundedBmi(120.0, 1.8)) == Some(ObeseClassII)
  {
    HeavyAdultInput();
    HeavyAdultShown();
  }

  lemma HeavyAdultInput()
    ensures Validate("120", "1.80") == Accepted(120.0, 1.8)
  {
    ParseDigits("120");
    DigitsValueThree('1', '2', '0');
    assert "1.80" == "1" + "." + "80";
    ParseDigitsPointDigits("1", "80");
    DigitsValueOne('1');
    DigitsValueTwo('8', '0');
    assert Pow10(2) == 100;
    assert ParseNumber("120") == Some(120.0);
    assert ParseNumber("1.80") == Some(1.8);
  }

  lemma HeavyAdultShown()
    ensures CalculateBmi(120.0, 1.8) == "37.04" + UnitSuffix
    ensures GetStatus(RoundedBmi(120.0, 1.8)) == Some(ObeseClassII)
  {
    assert Hundredths(120.0 / (1.8 * 1.8)) == 3704;
    ShownHundredths(120.0, 1.8, 3704);
    HeavyAdultDigits();
  }

  lemma HeavyAdultDigits()
    ensures Unsigned2(3704) == "37.04"
  {
    assert NatToDigits(37) == "37";
    assert DigitChar(0) == '0' && DigitChar(4) == '4';
    assert Unsigned2(3704) == "37" + "." + "04";
  }

  /** A non-negative index of `m` hundredths is shown as the unsigned text of
      `m` and reads as `m / 100`. */
  lemma ShownHundredths(weight: real, height: real, m: nat)
    requires height != 0.0 && weight / (height * height) >= 0.0
    requires Hundredths(weight / (height * height)) == m
    ensures CalculateBmi(weight, height) == Unsigned2(m) + UnitSuffix
    ensures RoundedBmi(weight, height) == m as real / 100.0
  {
  }

  /** 90 kg at 1.9 m: 24.930... is shown as 24.93, which no range of
      `getStatus` covers, so the handler reaches `error("Invalid parameters")`. */
  lemma GapIsReachable()
    ensures Validate("90", "1.9") == Accepted(90.0, 1.9)
    ensures RoundedBmi(90.0, 1.9) == 24.93
    ensures GetStatus(RoundedBmi(90.0, 1.9)) == None
  {
    GapInput();
    var m := Hundredths(90.0 / (1.9 * 1.9));
    assert m == 2493;
  }

  lemma GapInput()
    ensures Validate("90", "1.9") == Accepted(90.0, 1.9)
  {
    ParseDigits("90");
    DigitsValueTwo('9', '0');
    assert "1.9" == "1" + "." + "9";
    ParseDigitsPointDigits("1", "9");
    DigitsValueOne('1');
    DigitsValueOne('9');
    assert Pow10(1) == 10;
    AcceptedExactly("90", "1.9", 90.0, 1.9);
  }

  /** 59.93 kg at 1.8 m: the quotient 18.496... is Underweight, but the status
      comes from the shown value 18.50, which is Normal Weight. */
  lemma RoundingDecidesStatus()
    ensures Validate("59.93", "1.8") == Accepted(59.93, 1.8)
    ensures GetStatus(59.93 / (1.8 * 1.8)) == Some(Underweight)
    ensures StatusOfResult(CalculateBmi(59.93, 1.8)) == Some(NormalWeight)
  {
    RoundingInput();
    var m := Hundredths(59.93 / (1.8 * 1.8));
    assert m == 1850;
    StatusUsesRoundedBmi(59.93, 1.8);
  }

  lemma RoundingInput()
    ensures Validate("59.93", "1.8") == Accepted(59.93, 1.8)
  {
    RoundingWeightParses();
    RoundingHeightParses();
    AcceptedExactly("59.93", "1.8", 59.93, 1.8);
  }

  lemma RoundingWeightParses()
    ensures ParseNumber("59.93") == Some(59.93)
  {
    assert "59.93" == "59" + "." + "93";
    ParseDigitsPointDigits("59", "93");
    DigitsValueTwo('5', '9');
    DigitsValueTwo('9', '3');
    assert Pow10(2) == 100;
  }

  lemma RoundingHeightParses()
    ensures ParseNumber("1.8") == Some(1.8)
  {
    assert "1.8" == "1" + "." + "8";
    ParseDigitsPointDigits("1", "8");
    DigitsValueOne('1');
    DigitsValueOne('8');
    assert Pow10(1) == 10;
  }

  /** The keystroke filter drops a typed unit. */
  lemma FilterDropsUnit()
    ensures FilterNumeric("70 kg") == "70"
  {
    assert "70 kg"[1..] == "0 kg" && "0 kg"[1..] == " kg" && " kg"[1..] == "kg";
    assert "kg"[1..] == "g" && "g"[1..] == "";
  }

  /** Typing, calculating, clearing and typing the same values again shows
      the same result; letters typed into a field never reach it. */
  method RecalculateAfterClear() returns (first: string, second: string, status: string)
    ensures first == second == "22.86" + UnitSuffix
    ensures status == "Normal Weight"
  {
    var form := new BmiForm();
    FilterDropsUnit();
    form.EditWeight("70 kg");
    form.EditHeight("1.75");
    assert FilterNumeric("1.75") == "1.75";
    TypicalAdult();
    var message, outcome := form.Calculate();
    first := form.result;
    form.Clear();
    form.EditWeight("70");
    form.EditHeight("1.75");
    message, outcome := form.Calculate();
    second := form.result;
    status := form.status;
  }
}
