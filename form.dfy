/** `BMICalculator`: the fields the screen remembers across recompositions and
    the handlers that change them (the two field edits, Calculate, Clear, and
    dismissing the error dialog). */
module Form {
  import opened Options
  import opened NumericText
  import opened Bmi
  import opened Validation

  /** How a press of Calculate ends: the error dialog is raised, a result is
      shown, or `getStatus` throws and the handler does not finish. */
  datatype Outcome = ErrorShown | ResultShown | Crashed(reason: string)

  class BmiForm {
    var weight: string
    var height: string
    var result: string
    var status: string
    var weightError: bool
    var heightError: bool
    var showErrorDialog: bool

    /** Both fields only ever hold what the keystroke filter lets through. */
    ghost predicate Valid()
      reads this
    {
      IsNumericText(weight) && IsNumericText(height)
    }

    /** The initial values of the seven `remember`ed fields. */
    constructor ()
      ensures Valid()
      ensures weight == [] && height == [] && result == [] && status == []
      ensures !weightError && !heightError && !showErrorDialog
    {
      weight, height, result, status := [], [], [], [];
      weightError, heightError, showErrorDialog := false, false, false;
    }

    /** `onValueChange` of the weight field. */
    method EditWeight(newValue: string)
      requires Valid()
      modifies this
      ensures Valid()
      ensures weight == FilterNumeric(newValue)
      ensures height == old(height) && result == old(result) && status == old(status)
      ensures weightError == old(weightError) && heightError == old(heightError)
      ensures showErrorDialog == old(showErrorDialog)
    {
      weight := FilterNumeric(newValue);
    }

    /** `onValueChange` of the height field. */
    method EditHeight(newValue: string)
      requires Valid()
      modifies this
      ensures Valid()
      ensures height == FilterNumeric(newValue)
      ensures weight == old(weight) && result == old(result) && status == old(status)
      ensures weightError == old(weightError) && heightError == old(heightError)
      ensures showErrorDialog == old(showErrorDialog)
    {
      height := FilterNumeric(newValue);
    }

    /** The Calculate button. `message` is what the handler assigns to
      `dialogMessage` (`None` when it assigns nothing). Every refusal raises
      the dialog and keeps the previous result and status; an empty field also
      marks its error flag, and the other flags are left as they were. An
      accepted input clears both flags and shows the index and the status of
      the index rounded to hundredths; in a gap of `getStatus` the handler
      throws after setting the flags and the result. */
    method Calculate() returns (message: Option<string>, outcome: Outcome)
      requires Valid()
      modifies this
      ensures Valid()
      ensures weight == old(weight) && height == old(height)
      ensures match Validate(weight, height)
        case Rejected(reason) =>
          && outcome == ErrorShown && message == Message(reason) && showErrorDialog
          && weightError == (old(weightError) || reason == BothMissing || reason == WeightMissing)
          && heightError == (old(heightError) || reason == BothMissing || reason == HeightMissing)
          && result == old(result) && status == old(status)
        case Accepted(w, h) =>
          && w > 0.0 && h > 0.0
          && message == None && !weightError && !heightError
          && showErrorDialog == old(showErrorDialog)
          && result == CalculateBmi(w, h)
          && match GetStatus(RoundedBmi(w, h))
             case Some(c) => outcome == ResultShown && status == Label(c)
             case None => outcome == Crashed("Invalid parameters") && status == old(status)
    {
      var weightDouble := ParseNumber(weight);
      var heightDouble := ParseNumber(height);
      ghost var verdict := Validate(weight, height);
      message := None;
      outcome := ErrorShown;

      if weight == [] && height == [] {
        assert verdict == Rejected(BothMissing);
        message := Some("Please enter both weight and height.");
        weightError := true;
        heightError := true;
        showErrorDialog := true;
      } else if weight == [] {
        assert verdict == Rejected(WeightMissing);
        message := Some("Please enter your weight.");
        weightError := true;
        showErrorDialog := true;
      } else if height == [] {
        assert verdict == Rejected(HeightMissing);
        message := Some("Please enter your height.");
        heightError := true;
        showErrorDialog := true;
      } else if weightDouble == None || heightDouble == None
             || weightDouble == Some(0.0) || heightDouble == Some(0.0) {
        if weightDouble == Some(0.0) && heightDouble == Some(0.0) {
          assert verdict == Rejected(BothZero);
          message := Some("Both weight and height cannot be zero.");
        } else if weightDouble == Some(0.0) {
          assert verdict == Rejected(WeightZero);
          message := Some("Weight cannot be zero.");
        } else if heightDouble == Some(0.0) {
          assert verdict == Rejected(HeightZero);
          message := Some("Height cannot be zero.");
        } else {
          assert verdict == Rejected(NotANumber);
        }
        showErrorDialog := true;
      } else {
        AcceptedIsPositive(weight, height);
        var w, h := weightDouble.value, heightDouble.value;
        assert verdict == Accepted(w, h);
        outcome := ShowResult(w, h);
      }
    }

    /** The accepting branch of Calculate: both error flags are cleared, the
      result text is `calculateBMI(w, h)`, and the status is the label of the
      category that result reads as; in a gap of `getStatus` the branch
      throws after the result is set, leaving the status as it was. */
    method ShowResult(w: real, h: real) returns (outcome: Outcome)
      requires Valid() && h != 0.0
      modifies this
      ensures Valid()
      ensures weight == old(weight) && height == old(height)
      ensures showErrorDialog == old(showErrorDialog)
      ensures !weightError && !heightError && result == CalculateBmi(w, h)
      ensures match GetStatus(RoundedBmi(w, h))
        case Some(c) => outcome == ResultShown && status == Label(c)
        case None => outcome == Crashed("Invalid parameters") && status == old(status)
    {
      weightError := false;
      heightError := false;
      result := CalculateBmi(w, h);
      StatusUsesRoundedBmi(w, h);
      match StatusOfResult(result) {
        case Some(c) =>
          status := Label(c);
          outcome := ResultShown;
        case None =>
          outcome := Crashed("Invalid parameters");
      }
    }

    /** The Clear button: both fields, the result and the status become empty
      and both error flags are cleared; the dialog flag is not touched. */
    method Clear()
      requires Valid()
      modifies this
      ensures Valid()
      ensures weight == [] && height == [] && result == [] && status == []
      ensures !weightError && !heightError
      ensures showErrorDialog == old(showErrorDialog)
    {
      weight := [];
      height := [];
      result := [];
      status := [];
      weightError := false;
      heightError := false;
    }

    /** Dismissing the error dialog, by its OK button or outside it. */
    method Dismiss()
      requires Valid()
      modifies this
      ensures Valid()
      ensures !showErrorDialog
      ensures weight == old(weight) && height == old(height)
      ensures result == old(result) && status == old(status)
      ensures weightError == old(weightError) && heightError == old(heightError)
    {
      showErrorDialog := false;
    }
  }
}
