# BMI Calculator — a verified model of the calculator screen

The app is a single Jetpack Compose screen. The user types a weight in kilograms and a height in metres. **Calculate** shows the body-mass index as text such as `22.86 kg/m²`, together with a status such as `Normal Weight`. **Clear** empties the screen. Invalid input raises an error dialog and marks the empty fields.

This project models that screen's logic as written in `MainActivity.kt`:

- **`NumericText`**
  - The keystroke filter each field applies on every edit.
  - `String.toDoubleOrNull` on text that got through the filter. It reads the text as an exact decimal: digits and at most one point, with a digit on at least one side.
- **`Bmi`**
  - `calculateBMI`: the quotient `weight / height²`, formatted with `"%.2f"` (halves rounded up) and followed by ` kg/m²`.
  - `split(" ")[0]`, which takes the number back out of the result text.
  - `getStatus`: the ordered `when` over six weight categories. It has four gaps, e.g. 24.9 < x < 25.0. A value in a gap makes the source call `error("Invalid parameters")`.
- **`Validation`**: the decision the Calculate handler makes, as a value. Either it refuses the input for a reason, which carries the dialog message, or it accepts two numbers.
- **`Form`**: the class `BmiForm` holds the seven `remember`ed fields. Its methods are:
  - the two field edits;
  - Calculate, which returns the dialog message it assigns and how the press ended;
  - Clear;
  - dismissing the dialog.

  Each method states the complete new state. The invariant `Valid` says that both fields only ever hold digits and points.
- **`Scenarios`**: worked inputs, including one whose rounded index falls in a gap of `getStatus` and one where rounding changes the category.

The handler checks for zero before it checks for unparsable text, inside a single branch. So a weight of `.` (which does not parse) with a height of `0` is reported as "Height cannot be zero." (see `Validation.PointBesideZeroHeight`). An unparsable field beside non-zero input raises the dialog with no new message.

## Model

| member | source | states |
|---|---|---|
| NumericText.FilterNumeric | app/src/main/java/com/example/bmicalculatorapp/MainActivity.kt:182 | the filtered text holds only digits and points, is no longer than the input, and equals the input exactly when the input already held only digits and points |
| NumericText.FilterNumericIdempotent | app/src/main/java/com/example/bmicalculatorapp/MainActivity.kt:212 | filtering an already filtered text changes nothing |
| NumericText.FilterNumericAppend | app/src/main/java/com/example/bmicalculatorapp/MainActivity.kt:182 | the filter works one character at a time: filtering a + b gives filter(a) + filter(b) |
| NumericText.FilterNumericKeepsOrder | app/src/main/java/com/example/bmicalculatorapp/MainActivity.kt:182 | the filtered text consists of characters of the input at strictly increasing positions, and every digit or point of the input is among them |
| NumericText.DotIndex | app/src/main/java/com/example/bmicalculatorapp/MainActivity.kt:270-271 | the position of the first decimal point, or the length when there is none; no point comes before it |
| NumericText.ParseUnsigned | app/src/main/java/com/example/bmicalculatorapp/MainActivity.kt:270-271 | a text that has a value is non-empty, holds only digits and points, and its value is at least zero |
| NumericText.ParsePointed | app/src/main/java/com/example/bmicalculatorapp/MainActivity.kt:270-271 | the text around a point has a value only when some digit is present, and that value is non-negative |
| NumericText.DecimalValue | app/src/main/java/com/example/bmicalculatorapp/MainActivity.kt:270-271 | the value of whole.frac is at least the value of the whole part |
| NumericText.ParseDigitsPointDigits | app/src/main/java/com/example/bmicalculatorapp/MainActivity.kt:270-271 | digits, a point and digits parse to the whole part plus the fraction divided by ten to the power of its length |
| NumericText.ParsePointDigits | app/src/main/java/com/example/bmicalculatorapp/MainActivity.kt:270-271 | a point followed by digits (".5") parses to the fraction divided by ten to the power of its length |
| NumericText.ParseDigits | app/src/main/java/com/example/bmicalculatorapp/MainActivity.kt:270-271 | a run of digits parses to its decimal value |
| NumericText.ParseNumber | app/src/main/java/com/example/bmicalculatorapp/MainActivity.kt:270-271 | a text with a value is non-empty, and a negative value needs a leading minus sign |
| NumericText.NumericTextIsNonNegative | app/src/main/java/com/example/bmicalculatorapp/MainActivity.kt:270-271 | filtered text has no sign, so any value it parses to is at least zero and is the unsigned reading |
| NumericText.ParsesToZero | app/src/main/java/com/example/bmicalculatorapp/MainActivity.kt:286-291 | under the exact decimal reading, filtered text reads as zero (the test of the zero checks) exactly when it has a digit, at most one point and no digit other than '0' |
| NumericText.DigitChar | app/src/main/java/com/example/bmicalculatorapp/MainActivity.kt:82 | the character written for a digit value below ten is a digit, and reads back as that value |
| NumericText.NatToDigits | app/src/main/java/com/example/bmicalculatorapp/MainActivity.kt:82 | the integer part "%.2f" prints is a non-empty run of digits |
| NumericText.NatToDigitsNoLeadingZero | app/src/main/java/com/example/bmicalculatorapp/MainActivity.kt:82 | the printed integer part starts with '0' only for zero, and a number below ten is printed as one digit |
| NumericText.NatToDigitsRoundTrip | app/src/main/java/com/example/bmicalculatorapp/MainActivity.kt:82 | reading back the printed digits of n gives n |
| Bmi.Hundredths | app/src/main/java/com/example/bmicalculatorapp/MainActivity.kt:82 | the number of hundredths "%.2f" prints is x·100 rounded to the nearest integer, halves up |
| Bmi.Round2 | app/src/main/java/com/example/bmicalculatorapp/MainActivity.kt:82 | the displayed value lies within 0.005 of the exact value |
| Bmi.Round2OfHundredths | app/src/main/java/com/example/bmicalculatorapp/MainActivity.kt:82 | a value that already has at most two decimals is displayed unchanged |
| Bmi.Round2Idempotent | app/src/main/java/com/example/bmicalculatorapp/MainActivity.kt:82 | rounding a displayed value again changes nothing |
| Bmi.Fixed2 | app/src/main/java/com/example/bmicalculatorapp/MainActivity.kt:82 | the formatted number contains no space, so the split at line 299 cannot cut into it |
| Bmi.Unsigned2RoundTrip | app/src/main/java/com/example/bmicalculatorapp/MainActivity.kt:82 | the unsigned text of m hundredths parses back to m / 100 |
| Bmi.Fixed2RoundTrip | app/src/main/java/com/example/bmicalculatorapp/MainActivity.kt:82 | parsing the "%.2f" text of x gives x rounded to hundredths |
| Bmi.Unsigned2Shape | app/src/main/java/com/example/bmicalculatorapp/MainActivity.kt:82 | the text of m hundredths is digits, a point and exactly two digits, with no leading zero in the integer part |
| Bmi.Fixed2Shape | app/src/main/java/com/example/bmicalculatorapp/MainActivity.kt:82 | "%.2f" prints an optional minus sign, digits without a leading zero, a point and exactly two digits; the sign appears exactly for a negative value |
| Bmi.CalculateBmi | app/src/main/java/com/example/bmicalculatorapp/MainActivity.kt:77-84 | the result is its first field followed by " kg/m²", and that field parses to weight / height² rounded to hundredths |
| Bmi.CalculateBmiShape | app/src/main/java/com/example/bmicalculatorapp/MainActivity.kt:77-84 | the first field of the result has the two-decimal shape "%.2f" prints, with no minus sign for a non-negative weight, and " kg/m²" follows it |
| Bmi.FirstField | app/src/main/java/com/example/bmicalculatorapp/MainActivity.kt:299 | split(" ")[0] is the prefix of the text before its first space, or the whole text |
| Bmi.FirstFieldBeforeSpace | app/src/main/java/com/example/bmicalculatorapp/MainActivity.kt:83 | the first field of number + " " + unit is the number when the number has no space |
| Bmi.GetStatus | app/src/main/java/com/example/bmicalculatorapp/MainActivity.kt:86-98 | the classifier fails exactly on the four gaps; otherwise the category it returns is one whose band holds the value |
| Bmi.LabelInjective | app/src/main/java/com/example/bmicalculatorapp/MainActivity.kt:90-95 | the six status texts are pairwise distinct, so a status text names exactly one category |
| Bmi.StatusIsTheOnlyBand | app/src/main/java/com/example/bmicalculatorapp/MainActivity.kt:89-96 | the bands do not overlap: a category is returned exactly when its band holds the value |
| Bmi.StatusGapsOnHundredths | app/src/main/java/com/example/bmicalculatorapp/MainActivity.kt:89-96 | on two-decimal values the classifier fails exactly at 24.91–24.99, 29.91–29.99, 34.91–34.99 and 39.91–39.99 |
| Bmi.StatusOfResult | app/src/main/java/com/example/bmicalculatorapp/MainActivity.kt:299 | a result text whose first field does not parse is classified as 0.0, i.e. Underweight; the classifier fails only on a parsed value in a gap |
| Bmi.StatusUsesRoundedBmi | app/src/main/java/com/example/bmicalculatorapp/MainActivity.kt:298-299 | the status shown for a computed result is the category of the rounded index, not of the exact quotient |
| Validation.Validate | app/src/main/java/com/example/bmicalculatorapp/MainActivity.kt:273-298 | the handler computes only with the non-zero values the two fields parse to, and reports an unparsable field only when some field fails to parse |
| Validation.Message | app/src/main/java/com/example/bmicalculatorapp/MainActivity.kt:274-292 | the handler assigns a message for every refusal except an unparsable field beside non-zero input |
| Validation.EmptinessDecidesFirst | app/src/main/java/com/example/bmicalculatorapp/MainActivity.kt:273-285 | each of the three emptiness errors is reported exactly when its fields are empty, whatever they parse to |
| Validation.ZeroReportedInPriorityOrder | app/src/main/java/com/example/bmicalculatorapp/MainActivity.kt:286-293 | with both fields filled, the zero errors are reported in the order both, weight, height, each exactly when its fields read as zero |
| Validation.NotANumberOnlyWithoutZero | app/src/main/java/com/example/bmicalculatorapp/MainActivity.kt:286-294 | an unparsable field is reported exactly when both fields are filled, some field does not parse and none reads as zero |
| Validation.AcceptedIsPositive | app/src/main/java/com/example/bmicalculatorapp/MainActivity.kt:295-298 | input accepted from filtered fields is what the fields parse to, and both numbers are strictly positive |
| Validation.AcceptedExactly | app/src/main/java/com/example/bmicalculatorapp/MainActivity.kt:286-298 | the handler computes with (w, h) exactly when both fields are filled, parse to w and h, and neither is zero |
| Validation.PointBesideZeroHeight | app/src/main/java/com/example/bmicalculatorapp/MainActivity.kt:286-294 | a weight of "." beside a height of "0" is reported as a zero height |
| Form.BmiForm.constructor | app/src/main/java/com/example/bmicalculatorapp/MainActivity.kt:103-110 | all four texts start empty and all three flags false |
| Form.BmiForm.EditWeight | app/src/main/java/com/example/bmicalculatorapp/MainActivity.kt:181-183 | the weight field becomes the filtered new value; nothing else changes |
| Form.BmiForm.EditHeight | app/src/main/java/com/example/bmicalculatorapp/MainActivity.kt:211-213 | the height field becomes the filtered new value; nothing else changes |
| Form.BmiForm.Calculate | app/src/main/java/com/example/bmicalculatorapp/MainActivity.kt:269-301 | a refusal raises the dialog with the reason's message, sets only the flags of the empty fields and keeps result and status. Accepted positive input clears both flags and sets the result text. The status becomes the label of the rounded index's category, or the press ends in error("Invalid parameters") with the status unchanged. The fields are untouched |
| Form.BmiForm.ShowResult | app/src/main/java/com/example/bmicalculatorapp/MainActivity.kt:295-300 | the accepting branch clears both error flags and sets the result to calculateBMI(w, h). The status becomes the label of the rounded index's category; in a gap the branch ends in error("Invalid parameters") with the status unchanged. Fields and the dialog flag are untouched |
| Form.BmiForm.Clear | app/src/main/java/com/example/bmicalculatorapp/MainActivity.kt:312-319 | fields, result and status become empty and both error flags false; the dialog flag is kept |
| Form.BmiForm.Dismiss | app/src/main/java/com/example/bmicalculatorapp/MainActivity.kt:244 | dismissing the dialog (line 244, and the OK button at line 250) lowers the dialog flag and changes nothing else |
| Scenarios.TypicalAdult | app/src/main/java/com/example/bmicalculatorapp/MainActivity.kt:269-301 | "70" and "1.75" are accepted and shown as "22.86 kg/m²", Normal Weight |
| Scenarios.HeavyAdult | app/src/main/java/com/example/bmicalculatorapp/MainActivity.kt:269-301 | "120" and "1.80" are accepted and shown as "37.04 kg/m²", Obese Class II |
| Scenarios.GapIsReachable | app/src/main/java/com/example/bmicalculatorapp/MainActivity.kt:86-98 | "90" and "1.9" are accepted, and the rounded index 24.93 falls in a gap, so getStatus fails |
| Scenarios.RoundingDecidesStatus | app/src/main/java/com/example/bmicalculatorapp/MainActivity.kt:298-299 | for "59.93" and "1.8" the exact quotient is Underweight, but the displayed 18.50 is classified as Normal Weight |
| Scenarios.FilterDropsUnit | app/src/main/java/com/example/bmicalculatorapp/MainActivity.kt:182 | typing "70 kg" leaves "70" in the field |
| Scenarios.RecalculateAfterClear | app/src/main/java/com/example/bmicalculatorapp/MainActivity.kt:312-319 | calculating, clearing and entering the same values again shows the same result and status |

## Left out

- Compose layout, the theme, images, string resources and the dialog's rendering are not modelled. `dialogMessage` is a local variable. The model only returns it from Calculate; it does not model that it is reset on recomposition, so the dialog text it would show is not modelled.
- Numbers are exact reals, not IEEE-754 doubles. The quotient is not rounded to binary, and the model rounds the exact quotient half-up to hundredths, which is not exactly how Java's "%.2f" rounds a double, so near a half-hundredth the shown digit can differ from the app's.
- `String.format` uses the device locale. With a comma decimal separator, `toDoubleOrNull` fails on the result text and the status falls back to `getStatus(0.0)` (Underweight). The model uses '.' only.
- `String.toDoubleOrNull` also accepts exponents, `NaN`, `Infinity`, hexadecimal forms and surrounding whitespace. That text cannot get through the field filter, so `NumericText.ParseNumber` reads only an optional sign, digits and one point; anything else has no value.
- NumericText.FilterNumeric: `Char.isDigit` also accepts non-ASCII decimal digits, which the model treats as dropped characters.
- Bmi.CalculateBmi: requires a non-zero height. In Kotlin a zero height with a non-zero weight gives "Infinity kg/m²", and zero over zero gives "NaN kg/m²". The only caller refuses a field that reads as zero first (`Validation.AcceptedIsPositive`).
- Overflow to infinity for very long digit strings is not modelled: values are unbounded.
- NumericText.ParseNumber: reads the exact decimal value, while `toDoubleOrNull` rounds to the nearest double and underflows. So a field such as "0." followed by hundreds of zeros and a '1' reads as 0.0 in the app and is reported as zero, but the model reads it as a small positive value (`NumericText.ParsesToZero` and `Validation.Validate` then accept it).
- Bmi.CalculateBmi: in the app, `height * height` can underflow to 0.0 for a tiny non-zero height, which shows "Infinity kg/m²". The model divides exactly.
- Form.BmiForm.Calculate: when `getStatus` throws, the model reports `Crashed("Invalid parameters")` with the state as it stood at the throw. It does not model the uncaught exception ending the app process.
- Android recomposition, state saving across configuration changes and concurrency are not modelled.
