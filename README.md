# Calculator controller — a Dafny model

This project models the input state machine of a JavaFX desktop calculator,
the class `CalculatorController`. The controller keeps five fields:
- the text being entered (`currentInput`);
- the operand captured when an operator was pressed (`previousValue`);
- the pending operator (`currentOperator`);
- a flag saying the next digit starts a new number (`startNewInput`);
- an error flag (`errorState`).

Its handlers react to digit, operator and equals buttons. They update those
fields and redraw two labels: the result and the history line.

The model has two layers:

- `Engine` (engine.dfy) states what each handler does as a function on a
  `State` value. The value holds the five fields and the two label texts.
  `Engine.Valid` is the invariant that every handler keeps.
- `Controller.CalculatorController` (controller.dfy) is a class with the same
  fields. Its methods mirror the Java handlers statement by statement. Each
  method is proved to leave the state that the matching `Engine` function
  computes. The public handlers are also proved to keep `Valid()`.

Properties (properties.dfy) proves the behaviour that the handlers promise:
- clearing and its idempotence;
- digit entry: new-number replacement, the single decimal point, the "0"
  collapse and the 12-character cap;
- the sign toggle;
- operator chaining, including the failed chain that drops the new operator;
- equals and its idempotence;
- the error path;
- the invariant over any sequence of button presses.

Scenarios (scenarios.dfy) follows whole button sequences from start-up:
`5 + 3 =`, `10 ÷ 0 =`, two digits followed by `%`, and recovery from the error state.

The floating-point side is deliberately abstract. It covers Java `double`
arithmetic, `Double.parseDouble`, the `DecimalFormat("#.##########")` and
`String.format("%.6e")`. The model writes each of these as an uninterpreted
operation of a `Numerics.FloatingPoint<F>` record. The class receives that
record at construction, as the Java class builds its `DecimalFormat` in its
constructor. What is modelled exactly is the text and control logic around
those operations:
- comma normalisation;
- the empty-string rule of `parseNumber`;
- the branches of `formatDisplayNumber`;
- the operator switch, the zero-divisor guard and the finiteness check of
  `calculate`.

Three consequences of the code deserve a mention:

- The digit branch of `handleNumberClick` caps the input at 12 characters
  (CalculatorController.java:117), but `.` is appended without a length check
  (lines 110-113). So a 12-digit input becomes 13 characters long
  (`Properties.PointExceedsCap`).
- `AC` is dispatched inside `handleOperatorClick` after its error-state early
  return (lines 127-134). In the error state `AC` therefore does nothing, and
  only a digit press recovers (`Properties.OperatorClickIgnoredInError`,
  `Scenarios.OnlyDigitRecoversFromError`).
- `calculatePercentage` does not set `startNewInput` (lines 234-238). While
  a number is being typed, a digit pressed after `%` continues the formatted
  hundredth as a typed digit would (lines 114-119): it is appended while the
  text is shorter than 12 characters, it replaces a lone "0", and it is
  dropped at the cap. So `5 % 3` leads to the text of 0.05 followed by "3",
  and `0 % 5` leads to "5" (`Properties.DigitAfterPercentContinues`).

## Model

| member | source | states |
|---|---|---|
| `Numerics.Replace` | src/main/java/com/mycalculator/CalculatorController.java:79 | comma normalisation keeps the length, turns every `,` into `.`, leaves every other character in place, and returns comma-free text unchanged |
| `Numerics.ReplaceIsIdempotent` | src/main/java/com/mycalculator/CalculatorController.java:207 | normalising already normalised text changes nothing |
| `Numerics.ParseNumberReadsCommaAsPoint` | src/main/java/com/mycalculator/CalculatorController.java:205-209 | `parseNumber` gives the same value for the comma and the dot spelling of a number, and hands non-empty text to the double parser only after normalisation |
| `Numerics.FormatDisplayNumber` | src/main/java/com/mycalculator/CalculatorController.java:72-97 | empty text is displayed as "0"; text with neither `.` nor `,` and at most 12 characters is displayed unchanged |
| `Numerics.FormatDisplayNumberReadsCommaAsPoint` | src/main/java/com/mycalculator/CalculatorController.java:79 | the display of a number does not depend on whether it was written with a comma or a dot |
| `Numerics.FormatDisplayNumberRejectsMalformed` | src/main/java/com/mycalculator/CalculatorController.java:81-96 | decimal text that the double parser rejects is displayed as "Error" |
| `Numerics.FormatDisplayNumberLongInteger` | src/main/java/com/mycalculator/CalculatorController.java:86-89 | text without a decimal point that is longer than 12 characters is displayed in scientific notation, with no upper-case `E` |
| `Numerics.FormatDisplayNumberLongMalformed` | src/main/java/com/mycalculator/CalculatorController.java:86-95 | text without a decimal point that is longer than 12 characters and that the double parser rejects is displayed as "Error" |
| `Properties.ClearRestoresDefault` | src/main/java/com/mycalculator/CalculatorController.java:211-218 | clear gives the start-up state from any state, error state included: input "0", no operand, no operator, a new number next, no error, result "0", blank history |
| `Properties.ClearIsIdempotent` | src/main/java/com/mycalculator/CalculatorController.java:211-218 | clearing twice is the same as clearing once |
| `Engine.FreshInput` | src/main/java/com/mycalculator/CalculatorController.java:106-107 | the text that starts a new number always holds a digit: the digit itself, or "0." for the point |
| `Properties.NumberClickRecovers` | src/main/java/com/mycalculator/CalculatorController.java:101-108 | a number key always leaves the error state and continues the number; in the error state it first clears, so nothing stays pending; otherwise it keeps the operand and the operator |
| `Properties.NumberClickStartsNewNumber` | src/main/java/com/mycalculator/CalculatorController.java:106-108 | when a new number is due, the key replaces the input with the digit, or with "0." for the point |
| `Properties.NumberClickInput` | src/main/java/com/mycalculator/CalculatorController.java:100-121 | the input after a number key is the fresh text after an operator, an equals or an error, and the continuation otherwise; the key always clears both flags |
| `Properties.PointAppendedOnce` | src/main/java/com/mycalculator/CalculatorController.java:110-113 | when continuing a number, the point is appended exactly when the input has none, and afterwards the input holds a point |
| `Properties.NumberClickKeepsOneDecimalPoint` | src/main/java/com/mycalculator/CalculatorController.java:106-121 | digit entry never produces a second decimal point |
| `Properties.DigitRespectsCap` | src/main/java/com/mycalculator/CalculatorController.java:114-119 | when continuing a number, a digit replaces a lone "0", is appended to any other input shorter than 12 characters, and is dropped once the input has 12 or more characters; an input of at most 12 characters stays within 12 |
| `Properties.PointExceedsCap` | src/main/java/com/mycalculator/CalculatorController.java:110-113 | the point is not held to the cap: a 12-character input without a point grows to 13 |
| `Properties.TypedDigits` | src/main/java/com/mycalculator/CalculatorController.java:106-119 | typing 1 to 12 digits into a new number yields exactly the typed digits, with leading zeros collapsed |
| `Properties.TypedPoint` | src/main/java/com/mycalculator/CalculatorController.java:106-113 | typing up to 12 digits and then the point into a new number yields the integer part (leading zeros collapsed, "0" when the point comes first) followed by a point |
| `Properties.TypedDecimal` | src/main/java/com/mycalculator/CalculatorController.java:106-119 | typing a number with one decimal point into a new number, within the 12-character cap, yields its integer part, the point, and the fraction digits exactly as typed |
| `Properties.ToggleSignChangesOnlyInput` | src/main/java/com/mycalculator/CalculatorController.java:220-229 | the sign toggle does nothing in the error state; otherwise it changes only the input (the labels are redrawn from the new input): it strips a leading minus, leaves "0" alone, and prefixes a minus in every other case |
| `Properties.ToggleSignTwice` | src/main/java/com/mycalculator/CalculatorController.java:223-227 | toggling twice restores the input, unless the input is "-0" or starts with two minus signs |
| `Properties.ToggleSignMinusZero` | src/main/java/com/mycalculator/CalculatorController.java:223-226 | "-0" toggles to "0", and a second toggle leaves "0" |
| `Properties.ShowErrorKeepsOperands` | src/main/java/com/mycalculator/CalculatorController.java:244-248 | showing an error sets the error flag, puts the message in the result label and blanks the history; the input, the operand, the operator and the new-number flag stay as they were |
| `Properties.CalculateFailure` | src/main/java/com/mycalculator/CalculatorController.java:165-203 | a failed calculation keeps the input, the operand and the operator; it either changes nothing or only shows an error; it stays out of the error state only for an operator it does not know |
| `Properties.CalculateSuccess` | src/main/java/com/mycalculator/CalculatorController.java:165-198 | a successful calculation had one of the four operators and changes only the input, to text that holds a digit |
| `Properties.CalculateOutcome` | src/main/java/com/mycalculator/CalculatorController.java:165-203 | combines the two lemmas above: a failure that changes the state is a shown error with one of the three messages |
| `Properties.CalculateErrorMessage` | src/main/java/com/mycalculator/CalculatorController.java:183-200 | every error a calculation shows is the divide-by-zero, the overflow or the generic message |
| `Properties.CalculateUnknownOperator` | src/main/java/com/mycalculator/CalculatorController.java:188-189 | when both operands parse, an unknown operator makes the calculation fail with the state untouched and no error shown |
| `Properties.CalculateDivideByZero` | src/main/java/com/mycalculator/CalculatorController.java:181-185 | division by a negligible divisor fails with the divide-by-zero message and no arithmetic |
| `Properties.CalculateArithmetic` | src/main/java/com/mycalculator/CalculatorController.java:171-198 | with both operands parsed, each of the four operators (division only by a divisor that is not negligible) succeeds with its formatted result when that result is finite, and fails with the overflow message when it is infinite or not a number |
| `Properties.OperatorClickIgnoredInError` | src/main/java/com/mycalculator/CalculatorController.java:127-134 | in the error state every operator button does nothing, `AC`, `±` and `%` included |
| `Properties.OperatorClickFailedChain` | src/main/java/com/mycalculator/CalculatorController.java:143-145 | if the chained calculation fails, the new operator is not recorded and the old operand and operator remain |
| `Properties.OperatorClickRecords` | src/main/java/com/mycalculator/CalculatorController.java:143-150 | otherwise a binary operator captures the input (the chained result, if one was computed) as the operand, records its own label, asks for a new number and stays out of the error state |
| `Properties.EqualsClickNothingPending` | src/main/java/com/mycalculator/CalculatorController.java:155 | equals does nothing in the error state or when no operator or operand is pending |
| `Properties.EqualsClickCompletes` | src/main/java/com/mycalculator/CalculatorController.java:157-162 | a successful equals shows the computed input, clears the operand, the operator and the history, and asks for a new number |
| `Properties.EqualsClickIsIdempotent` | src/main/java/com/mycalculator/CalculatorController.java:153-163 | a second equals in a row changes nothing, whatever the first one did |
| `Properties.PercentageOutcome` | src/main/java/com/mycalculator/CalculatorController.java:231-242 | percent replaces the input with the formatted hundredth of its value and keeps the operand, the operator and the new-number flag; input that does not parse shows the generic error |
| `Properties.DigitAfterPercentContinues` | src/main/java/com/mycalculator/CalculatorController.java:231-238 | while a number is being typed, a digit pressed after `%` continues the formatted hundredth rather than starting a new number |
| `Properties.InitialIsValid` | src/main/java/com/mycalculator/CalculatorController.java:25-41 | the start-up state satisfies the invariant |
| `Properties.ClearIsValid` | src/main/java/com/mycalculator/CalculatorController.java:211-218 | clear establishes the invariant from any state |
| `Properties.NumberClickPreservesValid` | src/main/java/com/mycalculator/CalculatorController.java:100-123 | a number key keeps the invariant: the input holds a digit, an operand is pending exactly when one of the four operators is, and the labels show the fields |
| `Properties.ToggleSignPreservesValid` | src/main/java/com/mycalculator/CalculatorController.java:220-229 | the sign toggle keeps the invariant, and so the input still holds a digit |
| `Properties.OperatorClickPreservesValid` | src/main/java/com/mycalculator/CalculatorController.java:125-151 | every operator button keeps the invariant |
| `Properties.EqualsClickPreservesValid` | src/main/java/com/mycalculator/CalculatorController.java:153-163 | equals keeps the invariant |
| `Properties.HandlePreservesValid` | src/main/java/com/mycalculator/CalculatorController.java:100-163 | every button press keeps the invariant |
| `Properties.RunPreservesValid` | src/main/java/com/mycalculator/CalculatorController.java:100-163 | every sequence of button presses keeps the invariant |
| `Properties.ValidCalculateFailsLoudly` | src/main/java/com/mycalculator/CalculatorController.java:171-190 | in a state that satisfies the invariant, a failed calculation always enters the error state, so the unknown-operator branch is never taken |
| `Properties.ErrorStateShowsMessage` | src/main/java/com/mycalculator/CalculatorController.java:244-248 | after any sequence of button presses from start-up, the error state shows one of the three messages and a blank history |
| `Scenarios.AddThenEquals` | src/main/java/com/mycalculator/CalculatorController.java:143-162 | `5 + 3 =` leaves the formatted sum in the input, nothing pending, a blank history and no error |
| `Scenarios.DivideByZeroThenEquals` | src/main/java/com/mycalculator/CalculatorController.java:181-185 | `10 ÷ 0 =` enters the error state with the divide-by-zero message and a blank history, and keeps the operands "10" and "0" and the operator |
| `Scenarios.PercentOfTwoDigits` | src/main/java/com/mycalculator/CalculatorController.java:231-238 | typing two digits, the first not 0, then `%` (for example `5 0 %`) leaves the formatted hundredth of the typed number in the input |
| `Scenarios.PercentAfter` | src/main/java/com/mycalculator/CalculatorController.java:231-238 | after any presses that leave a parsable input outside the error state, `%` makes the formatted hundredth of that input the new input (`currentInput`, not the label text) and raises no error |
| `Scenarios.OnlyDigitRecoversFromError` | src/main/java/com/mycalculator/CalculatorController.java:100-134 | in the error state `AC` and equals change nothing, and a number key leaves the error state with nothing pending |
| `Controller.CalculatorController.constructor` | src/main/java/com/mycalculator/CalculatorController.java:33-41 | the constructor followed by `initialize` gives the start-up state and establishes the invariant |
| `Controller.CalculatorController.UpdateDisplay` | src/main/java/com/mycalculator/CalculatorController.java:50-59 | outside the error state, the labels are redrawn from the fields; in the error state nothing changes |
| `Controller.CalculatorController.HandleNumberClick` | src/main/java/com/mycalculator/CalculatorController.java:100-123 | the in-place handler leaves exactly the state of `Engine.NumberClick` and keeps the invariant |
| `Controller.CalculatorController.HandleOperatorClick` | src/main/java/com/mycalculator/CalculatorController.java:125-151 | the in-place handler leaves exactly the state of `Engine.OperatorClick` and keeps the invariant |
| `Controller.CalculatorController.ApplyBinaryOperator` | src/main/java/com/mycalculator/CalculatorController.java:143-150 | for a binary operator outside the error state, leaves exactly the state of `Engine.OperatorClick` |
| `Controller.CalculatorController.HandleEqualsClick` | src/main/java/com/mycalculator/CalculatorController.java:153-163 | the in-place handler leaves exactly the state of `Engine.EqualsClick` and keeps the invariant |
| `Controller.CalculatorController.CompleteCalculation` | src/main/java/com/mycalculator/CalculatorController.java:157-162 | with an operand and an operator pending outside the error state, leaves exactly the state of `Engine.EqualsClick` |
| `Controller.CalculatorController.Calculate` | src/main/java/com/mycalculator/CalculatorController.java:165-203 | returns success and leaves the state exactly as `Engine.Calculate` describes |
| `Controller.CalculatorController.Clear` | src/main/java/com/mycalculator/CalculatorController.java:211-218 | leaves the state of `Engine.Clear` and establishes the invariant |
| `Controller.CalculatorController.ToggleSign` | src/main/java/com/mycalculator/CalculatorController.java:220-229 | leaves the state of `Engine.ToggleSign` |
| `Controller.CalculatorController.CalculatePercentage` | src/main/java/com/mycalculator/CalculatorController.java:231-242 | leaves the state of `Engine.CalculatePercentage` |
| `Controller.CalculatorController.ShowError` | src/main/java/com/mycalculator/CalculatorController.java:244-248 | leaves the state of `Engine.ShowError` |

## Left out

- The `double` arithmetic, `Double.parseDouble`, the 1e-12 divisor threshold, the `DecimalFormat` and `%.6e` conversions (CalculatorController.java:36, 82-88, 167-198, 235-237). They are uninterpreted operations of `Numerics.FloatingPoint`: floating-point rounding is not modelled.
- `Numerics.FloatingPoint.format` is assumed to return text holding a decimal digit for every double (the `Numerics.Numeral` type). Java's `DecimalFormat` renders infinity and NaN as "∞" and "NaN", so the assumption is false for those two values. It does no harm in the controller: a calculated result is formatted only after the finiteness check (lines 192-197), and `%` formats the hundredth of the parsed input. That input is typed text (digits, at most one point and an optional leading minus, at most 14 characters, since `±` can prefix a 12-digit input before `.` is appended), or a formatted finite result, possibly toggled by `±` or extended by digit keys after `%`. Each such text parses to a finite double, and so its hundredth is finite too. The model does not prove this last fact, because parsing and arithmetic are uninterpreted.
- The audio clips and their loading (CalculatorController.java:23-24, 43-46, 61-69). This is media I/O, triggered by floating-point comparisons, and it does not affect the state.
- The JavaFX labels are plain string fields holding their text. The button objects are closed datatypes `Keys.NumberKey` and `Keys.OperatorKey`. The FXML that gives the buttons their text is not part of this model, so a button label outside these datatypes is not modelled.
- Java `null` strings: no field is ever null, and the `null` test in `formatDisplayNumber` is covered by its empty-string case.
- `Properties.ToggleSignTwice`: also excludes inputs starting with "--", which the toggle would turn into "-…" and then into text without a minus; no button sequence forms such an input.
- `Properties.TypedDigits`, `Properties.TypedDecimal`: cover at most 12 digit keys before the point and no key past the cap. Longer runs of leading zeros, which the "0" replacement absorbs, and runs that reach the cap, where further digits are dropped, are stated only key by key (`Properties.DigitRespectsCap`).
- CalculatorApp.java (window, stylesheet, drag-to-move) and module-info.java: user-interface plumbing and a module descriptor, with no calculator logic.
