/**
 * The controller's state machine as functions on values. A `State` holds the
 * five fields the controller keeps (the text being entered, the captured
 * operand, the pending operator, the "next digit starts a new number" flag and
 * the error flag) and the texts of the two labels it writes (the result and the
 * history line). Each function computes the state one handler leaves behind.
 */
module Engine {
  import opened Numerics
  import opened Keys

  datatype State = State(
    currentInput: string,
    previousValue: string,
    currentOperator: string,
    startNewInput: bool,
    errorState: bool,
    resultText: string,
    historyText: string)

  const DivideByZeroMessage := "Не дели на ноль"
  const OverflowMessage := "Переполнение"
  const GenericErrorMessage := "Ошибка"
  const ErrorMessages: set<string> := {DivideByZeroMessage, OverflowMessage, GenericErrorMessage}

  /** The history line: the captured operand and the pending operator, when both are present. */
  function History<F>(s: State, fp: FloatingPoint<F>): (r: string)
  {
    if s.previousValue != "" && s.currentOperator != "" then
      FormatDisplayNumber(s.previousValue, fp) + " " + s.currentOperator
    else ""
  }

  /** `updateDisplay`: outside the error state, both labels are redrawn from the fields. */
  function UpdateDisplay<F>(s: State, fp: FloatingPoint<F>): (r: State)
  {
    if s.errorState then s
    else s.(resultText := FormatDisplayNumber(s.currentInput, fp), historyText := History(s, fp))
  }

  /** The controller as constructed and initialised: "0", nothing pending. */
  function Initial<F>(fp: FloatingPoint<F>): (r: State)
  {
    UpdateDisplay(State("0", "", "", true, false, "", ""), fp)
  }

  /** `clear`. */
  function Clear<F>(s: State, fp: FloatingPoint<F>): (r: State)
  {
    UpdateDisplay(s.(currentInput := "0", previousValue := "", currentOperator := "",
                     startNewInput := true, errorState := false), fp)
  }

  /** `showError`: the message replaces the result, the history is blanked. */
  function ShowError(s: State, message: string): (r: State)
  {
    s.(errorState := true, resultText := message, historyText := "")
  }

  /** `toggleSign`. */
  function ToggleSign<F>(s: State, fp: FloatingPoint<F>): (r: State)
  {
    if s.errorState then s
    else
      var input :=
        if |s.currentInput| > 0 && s.currentInput[0] == '-' then s.currentInput[1..]
        else if s.currentInput != "0" then "-" + s.currentInput
        else s.currentInput;
      UpdateDisplay(s.(currentInput := input), fp)
  }

  /** `calculatePercentage`: the input divided by 100, or the generic error if it does not parse. */
  function CalculatePercentage<F>(s: State, fp: FloatingPoint<F>): (r: State)
  {
    if s.errorState then s
    else
      match ParseNumber(s.currentInput, fp)
      case None => ShowError(s, GenericErrorMessage)
      case Some(v) => UpdateDisplay(s.(currentInput := fp.format(fp.divide(v, fp.hundred))), fp)
  }

  /** What `calculate` returns, with the state it leaves. */
  datatype Calculation = Calculation(succeeded: bool, after: State)

  function Finish<F>(s: State, result: F, fp: FloatingPoint<F>): (r: Calculation)
  {
    if !fp.finite(result) then Calculation(false, ShowError(s, OverflowMessage))
    else Calculation(true, s.(currentInput := fp.format(result)))
  }

  /**
   * `calculate`: applies the pending operator to the captured operand and the
   * input. A parse failure, a negligible divisor and a non-finite result each
   * end in the error state; an operator it does not know fails silently.
   */
  function Calculate<F>(s: State, fp: FloatingPoint<F>): (r: Calculation)
  {
    match (ParseNumber(s.previousValue, fp), ParseNumber(s.currentInput, fp))
    case (Some(a), Some(b)) =>
      if s.currentOperator == "+" then Finish(s, fp.add(a, b), fp)
      else if s.currentOperator == "-" then Finish(s, fp.subtract(a, b), fp)
      else if s.currentOperator == "×" then Finish(s, fp.multiply(a, b), fp)
      else if s.currentOperator == "÷" then
        if fp.negligible(b) then Calculation(false, ShowError(s, DivideByZeroMessage))
        else Finish(s, fp.divide(a, b), fp)
      else Calculation(false, s)
    case _ => Calculation(false, ShowError(s, GenericErrorMessage))
  }

  /** The text a number key puts in place of the input when it starts a new number. */
  function FreshInput(k: NumberKey): (r: string)
    ensures HasDigit(r)
    ensures r == "0." || r == NumberLabel(k)
  {
    if k.Point? then "0." else NumberLabel(k)
  }

  /** The input text after a number key, when the key continues the current number. */
  function ContinueInput(input: string, key: NumberKey): (r: string)
  {
    var digit := NumberLabel(key);
    if digit == "." then
      if '.' !in input then input + "." else input
    else if input == "0" && digit != "." then digit
    else if |input| < MaxDisplayLength then input + digit
    else input
  }

  /** `handleNumberClick`. */
  function NumberClick<F>(s: State, key: NumberKey, fp: FloatingPoint<F>): (r: State)
  {
    var s0 := if s.errorState then Clear(s, fp) else s;
    var s1 :=
      if s0.startNewInput then
        s0.(currentInput := FreshInput(key), startNewInput := false)
      else s0.(currentInput := ContinueInput(s0.currentInput, key));
    UpdateDisplay(s1, fp)
  }

  /** `calculate` is run by an operator key only when a second operand has been typed. */
  predicate ChainsCalculation(s: State)
  {
    s.previousValue != "" && s.currentOperator != "" && !s.startNewInput
  }

  /** `handleOperatorClick`. */
  function OperatorClick<F>(s: State, key: OperatorKey, fp: FloatingPoint<F>): (r: State)
  {
    if s.errorState then s
    else
      match key
      case AllClear => Clear(s, fp)
      case PlusMinus => ToggleSign(s, fp)
      case PercentKey => CalculatePercentage(s, fp)
      case _ =>
        var c := if ChainsCalculation(s) then Calculate(s, fp) else Calculation(true, s);
        if !c.succeeded then c.after
        else
          UpdateDisplay(c.after.(previousValue := c.after.currentInput,
                                 currentOperator := OperatorLabel(key),
                                 startNewInput := true), fp)
  }

  /** `handleEqualsClick`. */
  function EqualsClick<F>(s: State, fp: FloatingPoint<F>): (r: State)
  {
    if s.errorState || s.currentOperator == "" || s.previousValue == "" then s
    else
      var c := Calculate(s, fp);
      if !c.succeeded then c.after
      else UpdateDisplay(c.after.(previousValue := "", currentOperator := "", startNewInput := true), fp)
  }

  /** The three inputs the view forwards: a number button, an operator button, the equals button. */
  datatype Event = NumberPressed(n: NumberKey) | OperatorPressed(o: OperatorKey) | EqualsPressed

  function Handle<F>(s: State, e: Event, fp: FloatingPoint<F>): (r: State)
  {
    match e
    case NumberPressed(k) => NumberClick(s, k, fp)
    case OperatorPressed(k) => OperatorClick(s, k, fp)
    case EqualsPressed => EqualsClick(s, fp)
  }

  /** The state after a sequence of events, the first handled first. */
  function Run<F>(s: State, events: seq<Event>, fp: FloatingPoint<F>): (r: State)
  {
    if events == [] then s
    else Handle(Run(s, events[..|events| - 1], fp), events[|events| - 1], fp)
  }

  /**
   * The invariant every handler keeps: the input always holds a digit; an
   * operand is captured exactly when an operator is pending, and the operator
   * is one of the four binary labels; outside the error state the labels show
   * the fields, inside it the result label shows one of the error messages
   * and the history line is blank.
   */
  ghost predicate Valid<F>(s: State, fp: FloatingPoint<F>)
  {
    && HasDigit(s.currentInput)
    && (s.currentOperator == "" || s.currentOperator in BinaryLabels)
    && (s.previousValue == "" <==> s.currentOperator == "")
    && (s.previousValue != "" ==> HasDigit(s.previousValue))
    && (s.errorState ==> s.resultText in ErrorMessages && s.historyText == "")
    && (!s.errorState ==> s == UpdateDisplay(s, fp))
  }
}
