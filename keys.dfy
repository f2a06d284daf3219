/**
 * The calculator's buttons. The controller reads the pressed button's text;
 * here each button is a value of a closed datatype and its text is a function
 * of that value.
 */
module Keys {

  type DecimalDigit = c: char | '0' <= c <= '9' witness '0'

  /** The buttons wired to the number handler: ten digits and the decimal point. */
  datatype NumberKey = Digit(d: DecimalDigit) | Point

  function NumberLabel(k: NumberKey): (r: string)
  {
    match k
    case Digit(d) => [d]
    case Point => "."
  }

  /** The buttons wired to the operator handler. */
  datatype OperatorKey = Plus | Minus | Times | Obelus | AllClear | PlusMinus | PercentKey

  function OperatorLabel(k: OperatorKey): (r: string)
  {
    match k
    case Plus => "+"
    case Minus => "-"
    case Times => "×"
    case Obelus => "÷"
    case AllClear => "AC"
    case PlusMinus => "±"
    case PercentKey => "%"
  }

  /** The labels of the four binary operators, the only values a pending operator takes. */
  const BinaryLabels: set<string> := {"+", "-", "×", "÷"}

  predicate IsBinary(k: OperatorKey) { k.Plus? || k.Minus? || k.Times? || k.Obelus? }
}
