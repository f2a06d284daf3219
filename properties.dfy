/**
 * What the controller's handlers promise, stated over the `Engine` functions:
 * clearing, digit entry, the sign toggle, operator chaining, equals and the
 * error path, then the invariant every handler keeps.
 */
module Properties {
  import opened Numerics
  import opened Keys
  import opened Engine

  // ---------------------------------------------------------------- clear

  /** Clearing reaches the state the controller starts in, whatever came before, error state included. */
  lemma ClearRestoresDefault<F>(s: State, fp: FloatingPoint<F>)
    ensures Clear(s, fp) == Initial(fp)
    ensures Initial(fp) == State("0", "", "", true, false, "0", "")
  {
  }

  lemma ClearIsIdempotent<F>(s: State, fp: FloatingPoint<F>)
    ensures Clear(Clear(s, fp), fp) == Clear(s, fp)
  {
  }

  // ---------------------------------------------------------------- digit entry

  /**
   * A number key always leaves the error state and continues the number; in
   * the error state it first clears, so nothing stays pending and the key
   * starts a new number.
   */
  lemma NumberClickRecovers<F>(s: State, k: NumberKey, fp: FloatingPoint<F>)
    ensures !NumberClick(s, k, fp).errorState
    ensures !NumberClick(s, k, fp).startNewInput
    ensures s.errorState ==> (NumberClick(s, k, fp).previousValue == ""
                              && NumberClick(s, k, fp).currentOperator == ""
                              && NumberClick(s, k, fp).currentInput == FreshInput(k))
    ensures !s.errorState ==> (NumberClick(s, k, fp).previousValue == s.previousValue
                               && NumberClick(s, k, fp).currentOperator == s.currentOperator)
  {
  }

  /** After an operator or equals, the next key replaces the input: a digit by itself, the point by "0.". */
  lemma NumberClickStartsNewNumber<F>(s: State, k: NumberKey, fp: FloatingPoint<F>)
    requires s.startNewInput
    ensures NumberClick(s, k, fp).currentInput == FreshInput(k)
  {
  }

  /** Continuing a number, the point is appended only when the input has none yet. */
  lemma PointAppendedOnce<F>(s: State, fp: FloatingPoint<F>)
    requires !s.errorState && !s.startNewInput
    ensures '.' in NumberClick(s, Point, fp).currentInput
    ensures '.' in s.currentInput ==> NumberClick(s, Point, fp).currentInput == s.currentInput
    ensures '.' !in s.currentInput ==> NumberClick(s, Point, fp).currentInput == s.currentInput + "."
  {
    var r := NumberClick(s, Point, fp).currentInput;
    if '.' !in s.currentInput {
      assert r[|s.currentInput|] == '.';
    }
  }

  /** Digit entry never produces a second decimal point. */
  lemma NumberClickKeepsOneDecimalPoint<F>(s: State, k: NumberKey, fp: FloatingPoint<F>)
    requires s.errorState || s.startNewInput || multiset(s.currentInput)['.'] <= 1
    ensures multiset(NumberClick(s, k, fp).currentInput)['.'] <= 1
  {
    var r := NumberClick(s, k, fp).currentInput;
    if !s.errorState && !s.startNewInput {
      var input := s.currentInput;
      if k.Point? && '.' !in input {
        assert multiset(input)['.'] == 0;
        assert multiset(input + ".") == multiset(input) + multiset{'.'};
      } else if k.Digit? && input != "0" && |input| < MaxDisplayLength {
        assert multiset(input + [k.d]) == multiset(input) + multiset{k.d};
      }
    } else {
      assert r == FreshInput(k);
    }
  }

  /**
   * Continuing a number, a digit replaces a lone "0", is appended while the
   * input is shorter than 12 characters, and is dropped once it has 12 or more.
   */
  lemma DigitRespectsCap<F>(s: State, d: DecimalDigit, fp: FloatingPoint<F>)
    requires !s.errorState && !s.startNewInput
    ensures s.currentInput == "0" ==> NumberClick(s, Digit(d), fp).currentInput == [d]
    ensures (s.currentInput != "0" && |s.currentInput| >= MaxDisplayLength)
            ==> NumberClick(s, Digit(d), fp).currentInput == s.currentInput
    ensures (s.currentInput != "0" && |s.currentInput| < MaxDisplayLength)
            ==> NumberClick(s, Digit(d), fp).currentInput == s.currentInput + [d]
    ensures |s.currentInput| <= MaxDisplayLength
            ==> |NumberClick(s, Digit(d), fp).currentInput| <= MaxDisplayLength
  {
  }

  /** The point is not held to the cap: an input of 12 characters without a point grows to 13. */
  lemma PointExceedsCap<F>(s: State, fp: FloatingPoint<F>)
    requires !s.errorState && !s.startNewInput
    requires '.' !in s.currentInput && |s.currentInput| >= MaxDisplayLength
    ensures NumberClick(s, Point, fp).currentInput == s.currentInput + "."
    ensures |NumberClick(s, Point, fp).currentInput| > MaxDisplayLength
  {
  }

  /** The digit text a run of number keys spells. */
  function Spelled(keys: seq<NumberKey>): (r: string)
    ensures |r| == |keys|
    ensures forall i | 0 <= i < |keys| :: [r[i]] == NumberLabel(keys[i])
  {
    if keys == [] then ""
    else Spelled(keys[..|keys| - 1]) + NumberLabel(keys[|keys| - 1])
  }

  /** Leading zeros dropped, but a lone "0" kept. */
  function WithoutLeadingZeros(t: string): (r: string)
    ensures |r| <= |t|
    ensures t != "" ==> r != ""
    ensures |r| > 1 ==> r[0] != '0'
  {
    if |t| > 1 && t[0] == '0' then WithoutLeadingZeros(t[1..]) else t
  }

  lemma {:induction false} WithoutLeadingZerosSnoc(t: string, c: char)
    requires t != ""
    ensures WithoutLeadingZeros(t + [c])
            == if WithoutLeadingZeros(t) == "0" then [c] else WithoutLeadingZeros(t) + [c]
  {
    var tc := t + [c];
    assert tc[0] == t[0] && |tc| > 1;
    if |t| > 1 && t[0] == '0' {
      assert tc[1..] == t[1..] + [c];
      WithoutLeadingZerosSnoc(t[1..], c);
    } else if t[0] == '0' {
      assert t == "0" && tc[1..] == [c];
    } else {
      assert WithoutLeadingZeros(t) == t && t != "0";
    }
  }

  function Presses(keys: seq<NumberKey>): (r: seq<Event>)
    ensures |r| == |keys|
    ensures forall i | 0 <= i < |keys| :: r[i] == NumberPressed(keys[i])
  {
    seq(|keys|, i requires 0 <= i < |keys| => NumberPressed(keys[i]))
  }

  /** The input a number key leaves: a fresh number after an operator, equals or error, else a continuation. */
  lemma NumberClickInput<F>(s: State, k: NumberKey, fp: FloatingPoint<F>)
    ensures NumberClick(s, k, fp).currentInput
            == if s.errorState || s.startNewInput then FreshInput(k) else ContinueInput(s.currentInput, k)
    ensures !NumberClick(s, k, fp).startNewInput && !NumberClick(s, k, fp).errorState
  {
  }

  /**
   * Typing up to 12 digits into a fresh number yields the digits as typed,
   * with leading zeros collapsed.
   */
  lemma {:induction false} TypedDigits<F>(s: State, keys: seq<NumberKey>, fp: FloatingPoint<F>)
    requires s.errorState || s.startNewInput
    requires keys != [] && |keys| <= MaxDisplayLength
    requires forall i | 0 <= i < |keys| :: keys[i].Digit?
    ensures Run(s, Presses(keys), fp).currentInput == WithoutLeadingZeros(Spelled(keys))
    ensures !Run(s, Presses(keys), fp).startNewInput && !Run(s, Presses(keys), fp).errorState
  {
    var n := |keys|;
    var ks := keys[..n - 1];
    var k := keys[n - 1];
    assert Presses(keys)[..n - 1] == Presses(ks);
    assert Spelled(keys) == Spelled(ks) + [k.d];
    var before := Run(s, Presses(ks), fp);
    assert Run(s, Presses(keys), fp) == NumberClick(before, k, fp);
    NumberClickInput(before, k, fp);
    if ks == [] {
      assert before == s;
    } else {
      TypedDigits(s, ks, fp);
      WithoutLeadingZerosSnoc(Spelled(ks), k.d);
    }
  }

  /** Dropping leading zeros brings in no character that was not there. */
  lemma {:induction false} WithoutLeadingZerosAddsNothing(t: string, c: char)
    requires c !in t
    ensures c !in WithoutLeadingZeros(t)
  {
    if |t| > 1 && t[0] == '0' {
      assert c !in t[1..] by {
        forall i | 0 <= i < |t[1..]|
          ensures t[1..][i] != c
        {
          assert t[1..][i] == t[i + 1];
        }
      }
      WithoutLeadingZerosAddsNothing(t[1..], c);
    }
  }

  /**
   * The integer part a run of digit keys leaves before a decimal point: "0"
   * when the point comes first, the typed digits with leading zeros
   * collapsed otherwise.
   */
  function IntegerPart(keys: seq<NumberKey>): (r: string)
    requires forall i | 0 <= i < |keys| :: keys[i].Digit?
    ensures r != "" && '.' !in r
  {
    if keys == [] then "0"
    else
      var t := Spelled(keys);
      assert '.' !in t by {
        forall i | 0 <= i < |t|
          ensures t[i] != '.'
        {
          assert [t[i]] == NumberLabel(keys[i]);
        }
      }
      WithoutLeadingZerosAddsNothing(t, '.');
      WithoutLeadingZeros(t)
  }

  /** Pressing a run of number keys is pressing all but the last, then the last. */
  lemma RunPressesLast<F>(s: State, keys: seq<NumberKey>, fp: FloatingPoint<F>)
    requires keys != []
    ensures Run(s, Presses(keys), fp)
            == NumberClick(Run(s, Presses(keys[..|keys| - 1]), fp), keys[|keys| - 1], fp)
  {
    assert Presses(keys)[..|keys| - 1] == Presses(keys[..|keys| - 1]);
  }

  /** Typing digits (possibly none) and then the point into a fresh number gives the integer part and a point. */
  lemma TypedPoint<F>(s: State, whole: seq<NumberKey>, fp: FloatingPoint<F>)
    requires s.errorState || s.startNewInput
    requires forall i | 0 <= i < |whole| :: whole[i].Digit?
    requires |whole| <= MaxDisplayLength
    ensures Run(s, Presses(whole + [Point]), fp).currentInput == IntegerPart(whole) + "."
    ensures !Run(s, Presses(whole + [Point]), fp).startNewInput
    ensures !Run(s, Presses(whole + [Point]), fp).errorState
  {
    var before := Run(s, Presses(whole), fp);
    assert Run(s, Presses(whole + [Point]), fp) == NumberClick(before, Point, fp) by {
      var keys := whole + [Point];
      RunPressesLast(s, keys, fp);
      assert keys[..|keys| - 1] == whole && keys[|keys| - 1] == Point;
    }
    NumberClickInput(before, Point, fp);
    if whole == [] {
      assert before == s;
    } else {
      assert && before.currentInput == IntegerPart(whole)
             && !before.errorState && !before.startNewInput by {
        TypedDigits(s, whole, fp);
      }
      assert ContinueInput(IntegerPart(whole), Point) == IntegerPart(whole) + ".";
    }
  }

  lemma SplitLast<T>(xs: seq<T>)
    requires xs != []
    ensures xs[..|xs| - 1] + [xs[|xs| - 1]] == xs
  {
  }

  /** After the point, each digit within the cap is appended as typed. */
  lemma FractionDigit<F>(s: State, head: string, rest: seq<NumberKey>, d: DecimalDigit, fp: FloatingPoint<F>)
    requires !s.errorState && !s.startNewInput
    requires s.currentInput == head + "." + Spelled(rest)
    requires |s.currentInput| < MaxDisplayLength
    ensures NumberClick(s, Digit(d), fp).currentInput == head + "." + Spelled(rest + [Digit(d)])
    ensures !NumberClick(s, Digit(d), fp).startNewInput && !NumberClick(s, Digit(d), fp).errorState
  {
    var input := s.currentInput;
    assert input[|head|] == '.';
    assert ContinueInput(input, Digit(d)) == input + [d];
    NumberClickInput(s, Digit(d), fp);
    assert (rest + [Digit(d)])[..|rest|] == rest;
  }

  /**
   * Typing a number with one decimal point into a fresh number, within the
   * cap, yields its integer part (a "0" when the point comes first), the
   * point, and the fraction digits exactly as typed.
   */
  lemma {:induction false} TypedDecimal<F>(s: State, whole: seq<NumberKey>, fraction: seq<NumberKey>,
                                           fp: FloatingPoint<F>)
    requires s.errorState || s.startNewInput
    requires forall i | 0 <= i < |whole| :: whole[i].Digit?
    requires forall i | 0 <= i < |fraction| :: fraction[i].Digit?
    requires |whole| <= MaxDisplayLength
    requires |IntegerPart(whole)| + 1 + |fraction| <= MaxDisplayLength
    ensures Run(s, Presses(whole + [Point] + fraction), fp).currentInput
            == IntegerPart(whole) + "." + Spelled(fraction)
    ensures !Run(s, Presses(whole + [Point] + fraction), fp).startNewInput
    ensures !Run(s, Presses(whole + [Point] + fraction), fp).errorState
  {
    if fraction == [] {
      assert whole + [Point] + fraction == whole + [Point];
      TypedPoint(s, whole, fp);
    } else {
      var rest := fraction[..|fraction| - 1];
      var k := fraction[|fraction| - 1];
      var before := Run(s, Presses(whole + [Point] + rest), fp);
      assert Run(s, Presses(whole + [Point] + fraction), fp) == NumberClick(before, k, fp) by {
        var keys := whole + [Point] + fraction;
        RunPressesLast(s, keys, fp);
        assert keys[..|keys| - 1] == whole + [Point] + rest && keys[|keys| - 1] == k;
      }
      assert && before.currentInput == IntegerPart(whole) + "." + Spelled(rest)
             && !before.startNewInput && !before.errorState by {
        TypedDecimal(s, whole, rest, fp);
      }
      assert k == Digit(k.d);
      assert && NumberClick(before, k, fp).currentInput == IntegerPart(whole) + "." + Spelled(fraction)
             && !NumberClick(before, k, fp).startNewInput && !NumberClick(before, k, fp).errorState by {
        SplitLast(fraction);
        FractionDigit(before, IntegerPart(whole), rest, k.d, fp);
      }
    }
  }

  // ---------------------------------------------------------------- sign toggle

  /**
   * The sign toggle does nothing in the error state; otherwise it changes the
   * input only and redraws both labels from the new input.
   */
  lemma ToggleSignChangesOnlyInput<F>(s: State, fp: FloatingPoint<F>)
    ensures s.errorState ==> ToggleSign(s, fp) == s
    ensures !s.errorState ==> ToggleSign(s, fp).resultText == FormatDisplayNumber(ToggleSign(s, fp).currentInput, fp)
    ensures !s.errorState ==> ToggleSign(s, fp).historyText == History(s, fp)
    ensures ToggleSign(s, fp).previousValue == s.previousValue
    ensures ToggleSign(s, fp).currentOperator == s.currentOperator
    ensures ToggleSign(s, fp).startNewInput == s.startNewInput
    ensures ToggleSign(s, fp).errorState == s.errorState
    ensures !s.errorState && s.currentInput == "0" ==> ToggleSign(s, fp).currentInput == "0"
    ensures (!s.errorState && |s.currentInput| > 0 && s.currentInput[0] == '-')
            ==> "-" + ToggleSign(s, fp).currentInput == s.currentInput
    ensures (!s.errorState && s.currentInput != "0" && (s.currentInput == "" || s.currentInput[0] != '-'))
            ==> ToggleSign(s, fp).currentInput == "-" + s.currentInput
  {
    if !s.errorState && |s.currentInput| > 0 && s.currentInput[0] == '-' {
      assert "-" + s.currentInput[1..] == s.currentInput;
    }
  }

  /** Toggling twice restores the input, except for "-0" (which becomes "0") and a doubled minus. */
  lemma ToggleSignTwice<F>(s: State, fp: FloatingPoint<F>)
    requires s.currentInput != "-0"
    requires !(|s.currentInput| >= 2 && s.currentInput[0] == '-' && s.currentInput[1] == '-')
    ensures ToggleSign(ToggleSign(s, fp), fp).currentInput == s.currentInput
  {
    var input := s.currentInput;
    if !s.errorState && |input| > 0 && input[0] == '-' {
      var once := input[1..];
      assert once != "0";
      assert |once| > 0 ==> once[0] != '-';
      assert "-" + once == input;
    } else if !s.errorState && input != "0" {
      assert ("-" + input)[1..] == input;
    }
  }

  /** Toggling "-0" leaves "0", which a second toggle keeps. */
  lemma ToggleSignMinusZero<F>(s: State, fp: FloatingPoint<F>)
    requires !s.errorState && s.currentInput == "-0"
    ensures ToggleSign(s, fp).currentInput == "0"
    ensures ToggleSign(ToggleSign(s, fp), fp).currentInput == "0"
  {
  }

  // ---------------------------------------------------------------- calculate and showError

  lemma ShowErrorKeepsOperands(s: State, message: string)
    ensures ShowError(s, message).errorState
    ensures ShowError(s, message).resultText == message && ShowError(s, message).historyText == ""
    ensures ShowError(s, message).currentInput == s.currentInput
    ensures ShowError(s, message).previousValue == s.previousValue
    ensures ShowError(s, message).currentOperator == s.currentOperator
    ensures ShowError(s, message).startNewInput == s.startNewInput
  {
  }

  /**
   * A failed calculation leaves both operands and the operator where they
   * were; it enters the error state unless the operator is not one it knows,
   * in which case nothing changes at all.
   */
  lemma CalculateFailure<F>(s: State, fp: FloatingPoint<F>)
    requires !Calculate(s, fp).succeeded
    ensures Calculate(s, fp).after.currentInput == s.currentInput
    ensures Calculate(s, fp).after.previousValue == s.previousValue
    ensures Calculate(s, fp).after.currentOperator == s.currentOperator
    ensures Calculate(s, fp).after == s
            || Calculate(s, fp).after == ShowError(s, Calculate(s, fp).after.resultText)
    ensures !Calculate(s, fp).after.errorState && !s.errorState ==> s.currentOperator !in BinaryLabels
  {
    var c := Calculate(s, fp);
    var op := s.currentOperator;
    match (ParseNumber(s.previousValue, fp), ParseNumber(s.currentInput, fp))
    case (Some(a), Some(b)) =>
      if op == "+" {
        assert c == Finish(s, fp.add(a, b), fp);
      } else if op == "-" {
        assert c == Finish(s, fp.subtract(a, b), fp);
      } else if op == "×" {
        assert c == Finish(s, fp.multiply(a, b), fp);
      } else if op == "÷" {
        assert c.after == ShowError(s, DivideByZeroMessage) || c == Finish(s, fp.divide(a, b), fp);
      } else {
        assert c.after == s;
      }
    case _ =>
      assert c.after == ShowError(s, GenericErrorMessage);
  }

  /** A successful calculation changes the input only, to a formatted number. */
  lemma CalculateSuccess<F>(s: State, fp: FloatingPoint<F>)
    requires Calculate(s, fp).succeeded
    ensures Calculate(s, fp).after == s.(currentInput := Calculate(s, fp).after.currentInput)
    ensures HasDigit(Calculate(s, fp).after.currentInput)
    ensures s.currentOperator in BinaryLabels
  {
    var c := Calculate(s, fp);
    var op := s.currentOperator;
    match (ParseNumber(s.previousValue, fp), ParseNumber(s.currentInput, fp))
    case (Some(a), Some(b)) =>
      if op == "+" {
        assert c == Finish(s, fp.add(a, b), fp);
      } else if op == "-" {
        assert c == Finish(s, fp.subtract(a, b), fp);
      } else if op == "×" {
        assert c == Finish(s, fp.multiply(a, b), fp);
      } else {
        assert op == "÷" && c == Finish(s, fp.divide(a, b), fp);
      }
    case _ =>
  }

  lemma CalculateOutcome<F>(s: State, fp: FloatingPoint<F>)
    ensures !Calculate(s, fp).succeeded ==> Calculate(s, fp).after.currentInput == s.currentInput
    ensures !Calculate(s, fp).succeeded && Calculate(s, fp).after != s
            ==> Calculate(s, fp).after == ShowError(s, Calculate(s, fp).after.resultText)
                && Calculate(s, fp).after.resultText in ErrorMessages
    ensures Calculate(s, fp).succeeded
            ==> Calculate(s, fp).after == s.(currentInput := Calculate(s, fp).after.currentInput)
                && HasDigit(Calculate(s, fp).after.currentInput)
  {
    if Calculate(s, fp).succeeded {
      CalculateSuccess(s, fp);
    } else {
      CalculateFailure(s, fp);
      CalculateErrorMessage(s, fp);
    }
  }

  /** Every failure that reaches `showError` shows one of the three messages. */
  lemma CalculateErrorMessage<F>(s: State, fp: FloatingPoint<F>)
    ensures var c := Calculate(s, fp);
            !c.succeeded && c.after != s ==> c.after.resultText in ErrorMessages
  {
    var c := Calculate(s, fp);
    var op := s.currentOperator;
    match (ParseNumber(s.previousValue, fp), ParseNumber(s.currentInput, fp))
    case (Some(a), Some(b)) =>
      if op == "+" {
        assert c == Finish(s, fp.add(a, b), fp);
      } else if op == "-" {
        assert c == Finish(s, fp.subtract(a, b), fp);
      } else if op == "×" {
        assert c == Finish(s, fp.multiply(a, b), fp);
      } else if op == "÷" {
        assert c.after == ShowError(s, DivideByZeroMessage) || c == Finish(s, fp.divide(a, b), fp);
      } else {
        assert c.after == s;
      }
    case _ =>
      assert c.after == ShowError(s, GenericErrorMessage);
  }

  /** An operator the calculation does not know fails without entering the error state. */
  lemma CalculateUnknownOperator<F>(s: State, fp: FloatingPoint<F>)
    requires s.currentOperator !in BinaryLabels
    requires ParseNumber(s.previousValue, fp).Some? && ParseNumber(s.currentInput, fp).Some?
    ensures Calculate(s, fp) == Calculation(false, s)
  {
  }

  /** A negligible divisor is a division by zero: error state, operands kept. */
  lemma CalculateDivideByZero<F>(s: State, fp: FloatingPoint<F>, a: F, b: F)
    requires s.currentOperator == "÷"
    requires ParseNumber(s.previousValue, fp) == Some(a) && ParseNumber(s.currentInput, fp) == Some(b)
    requires fp.negligible(b)
    ensures Calculate(s, fp) == Calculation(false, ShowError(s, DivideByZeroMessage))
  {
  }

  /**
   * With both operands parsed and one of the four operators pending, the
   * result `r` of that operator is shown formatted when it is finite and is
   * an overflow when it is infinite or not a number.
   */
  lemma CalculateArithmetic<F>(s: State, fp: FloatingPoint<F>, a: F, b: F, r: F)
    requires ParseNumber(s.previousValue, fp) == Some(a) && ParseNumber(s.currentInput, fp) == Some(b)
    requires || (s.currentOperator == "+" && r == fp.add(a, b))
             || (s.currentOperator == "-" && r == fp.subtract(a, b))
             || (s.currentOperator == "×" && r == fp.multiply(a, b))
             || (s.currentOperator == "÷" && !fp.negligible(b) && r == fp.divide(a, b))
    ensures fp.finite(r) ==> Calculate(s, fp) == Calculation(true, s.(currentInput := fp.format(r)))
    ensures !fp.finite(r) ==> Calculate(s, fp) == Calculation(false, ShowError(s, OverflowMessage))
  {
  }

  // ---------------------------------------------------------------- operator keys

  /** In the error state the operator handler does nothing at all, AC, ± and % included. */
  lemma OperatorClickIgnoredInError<F>(s: State, k: OperatorKey, fp: FloatingPoint<F>)
    requires s.errorState
    ensures OperatorClick(s, k, fp) == s
  {
  }

  /** If the chained calculation fails, the new operator is not recorded. */
  lemma OperatorClickFailedChain<F>(s: State, k: OperatorKey, fp: FloatingPoint<F>)
    requires !s.errorState && IsBinary(k) && ChainsCalculation(s)
    requires !Calculate(s, fp).succeeded
    ensures OperatorClick(s, k, fp) == Calculate(s, fp).after
    ensures OperatorClick(s, k, fp).currentOperator == s.currentOperator
    ensures OperatorClick(s, k, fp).previousValue == s.previousValue
  {
    assert k != AllClear && k != PlusMinus && k != PercentKey;
    CalculateFailure(s, fp);
  }

  /**
   * Otherwise a binary operator captures the (possibly just computed) input
   * as the operand, records its label and makes the next digit start a new
   * number.
   */
  lemma OperatorClickRecords<F>(s: State, k: OperatorKey, fp: FloatingPoint<F>)
    requires !s.errorState && IsBinary(k)
    requires ChainsCalculation(s) ==> Calculate(s, fp).succeeded
    ensures var r := OperatorClick(s, k, fp);
            r.previousValue == r.currentInput && r.currentOperator == OperatorLabel(k)
            && r.startNewInput && !r.errorState
    ensures !ChainsCalculation(s) ==> OperatorClick(s, k, fp).currentInput == s.currentInput
    ensures ChainsCalculation(s) ==> OperatorClick(s, k, fp).currentInput == Calculate(s, fp).after.currentInput
  {
  }

  // ---------------------------------------------------------------- equals

  lemma EqualsClickNothingPending<F>(s: State, fp: FloatingPoint<F>)
    requires s.errorState || s.currentOperator == "" || s.previousValue == ""
    ensures EqualsClick(s, fp) == s
  {
  }

  /** A successful equals shows the result and leaves nothing pending. */
  lemma EqualsClickCompletes<F>(s: State, fp: FloatingPoint<F>)
    requires !s.errorState && s.currentOperator != "" && s.previousValue != ""
    requires Calculate(s, fp).succeeded
    ensures var r := EqualsClick(s, fp);
            r.currentInput == Calculate(s, fp).after.currentInput
            && r.previousValue == "" && r.currentOperator == "" && r.startNewInput
            && r.historyText == "" && !r.errorState
            && r.resultText == FormatDisplayNumber(r.currentInput, fp)
  {
  }

  /** A second equals in a row changes nothing. */
  lemma EqualsClickIsIdempotent<F>(s: State, fp: FloatingPoint<F>)
    ensures EqualsClick(EqualsClick(s, fp), fp) == EqualsClick(s, fp)
  {
    var c := Calculate(s, fp);
    if !s.errorState && s.currentOperator != "" && s.previousValue != "" && !c.succeeded {
      CalculateFailure(s, fp);
    }
  }

  // ---------------------------------------------------------------- percent

  lemma PercentageOutcome<F>(s: State, fp: FloatingPoint<F>)
    requires !s.errorState
    ensures ParseNumber(s.currentInput, fp).None?
            ==> CalculatePercentage(s, fp) == ShowError(s, GenericErrorMessage)
    ensures ParseNumber(s.currentInput, fp).Some?
            ==> (CalculatePercentage(s, fp).currentInput
                   == fp.format(fp.divide(ParseNumber(s.currentInput, fp).value, fp.hundred))
                 && CalculatePercentage(s, fp).previousValue == s.previousValue
                 && CalculatePercentage(s, fp).currentOperator == s.currentOperator
                 && CalculatePercentage(s, fp).startNewInput == s.startNewInput
                 && !CalculatePercentage(s, fp).errorState)
  {
  }

  /**
   * Percent keeps the new-number flag, so while a number is being typed a
   * digit after `%` continues the formatted hundredth instead of starting a
   * new number.
   */
  lemma DigitAfterPercentContinues<F>(s: State, d: DecimalDigit, fp: FloatingPoint<F>)
    requires !s.errorState && !s.startNewInput
    requires ParseNumber(s.currentInput, fp).Some?
    ensures var p := CalculatePercentage(s, fp);
            NumberClick(p, Digit(d), fp).currentInput == ContinueInput(p.currentInput, Digit(d))
  {
    PercentageOutcome(s, fp);
    NumberClickInput(CalculatePercentage(s, fp), Digit(d), fp);
  }

  // ---------------------------------------------------------------- the invariant

  lemma InitialIsValid<F>(fp: FloatingPoint<F>)
    ensures Valid(Initial(fp), fp)
  {
  }

  lemma ClearIsValid<F>(s: State, fp: FloatingPoint<F>)
    ensures Valid(Clear(s, fp), fp)
  {
  }

  lemma NumberClickPreservesValid<F>(s: State, k: NumberKey, fp: FloatingPoint<F>)
    requires Valid(s, fp)
    ensures Valid(NumberClick(s, k, fp), fp)
  {
    if !s.errorState && !s.startNewInput {
      var input := s.currentInput;
      var next := ContinueInput(input, k);
      if next != input && next != NumberLabel(k) {
        HasDigitAppend(input, NumberLabel(k));
      }
    }
  }

  lemma ToggleSignPreservesValid<F>(s: State, fp: FloatingPoint<F>)
    requires Valid(s, fp)
    ensures Valid(ToggleSign(s, fp), fp)
  {
    if !s.errorState {
      var input := s.currentInput;
      var next :=
        if |input| > 0 && input[0] == '-' then input[1..]
        else if input != "0" then "-" + input
        else input;
      if |input| > 0 && input[0] == '-' {
        assert HasDigit(input[1..]);
      } else {
        HasDigitPrepend('-', input);
      }
      assert ToggleSign(s, fp) == UpdateDisplay(s.(currentInput := next), fp);
      UpdateDisplayIsValid(s.(currentInput := next), fp);
    }
  }

  /** Redrawing the labels of a well-formed state outside the error state gives a valid state. */
  lemma UpdateDisplayIsValid<F>(s: State, fp: FloatingPoint<F>)
    requires !s.errorState && HasDigit(s.currentInput)
    requires s.currentOperator == "" || s.currentOperator in BinaryLabels
    requires s.previousValue == "" <==> s.currentOperator == ""
    requires s.previousValue != "" ==> HasDigit(s.previousValue)
    ensures Valid(UpdateDisplay(s, fp), fp)
  {
  }

  lemma PercentagePreservesValid<F>(s: State, fp: FloatingPoint<F>)
    requires Valid(s, fp)
    ensures Valid(CalculatePercentage(s, fp), fp)
  {
    if !s.errorState {
      match ParseNumber(s.currentInput, fp)
      case None =>
      case Some(v) =>
        UpdateDisplayIsValid(s.(currentInput := fp.format(fp.divide(v, fp.hundred))), fp);
    }
  }

  lemma BinaryOperatorPreservesValid<F>(s: State, k: OperatorKey, fp: FloatingPoint<F>)
    requires Valid(s, fp) && !s.errorState && IsBinary(k)
    ensures Valid(OperatorClick(s, k, fp), fp)
  {
    var c := if ChainsCalculation(s) then Calculate(s, fp) else Calculation(true, s);
    if ChainsCalculation(s) {
      CalculateOutcome(s, fp);
    }
    if c.succeeded {
      assert HasDigit(c.after.currentInput) && !c.after.errorState;
      UpdateDisplayIsValid(c.after.(previousValue := c.after.currentInput,
                                    currentOperator := OperatorLabel(k),
                                    startNewInput := true), fp);
    }
  }

  lemma OperatorClickPreservesValid<F>(s: State, k: OperatorKey, fp: FloatingPoint<F>)
    requires Valid(s, fp)
    ensures Valid(OperatorClick(s, k, fp), fp)
  {
    if !s.errorState {
      match k
      case AllClear => ClearIsValid(s, fp);
      case PlusMinus => ToggleSignPreservesValid(s, fp);
      case PercentKey => PercentagePreservesValid(s, fp);
      case _ => BinaryOperatorPreservesValid(s, k, fp);
    }
  }

  lemma EqualsClickPreservesValid<F>(s: State, fp: FloatingPoint<F>)
    requires Valid(s, fp)
    ensures Valid(EqualsClick(s, fp), fp)
  {
    if !s.errorState && s.currentOperator != "" && s.previousValue != "" {
      CalculateOutcome(s, fp);
    }
  }

  lemma HandlePreservesValid<F>(s: State, e: Event, fp: FloatingPoint<F>)
    requires Valid(s, fp)
    ensures Valid(Handle(s, e, fp), fp)
  {
    match e
    case NumberPressed(k) => NumberClickPreservesValid(s, k, fp);
    case OperatorPressed(k) => OperatorClickPreservesValid(s, k, fp);
    case EqualsPressed => EqualsClickPreservesValid(s, fp);
  }

  /** Every state reachable from the initial one satisfies the invariant. */
  lemma {:induction false} RunPreservesValid<F>(s: State, events: seq<Event>, fp: FloatingPoint<F>)
    requires Valid(s, fp)
    ensures Valid(Run(s, events, fp), fp)
  {
    if events != [] {
      RunPreservesValid(s, events[..|events| - 1], fp);
      HandlePreservesValid(Run(s, events[..|events| - 1], fp), events[|events| - 1], fp);
    }
  }

  /** In a reachable state the calculation never takes its unknown-operator exit. */
  lemma ValidCalculateFailsLoudly<F>(s: State, fp: FloatingPoint<F>)
    requires Valid(s, fp) && !s.errorState && s.currentOperator != ""
    ensures Calculate(s, fp).succeeded || Calculate(s, fp).after.errorState
  {
    assert s.currentOperator in BinaryLabels;
    if !Calculate(s, fp).succeeded {
      CalculateFailure(s, fp);
    }
  }

  /** In the error state the history line is blank and the result shows an error message. */
  lemma ErrorStateShowsMessage<F>(events: seq<Event>, fp: FloatingPoint<F>)
    ensures var s := Run(Initial(fp), events, fp);
            s.errorState ==> s.historyText == "" && s.resultText in ErrorMessages
  {
    InitialIsValid(fp);
    RunPreservesValid(Initial(fp), events, fp);
  }
}
