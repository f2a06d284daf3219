/**
 * The calculator controller as an object: the five fields the handlers update
 * in place and the texts of the result and history labels. Each method does
 * what the handler of the same name does, step by step, and is proved to
 * leave the state the matching `Engine` function computes; the handlers keep
 * the `Engine.Valid` invariant.
 */
module Controller {
  import opened Numerics
  import opened Keys
  import Engine
  import Properties

  class CalculatorController<F> {
    var resultText: string
    var historyText: string
    var currentInput: string
    var previousValue: string
    var currentOperator: string
    var startNewInput: bool
    var errorState: bool

    /** The double arithmetic and the decimal format, fixed when the controller is built. */
    const fp: FloatingPoint<F>

    function Snapshot(): (r: Engine.State)
      reads this
    {
      Engine.State(currentInput, previousValue, currentOperator, startNewInput, errorState,
                   resultText, historyText)
    }

    ghost predicate Valid()
      reads this
    {
      Engine.Valid(Snapshot(), fp)
    }

    /** The constructor followed by `initialize`, which draws the labels for the first time. */
    constructor (fp: FloatingPoint<F>)
      ensures this.fp == fp
      ensures Snapshot() == Engine.Initial(fp)
      ensures Valid()
    {
      this.fp := fp;
      currentInput := "0";
      previousValue := "";
      currentOperator := "";
      startNewInput := true;
      errorState := false;
      resultText := "";
      historyText := "";
      new;
      UpdateDisplay();
      Properties.InitialIsValid(fp);
    }

    method UpdateDisplay()
      modifies this
      ensures Snapshot() == Engine.UpdateDisplay(old(Snapshot()), fp)
    {
      if errorState {
        return;
      }
      resultText := FormatDisplayNumber(currentInput, fp);
      if previousValue != "" && currentOperator != "" {
        historyText := FormatDisplayNumber(previousValue, fp) + " " + currentOperator;
      } else {
        historyText := "";
      }
    }

    method HandleNumberClick(key: NumberKey)
      requires Valid()
      modifies this
      ensures Snapshot() == Engine.NumberClick(old(Snapshot()), key, fp)
      ensures Valid()
    {
      ghost var before := Snapshot();
      if errorState {
        Clear();
      }
      var digit := NumberLabel(key);
      if startNewInput {
        currentInput := if digit == "." then "0." else digit;
        startNewInput := false;
      } else {
        if digit == "." {
          if '.' !in currentInput {
            currentInput := currentInput + ".";
          }
        } else {
          if currentInput == "0" && digit != "." {
            currentInput := digit;
          } else if |currentInput| < MaxDisplayLength {
            currentInput := currentInput + digit;
          }
        }
      }
      UpdateDisplay();
      Properties.NumberClickPreservesValid(before, key, fp);
    }

    method HandleOperatorClick(key: OperatorKey)
      requires Valid()
      modifies this
      ensures Snapshot() == Engine.OperatorClick(old(Snapshot()), key, fp)
      ensures Valid()
    {
      ghost var before := Snapshot();
      Properties.OperatorClickPreservesValid(before, key, fp);
      if errorState {
        return;
      }
      match key
      case AllClear => Clear();
      case PlusMinus => ToggleSign();
      case PercentKey => CalculatePercentage();
      case _ => ApplyBinaryOperator(key);
    }

    /**
     * The rest of the operator handler, for the four binary operators: chain
     * the pending calculation when a second operand was typed, then capture
     * the input as the operand and record the operator.
     */
    method ApplyBinaryOperator(key: OperatorKey)
      requires !errorState && IsBinary(key)
      modifies this
      ensures Snapshot() == Engine.OperatorClick(old(Snapshot()), key, fp)
    {
      if previousValue != "" && currentOperator != "" && !startNewInput {
        var ok := Calculate();
        if !ok {
          return;
        }
      }
      previousValue := currentInput;
      currentOperator := OperatorLabel(key);
      startNewInput := true;
      UpdateDisplay();
    }

    method HandleEqualsClick()
      requires Valid()
      modifies this
      ensures Snapshot() == Engine.EqualsClick(old(Snapshot()), fp)
      ensures Valid()
    {
      Properties.EqualsClickPreservesValid(Snapshot(), fp);
      if errorState || currentOperator == "" || previousValue == "" {
        return;
      }
      CompleteCalculation();
    }

    /**
     * The rest of the equals handler, once an operand and an operator are
     * pending: calculate, and on success clear what was pending.
     */
    method CompleteCalculation()
      requires !errorState && currentOperator != "" && previousValue != ""
      modifies this
      ensures Snapshot() == Engine.EqualsClick(old(Snapshot()), fp)
    {
      var ok := Calculate();
      if !ok {
        return;
      }
      previousValue := "";
      currentOperator := "";
      startNewInput := true;
      UpdateDisplay();
    }

    method Calculate() returns (ok: bool)
      modifies this
      ensures Engine.Calculate(old(Snapshot()), fp) == Engine.Calculation(ok, Snapshot())
    {
      var num1 := ParseNumber(previousValue, fp);
      var num2 := ParseNumber(currentInput, fp);
      if num1.None? || num2.None? {
        ShowError(Engine.GenericErrorMessage);
        return false;
      }
      var result: F;
      if currentOperator == "+" {
        result := fp.add(num1.value, num2.value);
      } else if currentOperator == "-" {
        result := fp.subtract(num1.value, num2.value);
      } else if currentOperator == "×" {
        result := fp.multiply(num1.value, num2.value);
      } else if currentOperator == "÷" {
        if fp.negligible(num2.value) {
          ShowError(Engine.DivideByZeroMessage);
          return false;
        }
        result := fp.divide(num1.value, num2.value);
      } else {
        return false;
      }
      if !fp.finite(result) {
        ShowError(Engine.OverflowMessage);
        return false;
      }
      currentInput := fp.format(result);
      return true;
    }

    method Clear()
      modifies this
      ensures Snapshot() == Engine.Clear(old(Snapshot()), fp)
      ensures Valid()
    {
      currentInput := "0";
      previousValue := "";
      currentOperator := "";
      startNewInput := true;
      errorState := false;
      UpdateDisplay();
      Properties.ClearIsValid(old(Snapshot()), fp);
    }

    method ToggleSign()
      modifies this
      ensures Snapshot() == Engine.ToggleSign(old(Snapshot()), fp)
    {
      if errorState {
        return;
      }
      if |currentInput| > 0 && currentInput[0] == '-' {
        currentInput := currentInput[1..];
      } else if currentInput != "0" {
        currentInput := "-" + currentInput;
      }
      UpdateDisplay();
    }

    method CalculatePercentage()
      modifies this
      ensures Snapshot() == Engine.CalculatePercentage(old(Snapshot()), fp)
    {
      if errorState {
        return;
      }
      var value := ParseNumber(currentInput, fp);
      if value.None? {
        ShowError(Engine.GenericErrorMessage);
        return;
      }
      currentInput := fp.format(fp.divide(value.value, fp.hundred));
      UpdateDisplay();
    }

    method ShowError(message: string)
      modifies this
      ensures Snapshot() == Engine.ShowError(old(Snapshot()), message)
    {
      errorState := true;
      resultText := message;
      historyText := "";
    }
  }
}
