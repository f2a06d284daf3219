/**
 * Whole button sequences from the initial state. The arithmetic stays
 * uninterpreted: each scenario assumes only what the double parser and
 * arithmetic give for the operands involved.
 */
module Scenarios {
  import opened Numerics
  import opened Keys
  import opened Engine
  import Properties

  lemma RunSnoc<F>(s: State, events: seq<Event>, e: Event, fp: FloatingPoint<F>)
    ensures Run(s, events + [e], fp) == Handle(Run(s, events, fp), e, fp)
  {
    assert (events + [e])[..|events|] == events;
  }

  lemma RunThree<F>(s: State, e1: Event, e2: Event, e3: Event, fp: FloatingPoint<F>)
    ensures Run(s, [e1, e2, e3], fp) == Handle(Handle(Handle(s, e1, fp), e2, fp), e3, fp)
  {
    RunSnoc(s, [], e1, fp);
    RunSnoc(s, [e1], e2, fp);
    assert [e1] + [e2] == [e1, e2];
    RunSnoc(s, [e1, e2], e3, fp);
    assert [e1, e2] + [e3] == [e1, e2, e3];
  }

  lemma RunFour<F>(s: State, e1: Event, e2: Event, e3: Event, e4: Event, fp: FloatingPoint<F>)
    ensures Run(s, [e1, e2, e3, e4], fp) == Handle(Run(s, [e1, e2, e3], fp), e4, fp)
  {
    RunSnoc(s, [e1, e2, e3], e4, fp);
    assert [e1, e2, e3] + [e4] == [e1, e2, e3, e4];
  }

  lemma RunFive<F>(s: State, e1: Event, e2: Event, e3: Event, e4: Event, e5: Event, fp: FloatingPoint<F>)
    ensures Run(s, [e1, e2, e3, e4, e5], fp) == Handle(Run(s, [e1, e2, e3, e4], fp), e5, fp)
  {
    RunSnoc(s, [e1, e2, e3, e4], e5, fp);
    assert [e1, e2, e3, e4] + [e5] == [e1, e2, e3, e4, e5];
  }

  /** 5 + 3 = shows the formatted sum and leaves nothing pending. */
  lemma AddThenEquals<F>(fp: FloatingPoint<F>, five: F, three: F)
    requires fp.parse("5") == Some(five) && fp.parse("3") == Some(three)
    requires fp.finite(fp.add(five, three))
    ensures var s := Run(Initial(fp),
                         [NumberPressed(Digit('5')), OperatorPressed(Plus), NumberPressed(Digit('3')), EqualsPressed],
                         fp);
            && s.currentInput == fp.format(fp.add(five, three))
            && s.resultText == FormatDisplayNumber(fp.format(fp.add(five, three)), fp)
            && s.historyText == ""
            && s.previousValue == "" && s.currentOperator == ""
            && s.startNewInput && !s.errorState
  {
    var e1, e2, e3, e4 := NumberPressed(Digit('5')), OperatorPressed(Plus), NumberPressed(Digit('3')), EqualsPressed;
    var s0 := Initial(fp);
    var r1 := NumberClick(s0, Digit('5'), fp);
    assert r1.currentInput == "5" && !r1.startNewInput && !r1.errorState by {
      Properties.ClearRestoresDefault(s0, fp);
      Properties.NumberClickInput(s0, Digit('5'), fp);
    }
    var r2 := OperatorClick(r1, Plus, fp);
    assert && r2.currentInput == "5" && r2.previousValue == "5" && r2.currentOperator == "+"
           && r2.startNewInput && !r2.errorState by {
      Properties.OperatorClickRecords(r1, Plus, fp);
    }
    var r3 := NumberClick(r2, Digit('3'), fp);
    assert && r3.currentInput == "3" && r3.previousValue == "5" && r3.currentOperator == "+"
           && !r3.startNewInput && !r3.errorState by {
      Properties.NumberClickInput(r2, Digit('3'), fp);
      Properties.NumberClickRecovers(r2, Digit('3'), fp);
    }
    assert Run(s0, [e1, e2, e3, e4], fp) == EqualsClick(r3, fp) by {
      RunThree(s0, e1, e2, e3, fp);
      RunFour(s0, e1, e2, e3, e4, fp);
    }
    assert Calculate(r3, fp).succeeded && Calculate(r3, fp).after.currentInput == fp.format(fp.add(five, three)) by {
      assert ParseNumber("5", fp) == Some(five) && ParseNumber("3", fp) == Some(three);
      Properties.CalculateArithmetic(r3, fp, five, three, fp.add(five, three));
    }
    Properties.EqualsClickCompletes(r3, fp);
  }

  /** The first three keys of `10 ÷ 0 =`: "10" is captured and division is pending. */
  lemma TenDivided<F>(fp: FloatingPoint<F>)
    ensures var s := Run(Initial(fp), [NumberPressed(Digit('1')), NumberPressed(Digit('0')), OperatorPressed(Obelus)], fp);
            && s.currentInput == "10" && s.previousValue == "10" && s.currentOperator == "÷"
            && s.startNewInput && !s.errorState
  {
    var e1, e2, e3 := NumberPressed(Digit('1')), NumberPressed(Digit('0')), OperatorPressed(Obelus);
    var s0 := Initial(fp);
    var r1 := NumberClick(s0, Digit('1'), fp);
    assert r1.currentInput == "1" && !r1.startNewInput && !r1.errorState by {
      Properties.ClearRestoresDefault(s0, fp);
      Properties.NumberClickInput(s0, Digit('1'), fp);
    }
    var r2 := NumberClick(r1, Digit('0'), fp);
    assert r2.currentInput == "10" && !r2.errorState by {
      Properties.NumberClickInput(r1, Digit('0'), fp);
    }
    var r3 := OperatorClick(r2, Obelus, fp);
    assert && r3.currentInput == "10" && r3.previousValue == "10" && r3.currentOperator == "÷"
           && r3.startNewInput && !r3.errorState by {
      Properties.OperatorClickRecords(r2, Obelus, fp);
    }
    assert Run(s0, [e1, e2, e3], fp) == r3 by {
      RunThree(s0, e1, e2, e3, fp);
    }
  }

  /** 10 ÷ 0 = enters the error state with the divide-by-zero message; the operands stay. */
  lemma DivideByZeroThenEquals<F>(fp: FloatingPoint<F>, ten: F, zero: F)
    requires fp.parse("10") == Some(ten) && fp.parse("0") == Some(zero)
    requires fp.negligible(zero)
    ensures var s := Run(Initial(fp),
                         [NumberPressed(Digit('1')), NumberPressed(Digit('0')), OperatorPressed(Obelus),
                          NumberPressed(Digit('0')), EqualsPressed],
                         fp);
            && s.errorState
            && s.resultText == DivideByZeroMessage && s.historyText == ""
            && s.currentInput == "0" && s.previousValue == "10" && s.currentOperator == "÷"
  {
    var e1, e2, e3, e4, e5 := NumberPressed(Digit('1')), NumberPressed(Digit('0')), OperatorPressed(Obelus),
                              NumberPressed(Digit('0')), EqualsPressed;
    var s0 := Initial(fp);
    var r3 := Run(s0, [e1, e2, e3], fp);
    TenDivided(fp);
    var r4 := NumberClick(r3, Digit('0'), fp);
    assert && r4.currentInput == "0" && r4.previousValue == "10" && r4.currentOperator == "÷"
           && !r4.errorState by {
      Properties.NumberClickInput(r3, Digit('0'), fp);
      Properties.NumberClickRecovers(r3, Digit('0'), fp);
    }
    assert Run(s0, [e1, e2, e3, e4, e5], fp) == EqualsClick(r4, fp) by {
      RunFour(s0, e1, e2, e3, e4, fp);
      RunFive(s0, e1, e2, e3, e4, e5, fp);
    }
    assert Calculate(r4, fp) == Calculation(false, ShowError(r4, DivideByZeroMessage)) by {
      assert ParseNumber("10", fp) == Some(ten) && ParseNumber("0", fp) == Some(zero);
      Properties.CalculateDivideByZero(r4, fp, ten, zero);
    }
  }

  /** Typing two digits, the first not 0, from start-up gives those two digits with nothing pending. */
  lemma TwoDigitsTyped<F>(fp: FloatingPoint<F>, a: DecimalDigit, b: DecimalDigit)
    requires a != '0'
    ensures var s := Run(Initial(fp), [NumberPressed(Digit(a)), NumberPressed(Digit(b))], fp);
            s.currentInput == [a, b] && !s.errorState
  {
    var e1, e2 := NumberPressed(Digit(a)), NumberPressed(Digit(b));
    var s0 := Initial(fp);
    var r1 := NumberClick(s0, Digit(a), fp);
    assert r1.currentInput == [a] && !r1.startNewInput && !r1.errorState by {
      Properties.ClearRestoresDefault(s0, fp);
      Properties.NumberClickInput(s0, Digit(a), fp);
    }
    var r2 := NumberClick(r1, Digit(b), fp);
    assert r2.currentInput == [a, b] && !r2.errorState by {
      Properties.NumberClickInput(r1, Digit(b), fp);
    }
    assert Run(s0, [e1, e2], fp) == r2 by {
      RunSnoc(s0, [], e1, fp);
      RunSnoc(s0, [e1], e2, fp);
      assert [e1] + [e2] == [e1, e2];
    }
  }

  /** Two digits followed by % replace the input with the formatted hundredth of the typed number. */
  lemma PercentOfTwoDigits<F>(fp: FloatingPoint<F>, a: DecimalDigit, b: DecimalDigit, v: F)
    requires a != '0'
    requires fp.parse([a, b]) == Some(v)
    ensures var s := Run(Initial(fp),
                         [NumberPressed(Digit(a)), NumberPressed(Digit(b)), OperatorPressed(PercentKey)],
                         fp);
            s.currentInput == fp.format(fp.divide(v, fp.hundred)) && !s.errorState
  {
    var e1, e2, e3 := NumberPressed(Digit(a)), NumberPressed(Digit(b)), OperatorPressed(PercentKey);
    var s0 := Initial(fp);
    TwoDigitsTyped(fp, a, b);
    assert ParseNumber(Run(s0, [e1, e2], fp).currentInput, fp) == Some(v) by {
      assert ',' !in [a, b];
    }
    PercentAfter(s0, [e1, e2], v, fp);
    assert [e1, e2] + [e3] == [e1, e2, e3];
  }

  /** `%` after any presses that leave a parsable input outside the error state gives its formatted hundredth. */
  lemma PercentAfter<F>(s: State, events: seq<Event>, v: F, fp: FloatingPoint<F>)
    requires !Run(s, events, fp).errorState
    requires ParseNumber(Run(s, events, fp).currentInput, fp) == Some(v)
    ensures Run(s, events + [OperatorPressed(PercentKey)], fp).currentInput == fp.format(fp.divide(v, fp.hundred))
    ensures !Run(s, events + [OperatorPressed(PercentKey)], fp).errorState
  {
    RunSnoc(s, events, OperatorPressed(PercentKey), fp);
  }

  /** In the error state AC does nothing; only a number key gets out, and it clears first. */
  lemma OnlyDigitRecoversFromError<F>(s: State, fp: FloatingPoint<F>, k: NumberKey)
    requires s.errorState
    ensures Run(s, [OperatorPressed(AllClear)], fp) == s
    ensures Run(s, [EqualsPressed], fp) == s
    ensures !Run(s, [NumberPressed(k)], fp).errorState
    ensures Run(s, [NumberPressed(k)], fp).previousValue == ""
    ensures Run(s, [NumberPressed(k)], fp).currentOperator == ""
  {
    assert [OperatorPressed(AllClear)][..0] == [];
    assert [EqualsPressed][..0] == [];
    assert [NumberPressed(k)][..0] == [];
  }
}
