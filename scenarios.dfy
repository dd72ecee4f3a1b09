/** Worked examples: what the calculator answers on a few lines, one for each error
    it reports and some whose value shows the precedence and the grouping. */
module Scenarios {
  import opened Tokens
  import opened Tokenizer
  import opened Reduction
  import opened Grammar
  import opened Notation
  import opened Parser

  lemma UnexpectedClose()
    ensures Evaluate(")\n") == Err(UnexpectedRightBracket)
  {
  }

  lemma LoneOpen()
    ensures Evaluate("(\n") == Err(RightBracketExpected)
  {
  }

  lemma Unclosed()
    ensures Evaluate("(2\n") == Err(UnclosedBracket)
  {
  }

  lemma MissingRhs()
    ensures Evaluate("2+\n") == Err(InvalidInfixRhs)
  {
  }

  lemma EmptyBrackets()
    ensures Evaluate("()\n") == Err(MissingBracketResult)
  {
  }

  /** A text without a newline, followed by one, is the line read. */
  lemma LineOf(s: string)
    requires '\n' !in s
    ensures Line(s + "\n") == s
  {
    LineIsPrefix(s + "\n", |s|);
    assert (s + "\n")[..|s|] == s;
  }

  /** A single digit is read as its value. */
  lemma ScannedDigit(d: char)
    requires IsDigit(d)
    ensures Scanned([d]) == [Number(DigitValue(d))]
  {
    assert [d][..0] == [];
  }

  lemma DoubleSignTokens()
    ensures Tokenize("--4\n") == [Operator(Minus), Operator(Minus), Number(4.0)]
  {
    LineOf("--4");
    assert "--4" + "\n" == "--4\n";
    assert "--4" == ['-'] + (['-'] + ['4']);
    ScannedCons('-', ['-'] + ['4']);
    ScannedCons('-', ['4']);
    ScannedDigit('4');
  }

  lemma DoubleSign()
    ensures Evaluate("--4\n") == Err(NotSingleNumber)
  {
    var ts := [Operator(Minus), Operator(Minus), Number(4.0)];
    var s1 := [Operator(Minus), Number(-4.0)];
    DoubleSignTokens();
    assert PrefixSweep(ts, 0, false) == Ok(s1) by {
      PrefixSkipStep(ts, 0, false);
      PrefixFoldStep(ts, 1, false);
      assert Fold2(ts, 1, Number(4.0 * -1.0)) == s1;
    }
  }

  lemma ZeroDivisorTokens()
    ensures Tokenize("1/0\n") == [Number(1.0), Operator(Divide), Number(0.0)]
  {
    LineOf("1/0");
    assert "1/0" + "\n" == "1/0\n";
    assert "1/0" == ['1'] + ['/'] + ['0'];
    ScannedSplit(['1'], '/', ['0']);
    ScannedDigit('1');
    ScannedDigit('0');
  }

  lemma ZeroDivisor()
    ensures Evaluate("1/0\n") == Err(DivisionByZero)
  {
    var ts := [Number(1.0), Operator(Divide), Number(0.0)];
    ZeroDivisorTokens();
    assert PrefixSweep(ts, 0, false) == Ok(ts);
  }

  lemma ZeroDivisorFirstTokens()
    ensures Tokenize("1/0*\n") == [Number(1.0), Operator(Divide), Number(0.0), Operator(Times)]
  {
    LineOf("1/0*");
    assert "1/0*" + "\n" == "1/0*\n";
    assert "1/0*" == "1/0" + ['*'];
    ScannedSnoc("1/0", '*');
    assert "1/0" + "\n" == "1/0\n";
    ZeroDivisorTokens();
    LineOf("1/0");
  }

  /** The zero divisor is reported where the fold meets it, before the missing right
      operand of the `*` that follows. */
  lemma ZeroDivisorFirst()
    ensures Evaluate("1/0*\n") == Err(DivisionByZero)
  {
    var ts := [Number(1.0), Operator(Divide), Number(0.0), Operator(Times)];
    ZeroDivisorFirstTokens();
    assert PrefixSweep(ts, 0, false) == Ok(ts);
  }

  /** 2 + 3 * 4, as an expression. */
  function TwoPlusThreeTimesFour(): (e: Expr)
    ensures Show(e) == "2+3*4" && Eval(e) == Some(14.0) && NaturalLiterals(Render(e))
  {
    var e := Sum(Lone(Single(Factor(Unsigned, Num(2.0)))), Add,
                 Product(Single(Factor(Unsigned, Num(3.0))), Mul, Factor(Unsigned, Num(4.0))));
    assert Numeral(2) == "2" && Numeral(3) == "3" && Numeral(4) == "4";
    assert Render(e) == [Number(2.0), Operator(Plus), Number(3.0), Operator(Times), Number(4.0)];
    e
  }

  lemma Precedence()
    ensures Evaluate("2+3*4\n") == Ok(14.0)
  {
    var e := TwoPlusThreeTimesFour();
    CalculatorAnswers(e, "");
    assert Show(e) + "\n" + "" == "2+3*4\n";
  }

  /** 8 / 4 / 2, grouped from the left. */
  function EightByFourByTwo(): (e: Expr)
    ensures Show(e) == "8/4/2" && Eval(e) == Some(1.0) && NaturalLiterals(Render(e))
  {
    var e := Lone(Product(Product(Single(Factor(Unsigned, Num(8.0))), Div, Factor(Unsigned, Num(4.0))),
                          Div, Factor(Unsigned, Num(2.0))));
    assert Numeral(8) == "8" && Numeral(4) == "4" && Numeral(2) == "2";
    assert Render(e) == [Number(8.0), Operator(Divide), Number(4.0), Operator(Divide), Number(2.0)];
    e
  }

  lemma LeftToRight()
    ensures Evaluate("8/4/2\n") == Ok(1.0)
  {
    var e := EightByFourByTwo();
    CalculatorAnswers(e, "");
    assert Show(e) + "\n" + "" == "8/4/2\n";
  }

  /** -(2 + 3) * 4: a sign before a bracket. */
  function NegatedSumTimesFour(): (e: Expr)
    ensures Show(e) == "-(2+3)*4" && Eval(e) == Some(-20.0) && NaturalLiterals(Render(e))
  {
    var sum := Sum(Lone(Single(Factor(Unsigned, Num(2.0)))), Add, Single(Factor(Unsigned, Num(3.0))));
    var e := Lone(Product(Single(Factor(Negative, Paren(sum))), Mul, Factor(Unsigned, Num(4.0))));
    assert Numeral(2) == "2" && Numeral(3) == "3" && Numeral(4) == "4";
    assert Show(sum) == "2+3" && Eval(sum) == Some(5.0);
    assert Render(sum) == [Number(2.0), Operator(Plus), Number(3.0)];
    assert Render(e) == [Operator(Minus), Operator(LeftBracket), Number(2.0), Operator(Plus), Number(3.0),
                         Operator(RightBracket), Operator(Times), Number(4.0)];
    e
  }

  lemma SignedBracket()
    ensures Evaluate("-(2+3)*4\n") == Ok(-20.0)
  {
    var e := NegatedSumTimesFour();
    CalculatorAnswers(e, "");
    assert Show(e) + "\n" + "" == "-(2+3)*4\n";
  }
}
