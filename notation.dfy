/** The calculator end to end: a line that writes an expression with natural-number
    literals is answered with that expression's value, or with the division by zero. */
module Notation {
  import opened Tokens
  import opened Tokenizer
  import opened Reduction
  import opened Grammar
  import opened Evaluation
  import opened Parser

  /** The character of a decimal digit. */
  function Digit(d: nat): (c: char)
    requires d < 10
    ensures IsDigit(c) && DigitValue(c) == d as real
  {
    ('0' as int + d) as char
  }

  /** The decimal numeral of n, without leading zeros. */
  function Numeral(n: nat): (cs: string)
    ensures cs != [] && forall i :: 0 <= i < |cs| ==> IsDigit(cs[i])
  {
    if n < 10 then [Digit(n)] else Numeral(n / 10) + [Digit(n % 10)]
  }

  /** The natural number a literal is written as (its integer part; 0 below zero). */
  function Natural(v: real): nat
  {
    if v.Floor < 0 then 0 else v.Floor
  }

  /** Every number among the tokens is a natural number. */
  predicate NaturalLiterals(ts: seq<Token>)
  {
    forall t | t in ts && t.Number? :: t.value == Natural(t.value) as real
  }

  function SignText(sign: Sign): (r: string)
  {
    match sign
    case Unsigned => ""
    case Positive => "+"
    case Negative => "-"
  }

  function ShowAtom(a: Atom): (r: string)
    ensures '\n' !in r
  {
    match a
    case Num(v) => Numeral(Natural(v))
    case Paren(e) => "(" + Show(e) + ")"
  }

  function ShowFactor(f: Factor): (r: string)
    ensures '\n' !in r
  {
    SignText(f.sign) + ShowAtom(f.atom)
  }

  function ShowTerm(t: Term): (r: string)
    ensures '\n' !in r
  {
    match t
    case Single(f) => ShowFactor(f)
    case Product(l, m, f) => ShowTerm(l) + [CharOfOp(OpOfMul(m))] + ShowFactor(f)
  }

  /** The text of an expression, as a user would type it. */
  function Show(e: Expr): (r: string)
    ensures '\n' !in r
  {
    match e
    case Lone(t) => ShowTerm(t)
    case Sum(l, a, t) => Show(l) + [CharOfOp(OpOfAdd(a))] + ShowTerm(t)
  }

  // ---------------------------------------------------------------------------
  // Reading the text back into tokens.

  /** A digit or skipped character read after an operator only touches what
      follows the operator. */
  lemma ScanAfter(X: seq<Token>, Y: seq<Token>, c: char)
    requires Y != [] || X == [] || !X[|X| - 1].Number?
    ensures Scan(X + Y, c) == X + Scan(Y, c)
  {
    if IsDigit(c) && Y != [] && Y[|Y| - 1].Number? {
      assert (X + Y)[..|X + Y| - 1] == X + Y[..|Y| - 1];
    }
  }

  /** An operator character splits the text: the tokens of each side, and the
      operator between them. */
  lemma {:induction false} ScannedSplit(A: string, c: char, B: string)
    requires IsOpChar(c)
    ensures Scanned(A + [c] + B) == Scanned(A) + [Operator(OpOfChar(c))] + Scanned(B)
    decreases |B|
  {
    var X := Scanned(A) + [Operator(OpOfChar(c))];
    if B == [] {
      assert (A + [c])[..|A|] == A;
      assert A + [c] + B == A + [c];
    } else {
      var init, d := B[..|B| - 1], B[|B| - 1];
      assert A + [c] + B == (A + [c] + init) + [d];
      assert (A + [c] + B)[..|A + [c] + B| - 1] == A + [c] + init;
      ScannedSplit(A, c, init);
      ScanAfter(X, Scanned(init), d);
      assert B[..|B| - 1] == init;
    }
  }

  /** An operator character at the start of the text comes first in its tokens. */
  lemma ScannedCons(c: char, B: string)
    requires IsOpChar(c)
    ensures Scanned([c] + B) == [Operator(OpOfChar(c))] + Scanned(B)
  {
    ScannedSplit([], c, B);
    assert [] + [c] + B == [c] + B;
  }

  /** An operator character at the end of the text comes last in its tokens. */
  lemma ScannedSnoc(A: string, c: char)
    requires IsOpChar(c)
    ensures Scanned(A + [c]) == Scanned(A) + [Operator(OpOfChar(c))]
  {
    assert (A + [c])[..|A|] == A;
  }

  /** A numeral is read as one number: its value. */
  lemma {:induction false} ScannedNumeral(n: nat)
    ensures Scanned(Numeral(n)) == [Number(n as real)]
  {
    if n < 10 {
      assert Numeral(n)[..0] == [];
    } else {
      var cs := Numeral(n / 10);
      ScannedNumeral(n / 10);
      assert (cs + [Digit(n % 10)])[..|cs|] == cs;
      assert (n / 10) as real * 10.0 + (n % 10) as real == n as real;
    }
  }

  lemma {:induction false} ScannedAtom(a: Atom)
    requires NaturalLiterals(RenderAtom(a))
    ensures Scanned(ShowAtom(a)) == RenderAtom(a)
    decreases a
  {
    match a
    case Num(v) =>
      assert Number(v) in RenderAtom(a);
      ScannedNumeral(Natural(v));
    case Paren(e) =>
      assert forall t | t in Render(e) :: t in RenderAtom(a);
      ScannedExpr(e);
      ScannedCons('(', Show(e));
      ScannedSnoc("(" + Show(e), ')');
  }

  lemma {:induction false} ScannedFactor(f: Factor)
    requires NaturalLiterals(RenderFactor(f))
    ensures Scanned(ShowFactor(f)) == RenderFactor(f)
    decreases f
  {
    assert forall t | t in RenderAtom(f.atom) :: t in RenderFactor(f);
    ScannedAtom(f.atom);
    if f.sign == Unsigned {
      assert ShowFactor(f) == ShowAtom(f.atom);
      assert RenderFactor(f) == RenderAtom(f.atom);
    } else {
      ScannedCons(SignText(f.sign)[0], ShowAtom(f.atom));
    }
  }

  lemma {:induction false} ScannedTerm(t: Term)
    requires NaturalLiterals(RenderTerm(t))
    ensures Scanned(ShowTerm(t)) == RenderTerm(t)
    decreases t
  {
    match t
    case Single(f) =>
      ScannedFactor(f);
    case Product(l, m, f) =>
      assert forall x | x in RenderTerm(l) :: x in RenderTerm(t);
      assert forall x | x in RenderFactor(f) :: x in RenderTerm(t);
      ScannedTerm(l);
      ScannedFactor(f);
      OpOfCharOfOp(OpOfMul(m));
      ScannedSplit(ShowTerm(l), CharOfOp(OpOfMul(m)), ShowFactor(f));
  }

  lemma {:induction false} ScannedExpr(e: Expr)
    requires NaturalLiterals(Render(e))
    ensures Scanned(Show(e)) == Render(e)
    decreases e
  {
    match e
    case Lone(t) =>
      ScannedTerm(t);
    case Sum(l, a, t) =>
      assert forall x | x in Render(l) :: x in Render(e);
      assert forall x | x in RenderTerm(t) :: x in Render(e);
      ScannedExpr(l);
      ScannedTerm(t);
      OpOfCharOfOp(OpOfAdd(a));
      ScannedSplit(Show(l), CharOfOp(OpOfAdd(a)), ShowTerm(t));
  }

  /** The calculator answers the text of an expression with its value, or reports
      the division by zero; whatever follows a newline is never read. */
  lemma CalculatorAnswers(e: Expr, rest: string)
    requires NaturalLiterals(Render(e))
    ensures Evaluate(Show(e) + "\n" + rest)
            == if Eval(e).None? then Err(DivisionByZero) else Ok(Eval(e).value)
  {
    var input := Show(e) + "\n" + rest;
    assert input[..|Show(e)|] == Show(e);
    LineIsPrefix(input, |Show(e)|);
    ScannedExpr(e);
    ReduceRender([], e, [], false);
    assert [] + Render(e) + [] == Render(e);
  }
}
