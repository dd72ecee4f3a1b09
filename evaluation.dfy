/** `parse_tokens` evaluates what it is given as arithmetic: on the tokens of an
    expression, in a view that starts after a non-number and ends where the view's
    kind demands, `Reduce` leaves exactly the expression's value in its place. Each
    sweep is followed through the expression it turns the tokens into. */
module Evaluation {
  import opened Tokens
  import opened Reduction
  import opened Grammar

  /** Where a view ends: at the end of the list at the top level, at a `)` inside a
      bracket. */
  predicate Closes(X: seq<Token>, nested: bool)
  {
    if nested then X != [] && X[0] == Operator(RightBracket) else X == []
  }

  /** A sweep that reaches the end of a well-closed view succeeds with the list as it is. */
  lemma ViewEnd(A: seq<Token>, X: seq<Token>, nested: bool)
    requires Closes(X, nested)
    ensures AtStop(A + X, |A|) && StopResult(A + X, |A|, nested) == Ok(A + X)
  {
    if nested {
      assert (A + X)[|A|] == X[0];
    }
  }

  /** The token list's fold agrees with the expression's product or quotient. */
  lemma CombineScale(m: MulOp, a: real, b: real)
    ensures Combine(OpOfMul(m), a, b) == match Scale(m, a, b) case None => Err(DivisionByZero) case Some(v) => Ok(v)
  {
  }

  /** The token list's fold agrees with the expression's sum or difference. */
  lemma CombineAdd(op: AddOp, x: real, y: real)
    ensures Combine(OpOfAdd(op), x, y) == Ok(if op == Add then x + y else x - y)
  {
  }

  // ---------------------------------------------------------------------------
  // Rearranging the pieces of a token sequence.

  /** Regrouping a concatenation of four pieces. */
  lemma Regroup<T>(A: seq<T>, B: seq<T>, C: seq<T>, D: seq<T>)
    ensures A + (B + C) + D == A + B + (C + D)
    ensures A + B + C + D == A + B + (C + D)
  {
  }

  /** The cell at |A| of A + [t] + Y, and its neighbours. */
  lemma Cell<T>(A: seq<T>, t: T, Y: seq<T>)
    ensures (A + [t] + Y)[|A|] == t
    ensures |A| > 0 ==> (A + [t] + Y)[|A| - 1] == A[|A| - 1]
    ensures Y != [] ==> (A + [t] + Y)[|A| + 1] == Y[0]
  {
  }

  /** The ways of cutting P + (L + [o] + R) + X around the operator o between two
      parts of an expression. */
  lemma Split<T>(P: seq<T>, L: seq<T>, o: T, R: seq<T>, X: seq<T>)
    ensures P + (L + [o] + R) + X == P + L + ([o] + R + X)
    ensures P + L + ([o] + R + X) == P + L + [o] + (R + X)
    ensures P + L + [o] + (R + X) == P + L + [o] + R + X
    ensures ([o] + R + X)[0] == o
    ensures L != [] ==> (P + L)[|P + L| - 1] == L[|L| - 1]
  {
    Regroup(P, L + [o], R, X);
    Regroup(P, L, [o], R);
    Regroup(P + L, [o], R, X);
  }

  /** The ways of cutting P + ([open] + R + [close]) + X around a bracketed piece. */
  lemma Wrap<T>(P: seq<T>, open: T, R: seq<T>, close: T, X: seq<T>)
    ensures P + ([open] + R + [close]) + X == P + [open] + R + ([close] + X)
    ensures (P + [open] + R + ([close] + X))[|P|] == open
  {
    assert P + ([open] + R + [close]) + X == P + [open] + R + ([close] + X) by {
      Regroup(P, [open] + R, [close], X);
      Regroup(P, [open], R, [close] + X);
    }
  }

  /** Folding the pair at |A| of A + [a, b] + Y into t. */
  lemma FoldPair(A: seq<Token>, a: Token, b: Token, Y: seq<Token>, t: Token)
    ensures |A + [a, b] + Y| == |A| + 2 + |Y|
    ensures Fold2(A + [a, b] + Y, |A|, t) == A + [t] + Y
  {
    var s := A + [a, b] + Y;
    assert s[..|A|] == A && s[|A| + 2..] == Y;
  }

  /** The sequence P + [a] + ([b] + [c] + Y), three tokens after P, with the triple
      at |P| folded into t. */
  lemma FoldTriple(P: seq<Token>, a: Token, b: Token, c: Token, Y: seq<Token>, t: Token)
    ensures var s := P + [a] + ([b] + [c] + Y);
            |s| == |P| + 3 + |Y| && s[|P|] == a && s[|P| + 1] == b && s[|P| + 2] == c
            && Fold3(s, |P|, t) == P + [t] + Y
    ensures P + [a] + [b] + ([c] + Y) == P + [a] + ([b] + [c] + Y)
  {
    var s := P + [a] + ([b] + [c] + Y);
    assert s == P + [a, b, c] + Y;
    assert P + [a] + [b] + ([c] + Y) == P + [a, b, c] + Y;
    assert s[..|P|] == P && s[|P| + 3..] == Y;
  }

  // ---------------------------------------------------------------------------
  // The sweeps on a sequence whose pieces are grouped differently.

  lemma BracketAround(P: seq<Token>, L: seq<Token>, o: Token, R: seq<Token>, X: seq<Token>, k: nat, nested: bool)
    requires k <= |P| + |L| + 1 + |R| + |X|
    ensures BracketSweep(P + (L + [o] + R) + X, k, nested) == BracketSweep(P + L + ([o] + R + X), k, nested)
    ensures BracketSweep(P + (L + [o] + R) + X, k, nested) == BracketSweep(P + L + [o] + (R + X), k, nested)
    ensures BracketSweep(P + (L + [o] + R) + X, k, nested) == BracketSweep(P + L + [o] + R + X, k, nested)
    ensures |P + (L + [o] + R)| == |P + L + [o] + R|
  {
    Split(P, L, o, R, X);
  }

  lemma PrefixAround(P: seq<Token>, L: seq<Token>, o: Token, R: seq<Token>, X: seq<Token>, k: nat, nested: bool)
    requires k <= |P| + |L| + 1 + |R| + |X|
    ensures PrefixSweep(P + (L + [o] + R) + X, k, nested) == PrefixSweep(P + L + ([o] + R + X), k, nested)
    ensures PrefixSweep(P + (L + [o] + R) + X, k, nested) == PrefixSweep(P + L + [o] + (R + X), k, nested)
    ensures PrefixSweep(P + (L + [o] + R) + X, k, nested) == PrefixSweep(P + L + [o] + R + X, k, nested)
    ensures |P + (L + [o] + R)| == |P + L + [o] + R|
  {
    Split(P, L, o, R, X);
  }

  lemma InfixAround(P: seq<Token>, L: seq<Token>, o: Token, R: seq<Token>, X: seq<Token>, k: nat, nested: bool, level: Level)
    requires k <= |P| + |L| + 1 + |R| + |X|
    ensures InfixSweep(P + (L + [o] + R) + X, k, nested, level) == InfixSweep(P + L + ([o] + R + X), k, nested, level)
    ensures InfixSweep(P + (L + [o] + R) + X, k, nested, level) == InfixSweep(P + L + [o] + (R + X), k, nested, level)
    ensures InfixSweep(P + (L + [o] + R) + X, k, nested, level) == InfixSweep(P + L + [o] + R + X, k, nested, level)
    ensures |P + (L + [o] + R)| == |P + L + [o] + R|
  {
    Split(P, L, o, R, X);
  }

  // ---------------------------------------------------------------------------
  // Single steps of the sweeps, at the token t after A.

  /** The bracket sweep steps over any token other than a bracket. */
  lemma BracketPast(A: seq<Token>, t: Token, Y: seq<Token>, nested: bool)
    requires t != Operator(LeftBracket) && t != Operator(RightBracket)
    ensures BracketSweep(A + [t] + Y, |A|, nested) == BracketSweep(A + [t] + Y, |A + [t]|, nested)
  {
    Cell(A, t, Y);
    BracketSkipStep(A + [t] + Y, |A|, nested);
  }

  /** The bracket sweep on a bracketed piece R whose inside reduces to a number or
      fails with a division by zero: the brackets give way to the number. */
  lemma BracketEnclosed(P: seq<Token>, R: seq<Token>, X: seq<Token>, nested: bool, v: Option<real>)
    requires Reduce(P + [Operator(LeftBracket)] + R + ([Operator(RightBracket)] + X), |P + [Operator(LeftBracket)]|, true)
             == if v.None? then Err(DivisionByZero)
                else Ok(P + [Operator(LeftBracket)] + [Number(v.value)] + ([Operator(RightBracket)] + X))
    ensures BracketSweep(P + ([Operator(LeftBracket)] + R + [Operator(RightBracket)]) + X, |P|, nested)
            == if v.None? then Err(DivisionByZero)
               else BracketSweep(P + [Number(v.value)] + X, |P + [Number(v.value)]|, nested)
  {
    var open, close := Operator(LeftBracket), Operator(RightBracket);
    var s := P + [open] + R + ([close] + X);
    Wrap(P, open, R, close, X);
    BracketStep(s, |P|, nested);
    if v.Some? {
      FoldTriple(P, open, Number(v.value), close, X, Number(v.value));
    }
  }

  /** The prefix sweep steps over a number, an operator other than a sign, and a
      sign that follows a number. */
  lemma PrefixPast(A: seq<Token>, t: Token, Y: seq<Token>, nested: bool)
    requires t != Operator(RightBracket)
    requires t == Operator(Plus) || t == Operator(Minus) ==> A != [] && A[|A| - 1].Number?
    ensures PrefixSweep(A + [t] + Y, |A|, nested) == PrefixSweep(A + [t] + Y, |A + [t]|, nested)
  {
    Cell(A, t, Y);
    PrefixSkipStep(A + [t] + Y, |A|, nested);
  }

  /** The prefix sweep folds a sign after a non-number into the number after it, and
      steps over the result. */
  lemma PrefixSign(A: seq<Token>, sign: Sign, v: real, Y: seq<Token>, nested: bool)
    requires sign != Unsigned
    requires A == [] || !A[|A| - 1].Number?
    ensures PrefixSweep(A + (SignTokens(sign) + [Number(v)]) + Y, |A|, nested)
            == PrefixSweep(A + [Number(ApplySign(sign, v))] + Y, |A + [Number(ApplySign(sign, v))]|, nested)
  {
    var op := if sign == Positive then Operator(Plus) else Operator(Minus);
    var s := A + [op, Number(v)] + Y;
    assert SignTokens(sign) + [Number(v)] == [op, Number(v)];
    assert s == A + [op] + ([Number(v)] + Y);
    Cell(A, op, [Number(v)] + Y);
    PrefixFoldStep(s, |A|, nested);
    var w := if op == Operator(Minus) then v * -1.0 else v;
    FoldPair(A, op, Number(v), Y, Number(w));
    PrefixPast(A, Number(w), Y, nested);
  }

  /** An infix sweep steps over an operator, and over a number that starts no
      application of its level. */
  lemma InfixPast(A: seq<Token>, t: Token, Y: seq<Token>, nested: bool, level: Level)
    requires t != Operator(RightBracket)
    requires t.Number? ==> Y == [] || !(Y[0].Operator? && InLevel(Y[0].op, level))
    ensures InfixSweep(A + [t] + Y, |A|, nested, level) == InfixSweep(A + [t] + Y, |A + [t]|, nested, level)
  {
    Cell(A, t, Y);
    InfixSkipStep(A + [t] + Y, |A|, nested, level);
  }

  /** An infix sweep folds `a o b` into its value and stays on it, or fails as the
      operation does. */
  lemma InfixFold(A: seq<Token>, a: real, o: Op, b: real, Y: seq<Token>, nested: bool, level: Level)
    requires InLevel(o, level)
    ensures InfixSweep(A + [Number(a)] + ([Operator(o)] + [Number(b)] + Y), |A|, nested, level)
            == if Combine(o, a, b).Err? then Err(Combine(o, a, b).error)
               else InfixSweep(A + [Number(Combine(o, a, b).value)] + Y, |A|, nested, level)
  {
    var s := A + [Number(a)] + ([Operator(o)] + [Number(b)] + Y);
    FoldTriple(A, Number(a), Operator(o), Number(b), Y, Number(if Combine(o, a, b).Ok? then Combine(o, a, b).value else a));
    assert IsInfix(s, |A|, level);
    if Combine(o, a, b).Ok? {
      InfixFoldStep(s, |A|, nested, level, Combine(o, a, b).value);
    }
  }

  // ---------------------------------------------------------------------------
  // The bracket sweep replaces every bracket by its value (mutually recursive with
  // the main theorem, which gives the value of the inside).

  lemma {:induction false} BracketsAtom(P: seq<Token>, a: Atom, X: seq<Token>, nested: bool)
    ensures BracketSweep(P + RenderAtom(a) + X, |P|, nested)
            == match EvalAtom(a)
               case None => Err(DivisionByZero)
               case Some(v) => BracketSweep(P + [Number(v)] + X, |P + [Number(v)]|, nested)
    decreases a, 0
  {
    match a
    case Num(v) =>
      BracketPast(P, Number(v), X, nested);
    case Paren(e) =>
      ReduceRender(P + [Operator(LeftBracket)], e, [Operator(RightBracket)] + X, true);
      BracketEnclosed(P, Render(e), X, nested, Eval(e));
  }

  lemma {:induction false} BracketsFactor(P: seq<Token>, f: Factor, X: seq<Token>, nested: bool)
    ensures BracketSweep(P + RenderFactor(f) + X, |P|, nested)
            == match UnbracketFactor(f)
               case None => Err(DivisionByZero)
               case Some(f1) => BracketSweep(P + RenderFactor(f1) + X, |P + RenderFactor(f1)|, nested)
    decreases f, 1
  {
    if f.sign == Unsigned {
      assert RenderFactor(f) == RenderAtom(f.atom);
      BracketsAtom(P, f.atom, X, nested);
      if EvalAtom(f.atom).Some? {
        assert RenderFactor(Factor(f.sign, Num(EvalAtom(f.atom).value))) == [Number(EvalAtom(f.atom).value)];
      }
    } else {
      var s := SignTokens(f.sign)[0];
      assert RenderFactor(f) == [s] + RenderAtom(f.atom);
      BracketAfterSign(P, s, f.atom, X, nested);
      if EvalAtom(f.atom).Some? {
        assert RenderFactor(Factor(f.sign, Num(EvalAtom(f.atom).value))) == [s] + [Number(EvalAtom(f.atom).value)];
      }
    }
  }

  /** The bracket sweep past a sign, before an atom. */
  lemma {:induction false} BracketAfterSign(P: seq<Token>, s: Token, a: Atom, X: seq<Token>, nested: bool)
    requires s == Operator(Plus) || s == Operator(Minus)
    ensures BracketSweep(P + ([s] + RenderAtom(a)) + X, |P|, nested)
            == match EvalAtom(a)
               case None => Err(DivisionByZero)
               case Some(v) => BracketSweep(P + ([s] + [Number(v)]) + X, |P + ([s] + [Number(v)])|, nested)
    decreases a, 1
  {
    Regroup(P, [s], RenderAtom(a), X);
    BracketPast(P, s, RenderAtom(a) + X, nested);
    BracketsAtom(P + [s], a, X, nested);
    if EvalAtom(a).Some? {
      Regroup(P, [s], [Number(EvalAtom(a).value)], X);
    }
  }

  lemma {:induction false} BracketsTerm(P: seq<Token>, t: Term, X: seq<Token>, nested: bool)
    ensures BracketSweep(P + RenderTerm(t) + X, |P|, nested)
            == match UnbracketTerm(t)
               case None => Err(DivisionByZero)
               case Some(t1) => BracketSweep(P + RenderTerm(t1) + X, |P + RenderTerm(t1)|, nested)
    decreases t, 1
  {
    match t
    case Single(f) =>
      BracketsFactor(P, f, X, nested);
    case Product(l, m, f) =>
      var o, R := Operator(OpOfMul(m)), RenderFactor(f);
      BracketAround(P, RenderTerm(l), o, R, X, |P|, nested);
      BracketsTerm(P, l, [o] + R + X, nested);
      if UnbracketTerm(l).Some? {
        BracketAfterOp(P, RenderTerm(UnbracketTerm(l).value), o, f, X, nested);
      }
  }

  /** The bracket sweep past the operator o, before a factor. */
  lemma {:induction false} BracketAfterOp(P: seq<Token>, L: seq<Token>, o: Token, f: Factor, X: seq<Token>, nested: bool)
    requires o == Operator(Times) || o == Operator(Divide)
    ensures BracketSweep(P + L + ([o] + RenderFactor(f) + X), |P + L|, nested)
            == match UnbracketFactor(f)
               case None => Err(DivisionByZero)
               case Some(f1) => BracketSweep(P + (L + [o] + RenderFactor(f1)) + X, |P + (L + [o] + RenderFactor(f1))|, nested)
    decreases f, 2
  {
    var R := RenderFactor(f);
    BracketAround(P, L, o, R, X, |P + L|, nested);
    BracketPast(P + L, o, R + X, nested);
    BracketAround(P, L, o, R, X, |P + L + [o]|, nested);
    BracketsFactor(P + L + [o], f, X, nested);
    if UnbracketFactor(f).Some? {
      var R1 := RenderFactor(UnbracketFactor(f).value);
      BracketAround(P, L, o, R1, X, |P + L + [o] + R1|, nested);
    }
  }

  lemma {:induction false} BracketsExpr(P: seq<Token>, e: Expr, X: seq<Token>, nested: bool)
    ensures BracketSweep(P + Render(e) + X, |P|, nested)
            == match Unbracket(e)
               case None => Err(DivisionByZero)
               case Some(e1) => BracketSweep(P + Render(e1) + X, |P + Render(e1)|, nested)
    decreases e, 1
  {
    match e
    case Lone(t) =>
      BracketsTerm(P, t, X, nested);
    case Sum(l, a, t) =>
      var o, R := Operator(OpOfAdd(a)), RenderTerm(t);
      BracketAround(P, Render(l), o, R, X, |P|, nested);
      BracketsExpr(P, l, [o] + R + X, nested);
      if Unbracket(l).Some? {
        BracketAfterSum(P, Render(Unbracket(l).value), o, t, X, nested);
      }
  }

  /** The bracket sweep past the operator o, before a term. */
  lemma {:induction false} BracketAfterSum(P: seq<Token>, L: seq<Token>, o: Token, t: Term, X: seq<Token>, nested: bool)
    requires o == Operator(Plus) || o == Operator(Minus)
    ensures BracketSweep(P + L + ([o] + RenderTerm(t) + X), |P + L|, nested)
            == match UnbracketTerm(t)
               case None => Err(DivisionByZero)
               case Some(t1) => BracketSweep(P + (L + [o] + RenderTerm(t1)) + X, |P + (L + [o] + RenderTerm(t1))|, nested)
    decreases t, 2
  {
    var R := RenderTerm(t);
    BracketAround(P, L, o, R, X, |P + L|, nested);
    BracketPast(P + L, o, R + X, nested);
    BracketAround(P, L, o, R, X, |P + L + [o]|, nested);
    BracketsTerm(P + L + [o], t, X, nested);
    if UnbracketTerm(t).Some? {
      var R1 := RenderTerm(UnbracketTerm(t).value);
      BracketAround(P, L, o, R1, X, |P + L + [o] + R1|, nested);
    }
  }

  // ---------------------------------------------------------------------------
  // The prefix sweep applies every sign.

  lemma PrefixFactor(P: seq<Token>, f: Factor, X: seq<Token>, nested: bool)
    requires f.atom.Num?
    requires P == [] || !P[|P| - 1].Number?
    ensures PrefixSweep(P + RenderFactor(f) + X, |P|, nested)
            == PrefixSweep(P + RenderFactor(UnsignFactor(f)) + X, |P + RenderFactor(UnsignFactor(f))|, nested)
  {
    var v := f.atom.value;
    assert RenderFactor(f) == SignTokens(f.sign) + [Number(v)];
    assert RenderFactor(UnsignFactor(f)) == [Number(ApplySign(f.sign, v))];
    if f.sign == Unsigned {
      PrefixPast(P, Number(v), X, nested);
    } else {
      PrefixSign(P, f.sign, v, X, nested);
    }
  }

  lemma {:induction false} PrefixTerm(P: seq<Token>, t: Term, X: seq<Token>, nested: bool)
    requires NumericTerm(t)
    requires P == [] || !P[|P| - 1].Number?
    ensures PrefixSweep(P + RenderTerm(t) + X, |P|, nested)
            == PrefixSweep(P + RenderTerm(UnsignTerm(t)) + X, |P + RenderTerm(UnsignTerm(t))|, nested)
  {
    match t
    case Single(f) =>
      PrefixFactor(P, f, X, nested);
    case Product(l, m, f) =>
      var o, R := Operator(OpOfMul(m)), RenderFactor(f);
      PrefixAround(P, RenderTerm(l), o, R, X, |P|, nested);
      PrefixTerm(P, l, [o] + R + X, nested);
      PrefixAfterOp(P, RenderTerm(UnsignTerm(l)), o, f, X, nested);
  }

  /** The prefix sweep past the operator o before a factor. */
  lemma PrefixAfterOp(P: seq<Token>, L: seq<Token>, o: Token, f: Factor, X: seq<Token>, nested: bool)
    requires o == Operator(Times) || o == Operator(Divide)
    requires f.atom.Num?
    ensures PrefixSweep(P + L + ([o] + RenderFactor(f) + X), |P + L|, nested)
            == PrefixSweep(P + (L + [o] + RenderFactor(UnsignFactor(f))) + X,
                           |P + (L + [o] + RenderFactor(UnsignFactor(f)))|, nested)
  {
    var R, R2 := RenderFactor(f), RenderFactor(UnsignFactor(f));
    PrefixAround(P, L, o, R, X, |P + L|, nested);
    PrefixPast(P + L, o, R + X, nested);
    PrefixAround(P, L, o, R, X, |P + L + [o]|, nested);
    PrefixFactor(P + L + [o], f, X, nested);
    PrefixAround(P, L, o, R2, X, |P + L + [o] + R2|, nested);
  }

  lemma {:induction false} PrefixExpr(P: seq<Token>, e: Expr, X: seq<Token>, nested: bool)
    requires Numeric(e)
    requires P == [] || !P[|P| - 1].Number?
    ensures PrefixSweep(P + Render(e) + X, |P|, nested)
            == PrefixSweep(P + Render(Unsign(e)) + X, |P + Render(Unsign(e))|, nested)
  {
    match e
    case Lone(t) =>
      PrefixTerm(P, t, X, nested);
    case Sum(l, a, t) =>
      var o, R := Operator(OpOfAdd(a)), RenderTerm(t);
      PrefixAround(P, Render(l), o, R, X, |P|, nested);
      PrefixExpr(P, l, [o] + R + X, nested);
      EndsWithNumber(Unsign(l));
      PrefixAfterSum(P, Render(Unsign(l)), o, t, X, nested);
  }

  /** The prefix sweep past the operator o after a number, before a term. */
  lemma PrefixAfterSum(P: seq<Token>, L: seq<Token>, o: Token, t: Term, X: seq<Token>, nested: bool)
    requires o == Operator(Plus) || o == Operator(Minus)
    requires L != [] && L[|L| - 1].Number?
    requires NumericTerm(t)
    ensures PrefixSweep(P + L + ([o] + RenderTerm(t) + X), |P + L|, nested)
            == PrefixSweep(P + (L + [o] + RenderTerm(UnsignTerm(t))) + X,
                           |P + (L + [o] + RenderTerm(UnsignTerm(t)))|, nested)
  {
    var R, R2 := RenderTerm(t), RenderTerm(UnsignTerm(t));
    PrefixAround(P, L, o, R, X, |P + L|, nested);
    Split(P, L, o, R, X);
    PrefixPast(P + L, o, R + X, nested);
    PrefixAround(P, L, o, R, X, |P + L + [o]|, nested);
    PrefixTerm(P + L + [o], t, X, nested);
    PrefixAround(P, L, o, R2, X, |P + L + [o] + R2|, nested);
  }

  // ---------------------------------------------------------------------------
  // The multiplicative sweep replaces every term by its value.

  lemma {:induction false} MulTerm(P: seq<Token>, t: Term, X: seq<Token>, nested: bool)
    requires BareTerm(t)
    ensures InfixSweep(P + RenderTerm(t) + X, |P|, nested, Multiplicative)
            == match EvalTerm(t)
               case None => Err(DivisionByZero)
               case Some(v) => InfixSweep(P + [Number(v)] + X, |P|, nested, Multiplicative)
  {
    match t
    case Single(f) =>
      assert f == Factor(Unsigned, Num(f.atom.value));
      assert RenderFactor(f) == [Number(f.atom.value)];
      assert EvalFactor(f) == Some(f.atom.value);
    case Product(l, m, f) =>
      var o, b := Operator(OpOfMul(m)), f.atom.value;
      assert f == Factor(Unsigned, Num(b));
      assert RenderFactor(f) == [Number(b)];
      assert EvalFactor(f) == Some(b);
      InfixAround(P, RenderTerm(l), o, [Number(b)], X, |P|, nested, Multiplicative);
      MulTerm(P, l, [o] + [Number(b)] + X, nested);
      if EvalTerm(l).Some? {
        InfixFold(P, EvalTerm(l).value, OpOfMul(m), b, X, nested, Multiplicative);
        CombineScale(m, EvalTerm(l).value, b);
      }
  }

  lemma {:induction false} MulExpr(P: seq<Token>, e: Expr, X: seq<Token>, nested: bool)
    requires Bare(e)
    requires X == [] || !(X[0].Operator? && InLevel(X[0].op, Multiplicative))
    ensures InfixSweep(P + Render(e) + X, |P|, nested, Multiplicative)
            == match Multiply(e)
               case None => Err(DivisionByZero)
               case Some(e3) => InfixSweep(P + Render(e3) + X, |P + Render(e3)|, nested, Multiplicative)
  {
    match e
    case Lone(t) =>
      MulTerm(P, t, X, nested);
      if EvalTerm(t).Some? {
        InfixPast(P, Number(EvalTerm(t).value), X, nested, Multiplicative);
      }
    case Sum(l, a, t) =>
      var o, R := Operator(OpOfAdd(a)), RenderTerm(t);
      InfixAround(P, Render(l), o, R, X, |P|, nested, Multiplicative);
      MulExpr(P, l, [o] + R + X, nested);
      if Multiply(l).Some? {
        MulAfterSum(P, Render(Multiply(l).value), o, t, X, nested);
      }
  }

  /** The multiplicative sweep past the operator o, through the term after it. */
  lemma MulAfterSum(P: seq<Token>, L: seq<Token>, o: Token, t: Term, X: seq<Token>, nested: bool)
    requires o == Operator(Plus) || o == Operator(Minus)
    requires BareTerm(t)
    requires X == [] || !(X[0].Operator? && InLevel(X[0].op, Multiplicative))
    ensures InfixSweep(P + L + ([o] + RenderTerm(t) + X), |P + L|, nested, Multiplicative)
            == match EvalTerm(t)
               case None => Err(DivisionByZero)
               case Some(v) => InfixSweep(P + (L + [o] + [Number(v)]) + X, |P + (L + [o] + [Number(v)])|, nested, Multiplicative)
  {
    var R := RenderTerm(t);
    InfixAround(P, L, o, R, X, |P + L|, nested, Multiplicative);
    InfixPast(P + L, o, R + X, nested, Multiplicative);
    InfixAround(P, L, o, R, X, |P + L + [o]|, nested, Multiplicative);
    MulTerm(P + L + [o], t, X, nested);
    if EvalTerm(t).Some? {
      var v := EvalTerm(t).value;
      InfixPast(P + L + [o], Number(v), X, nested, Multiplicative);
      InfixAround(P, L, o, [Number(v)], X, |P + L + [o] + [Number(v)]|, nested, Multiplicative);
    }
  }

  // ---------------------------------------------------------------------------
  // The additive sweep folds the terms' values from the left.

  lemma {:induction false} AddExpr(P: seq<Token>, e: Expr, X: seq<Token>, nested: bool)
    requires Flat(e)
    ensures Eval(e).Some?
    ensures InfixSweep(P + Render(e) + X, |P|, nested, Additive)
            == InfixSweep(P + [Number(Eval(e).value)] + X, |P|, nested, Additive)
  {
    FlatDefined(e);
    match e
    case Lone(t) =>
      assert t == NumTerm(t.factor.atom.value);
    case Sum(l, a, t) =>
      var o, b := Operator(OpOfAdd(a)), t.factor.atom.value;
      assert t == NumTerm(b);
      InfixAround(P, Render(l), o, [Number(b)], X, |P|, nested, Additive);
      AddExpr(P, l, [o] + [Number(b)] + X, nested);
      InfixFold(P, Eval(l).value, OpOfAdd(a), b, X, nested, Additive);
      CombineAdd(a, Eval(l).value, b);
  }

  // ---------------------------------------------------------------------------

  /** `parse_tokens` on the tokens of an expression leaves its value in their place,
      or reports the division by zero. The view must start after a non-number (a
      prefix sign at its start is one) and end as its kind demands. */
  lemma {:induction false} ReduceRender(P: seq<Token>, e: Expr, X: seq<Token>, nested: bool)
    requires P == [] || !P[|P| - 1].Number?
    requires Closes(X, nested)
    ensures Reduce(P + Render(e) + X, |P|, nested)
            == if Eval(e).None? then Err(DivisionByZero) else Ok(P + [Number(Eval(e).value)] + X)
    decreases e, 2
  {
    BracketsExpr(P, e, X, nested);
    if Unbracket(e).Some? {
      var e1 := Unbracket(e).value;
      ViewEnd(P + Render(e1), X, nested);
      PrefixExpr(P, e1, X, nested);
      var e2 := Unsign(e1);
      ViewEnd(P + Render(e2), X, nested);
      MulExpr(P, e2, X, nested);
      if Multiply(e2).Some? {
        var e3 := Multiply(e2).value;
        ViewEnd(P + Render(e3), X, nested);
        AddExpr(P, e3, X, nested);
        var v := Eval(e3).value;
        InfixPast(P, Number(v), X, nested, Additive);
        ViewEnd(P + [Number(v)], X, nested);
      }
    }
  }
}
