/** The expressions `parse_tokens` evaluates, with their ordinary arithmetic meaning.
    A sum of terms, a term a product of factors, a factor an optional sign before a
    number or a bracketed expression; both chains group to the left, and `*` and `/`
    bind tighter than `+` and `-`. */
module Grammar {
  import opened Tokens
  import opened Reduction

  datatype Sign = Unsigned | Positive | Negative
  datatype MulOp = Mul | Div
  datatype AddOp = Add | Sub

  datatype Atom = Num(value: real) | Paren(inner: Expr)
  datatype Factor = Factor(sign: Sign, atom: Atom)
  datatype Term = Single(factor: Factor) | Product(left: Term, mop: MulOp, right: Factor)
  datatype Expr = Lone(term: Term) | Sum(left: Expr, aop: AddOp, right: Term)

  function OpOfMul(m: MulOp): (op: Op)
    ensures InLevel(op, Multiplicative) && IsArithmetic(op)
  {
    if m == Mul then Times else Divide
  }

  function OpOfAdd(a: AddOp): (op: Op)
    ensures InLevel(op, Additive) && IsArithmetic(op)
  {
    if a == Add then Plus else Minus
  }

  // ---------------------------------------------------------------------------
  // The meaning of an expression. None: some divisor is zero.

  function ApplySign(sign: Sign, v: real): real
  {
    if sign == Negative then -v else v
  }

  function EvalAtom(a: Atom): Option<real>
  {
    match a
    case Num(v) => Some(v)
    case Paren(e) => Eval(e)
  }

  function EvalFactor(f: Factor): Option<real>
  {
    match EvalAtom(f.atom)
    case None => None
    case Some(v) => Some(ApplySign(f.sign, v))
  }

  /** `a * b` or `a / b`; None for a division by zero. */
  function Scale(m: MulOp, a: real, b: real): Option<real>
  {
    if m == Mul then Some(a * b) else if b == 0.0 then None else Some(a / b)
  }

  function EvalTerm(t: Term): Option<real>
  {
    match t
    case Single(f) => EvalFactor(f)
    case Product(l, m, f) =>
      var a, b := EvalTerm(l), EvalFactor(f);
      if a.None? || b.None? then None else Scale(m, a.value, b.value)
  }

  function Eval(e: Expr): Option<real>
  {
    match e
    case Lone(t) => EvalTerm(t)
    case Sum(l, a, t) =>
      var x, y := Eval(l), EvalTerm(t);
      if x.None? || y.None? then None
      else Some(if a == Add then x.value + y.value else x.value - y.value)
  }

  // ---------------------------------------------------------------------------
  // The tokens an expression is written with.

  function SignTokens(sign: Sign): (r: seq<Token>)
    ensures |r| <= 1
  {
    match sign
    case Unsigned => []
    case Positive => [Operator(Plus)]
    case Negative => [Operator(Minus)]
  }

  function RenderAtom(a: Atom): (r: seq<Token>)
    ensures |r| > 0
  {
    match a
    case Num(v) => [Number(v)]
    case Paren(e) => [Operator(LeftBracket)] + Render(e) + [Operator(RightBracket)]
  }

  function RenderFactor(f: Factor): (r: seq<Token>)
    ensures |r| > 0
  {
    SignTokens(f.sign) + RenderAtom(f.atom)
  }

  function RenderTerm(t: Term): (r: seq<Token>)
    ensures |r| > 0
  {
    match t
    case Single(f) => RenderFactor(f)
    case Product(l, m, f) => RenderTerm(l) + [Operator(OpOfMul(m))] + RenderFactor(f)
  }

  function Render(e: Expr): (r: seq<Token>)
    ensures |r| > 0
  {
    match e
    case Lone(t) => RenderTerm(t)
    case Sum(l, a, t) => Render(l) + [Operator(OpOfAdd(a))] + RenderTerm(t)
  }

  // ---------------------------------------------------------------------------
  // The expression after each sweep, and the shapes the sweeps leave.

  /** Every factor's atom is a number. */
  predicate NumericTerm(t: Term)
  {
    match t
    case Single(f) => f.atom.Num?
    case Product(l, _, f) => NumericTerm(l) && f.atom.Num?
  }

  predicate Numeric(e: Expr)
  {
    match e
    case Lone(t) => NumericTerm(t)
    case Sum(l, _, t) => Numeric(l) && NumericTerm(t)
  }

  /** Every factor is an unsigned number. */
  predicate BareTerm(t: Term)
  {
    match t
    case Single(f) => f.sign == Unsigned && f.atom.Num?
    case Product(l, _, f) => BareTerm(l) && f.sign == Unsigned && f.atom.Num?
  }

  predicate Bare(e: Expr)
  {
    match e
    case Lone(t) => BareTerm(t)
    case Sum(l, _, t) => Bare(l) && BareTerm(t)
  }

  /** Every term is a single unsigned number. */
  predicate Flat(e: Expr)
  {
    match e
    case Lone(t) => t.Single? && t.factor.sign == Unsigned && t.factor.atom.Num?
    case Sum(l, _, t) => Flat(l) && t.Single? && t.factor.sign == Unsigned && t.factor.atom.Num?
  }

  /** A factor whose bracket, if any, is replaced by its value. */
  function UnbracketFactor(f: Factor): (r: Option<Factor>)
    ensures r.None? <==> EvalFactor(f).None?
    ensures r.Some? ==> r.value.atom.Num? && r.value.sign == f.sign && EvalFactor(r.value) == EvalFactor(f)
  {
    match EvalAtom(f.atom)
    case None => None
    case Some(v) => Some(Factor(f.sign, Num(v)))
  }

  function UnbracketTerm(t: Term): (r: Option<Term>)
    ensures r.None? ==> EvalTerm(t).None?
    ensures r.Some? ==> NumericTerm(r.value) && EvalTerm(r.value) == EvalTerm(t)
  {
    match t
    case Single(f) =>
      (match UnbracketFactor(f) case None => None case Some(f1) => Some(Single(f1)))
    case Product(l, m, f) =>
      var l1, f1 := UnbracketTerm(l), UnbracketFactor(f);
      if l1.None? || f1.None? then None
      else
        assert EvalTerm(l1.value) == EvalTerm(l) && EvalFactor(f1.value) == EvalFactor(f);
        Some(Product(l1.value, m, f1.value))
  }

  /** The expression after the bracket sweep: every bracket replaced by its value,
      or None when the inside of one of them divides by zero. */
  function Unbracket(e: Expr): (r: Option<Expr>)
    ensures r.None? ==> Eval(e).None?
    ensures r.Some? ==> Numeric(r.value) && Eval(r.value) == Eval(e)
  {
    match e
    case Lone(t) =>
      (match UnbracketTerm(t) case None => None case Some(t1) => Some(Lone(t1)))
    case Sum(l, a, t) =>
      var l1, t1 := Unbracket(l), UnbracketTerm(t);
      if l1.None? || t1.None? then None else Some(Sum(l1.value, a, t1.value))
  }

  /** A numeric factor with its sign applied to the number. */
  function UnsignFactor(f: Factor): (r: Factor)
    requires f.atom.Num?
    ensures r.sign == Unsigned && r.atom.Num? && EvalFactor(r) == EvalFactor(f)
  {
    Factor(Unsigned, Num(ApplySign(f.sign, f.atom.value)))
  }

  function UnsignTerm(t: Term): (r: Term)
    requires NumericTerm(t)
    ensures BareTerm(r) && NumericTerm(r) && EvalTerm(r) == EvalTerm(t)
  {
    match t
    case Single(f) => Single(UnsignFactor(f))
    case Product(l, m, f) => Product(UnsignTerm(l), m, UnsignFactor(f))
  }

  /** The expression after the prefix sweep: every sign applied. */
  function Unsign(e: Expr): (r: Expr)
    requires Numeric(e)
    ensures Bare(r) && Numeric(r) && Eval(r) == Eval(e)
  {
    match e
    case Lone(t) => Lone(UnsignTerm(t))
    case Sum(l, a, t) => Sum(Unsign(l), a, UnsignTerm(t))
  }

  /** The number a term reduces to. */
  function NumTerm(v: real): (t: Term)
    ensures BareTerm(t) && EvalTerm(t) == Some(v) && RenderTerm(t) == [Number(v)]
  {
    assert EvalFactor(Factor(Unsigned, Num(v))) == Some(v);
    assert RenderFactor(Factor(Unsigned, Num(v))) == [Number(v)];
    Single(Factor(Unsigned, Num(v)))
  }

  /** The expression after the multiplicative sweep: every term replaced by its value,
      or None when one of them divides by zero. */
  function Multiply(e: Expr): (r: Option<Expr>)
    ensures r.None? ==> Eval(e).None?
    ensures r.Some? ==> Flat(r.value) && Eval(r.value) == Eval(e)
  {
    match e
    case Lone(t) =>
      (match EvalTerm(t) case None => None case Some(v) => Some(Lone(NumTerm(v))))
    case Sum(l, a, t) =>
      var l1, v := Multiply(l), EvalTerm(t);
      if l1.None? || v.None? then None else Some(Sum(l1.value, a, NumTerm(v.value)))
  }

  /** An expression of single numbers always has a value. */
  lemma {:induction false} FlatDefined(e: Expr)
    requires Flat(e)
    ensures Eval(e).Some?
  {
    var t := if e.Lone? then e.term else e.right;
    assert t == NumTerm(t.factor.atom.value);
    if e.Sum? {
      FlatDefined(e.left);
    }
  }

  /** A numeric expression is written ending with a number. */
  lemma {:induction false} EndsWithNumber(e: Expr)
    requires Numeric(e)
    ensures Render(e)[|Render(e)| - 1].Number?
  {
    match e
    case Lone(t) => TermEndsWithNumber(t);
    case Sum(l, a, t) => TermEndsWithNumber(t);
  }

  lemma {:induction false} TermEndsWithNumber(t: Term)
    requires NumericTerm(t)
    ensures RenderTerm(t)[|RenderTerm(t)| - 1].Number?
  {
    var f := if t.Single? then t.factor else t.right;
    assert RenderFactor(f) == SignTokens(f.sign) + [Number(f.atom.value)];
  }
}
