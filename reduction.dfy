/** `parse_tokens` as a function on the token sequence. Every sweep walks a cursor
    `i` over the whole sequence, starting at the first position `lo` of the view it
    was given; it stops at the end of the list or at a `)`, and rewrites only
    positions from its cursor on. */
module Reduction {
  import opened Tokens

  /** Whether the cursor has reached the end of the view: `TOKEN_ITERATE_CHECK`. */
  predicate AtStop(s: seq<Token>, i: nat)
    requires i <= |s|
  {
    i == |s| || s[i] == Operator(RightBracket)
  }

  /** What a sweep returns when it stops at position i. Inside a bracket the view must
      end at a `)`; at the top level it must end at the end of the list. */
  function StopResult(s: seq<Token>, i: nat, nested: bool): (r: Result<seq<Token>>)
    requires i <= |s| && AtStop(s, i)
    ensures r.Ok? ==> r.value == s
    ensures r.Ok? <==> (nested <==> i < |s|)
    ensures r == Err(UnclosedBracket) <==> nested && i == |s|
    ensures r == Err(UnexpectedRightBracket) <==> !nested && i < |s|
  {
    if i == |s| then
      if nested then Err(UnclosedBracket) else Ok(s)
    else
      if nested then Ok(s) else Err(UnexpectedRightBracket)
  }

  /** The sequence with positions i+1 and i+2 removed and position i set to t:
      the result of a fold that keeps its left token. */
  function Fold3(s: seq<Token>, i: nat, t: Token): (r: seq<Token>)
    requires i + 2 < |s|
  {
    s[..i] + [t] + s[i + 3..]
  }

  /** The sequence with position i removed and position i+1 set to t. */
  function Fold2(s: seq<Token>, i: nat, t: Token): (r: seq<Token>)
    requires i + 1 < |s|
  {
    s[..i] + [t] + s[i + 2..]
  }

  /** The first sweep: every `(` is reduced by a recursive call on the view that starts
      after it, which must leave a number followed by `)`; both brackets are then
      deleted and the sweep continues after the number. */
  function BracketSweep(s: seq<Token>, i: nat, nested: bool): (r: Result<seq<Token>>)
    requires i <= |s|
    ensures r.Ok? ==> i <= |r.value| <= |s|
    decreases |s| - i, 0
  {
    if AtStop(s, i) then StopResult(s, i, nested)
    else if s[i] == Operator(LeftBracket) then
      if i + 1 == |s| then Err(RightBracketExpected)
      else
        match Reduce(s, i + 1, true)
        case Err(e) => Err(e)
        case Ok(t) =>
          if i + 2 < |t| && t[i + 1].Number? && t[i + 2] == Operator(RightBracket) then
            BracketSweep(Fold3(t, i, t[i + 1]), i + 1, nested)
          else Err(MissingBracketResult)
    else BracketSweep(s, i + 1, nested)
  }

  /** One step of the bracket sweep past a token that is not a bracket. */
  lemma BracketSkipStep(s: seq<Token>, i: nat, nested: bool)
    requires i < |s| && !AtStop(s, i) && s[i] != Operator(LeftBracket)
    ensures BracketSweep(s, i, nested) == BracketSweep(s, i + 1, nested)
  {
  }

  /** The bracket sweep at a `(` whose inside reduces to t. */
  lemma BracketStep(s: seq<Token>, i: nat, nested: bool)
    requires i + 1 < |s| && s[i] == Operator(LeftBracket)
    ensures var inner := Reduce(s, i + 1, true);
            BracketSweep(s, i, nested)
            == if inner.Err? then Err(inner.error)
               else if i + 2 < |inner.value| && inner.value[i + 1].Number? && inner.value[i + 2] == Operator(RightBracket)
               then BracketSweep(Fold3(inner.value, i, inner.value[i + 1]), i + 1, nested)
               else Err(MissingBracketResult)
  {
  }

  /** Whether a `+` or `-` at position i is a prefix sign: it does not follow a
      number, and a number follows it. */
  predicate IsPrefixSign(s: seq<Token>, i: nat)
    requires i < |s|
  {
    && (s[i] == Operator(Plus) || s[i] == Operator(Minus))
    && (i == 0 || !s[i - 1].Number?)
    && i + 1 < |s| && s[i + 1].Number?
  }

  /** The second sweep: a prefix sign is folded into the number after it, and the
      cursor moves on to that number. */
  function PrefixSweep(s: seq<Token>, i: nat, nested: bool): (r: Result<seq<Token>>)
    requires i <= |s|
    ensures r.Ok? ==> i <= |r.value| <= |s|
    decreases |s| - i
  {
    if AtStop(s, i) then StopResult(s, i, nested)
    else if IsPrefixSign(s, i) then
      var v := s[i + 1].value;
      PrefixSweep(Fold2(s, i, Number(if s[i] == Operator(Minus) then v * -1.0 else v)), i, nested)
    else PrefixSweep(s, i + 1, nested)
  }

  /** One step of the prefix sweep at a sign it folds. */
  lemma PrefixFoldStep(s: seq<Token>, i: nat, nested: bool)
    requires i < |s| && IsPrefixSign(s, i)
    ensures var v := s[i + 1].value;
            PrefixSweep(s, i, nested)
            == PrefixSweep(Fold2(s, i, Number(if s[i] == Operator(Minus) then v * -1.0 else v)), i, nested)
  {
  }

  /** One step of the prefix sweep past a token it leaves alone. */
  lemma PrefixSkipStep(s: seq<Token>, i: nat, nested: bool)
    requires i < |s| && !AtStop(s, i) && !IsPrefixSign(s, i)
    ensures PrefixSweep(s, i, nested) == PrefixSweep(s, i + 1, nested)
  {
  }

  /** The two precedence levels of the infix sweeps. */
  datatype Level = Multiplicative | Additive

  /** The operators folded at each level. */
  predicate InLevel(op: Op, level: Level)
    ensures InLevel(op, level) ==> IsArithmetic(op)
  {
    match level
    case Multiplicative => op == Times || op == Divide
    case Additive => op == Plus || op == Minus
  }

  /** Whether position i starts an infix application of the level: a number followed
      by one of the level's operators. */
  predicate IsInfix(s: seq<Token>, i: nat, level: Level)
    requires i < |s|
  {
    s[i].Number? && i + 1 < |s| && s[i + 1].Operator? && InLevel(s[i + 1].op, level)
  }

  /** A `+` or `-` before a number is a prefix sign exactly when it does not continue an
      additive application begun by the token before it. */
  lemma SignOrOperator(s: seq<Token>, i: nat)
    requires 0 < i && i + 1 < |s|
    requires (s[i] == Operator(Plus) || s[i] == Operator(Minus)) && s[i + 1].Number?
    ensures IsPrefixSign(s, i) <==> !IsInfix(s, i - 1, Additive)
  {
  }

  /** The third and fourth sweeps: `a op b` at the cursor becomes the number `a op b`,
      and the cursor stays on it so that a chain folds from the left. A missing or
      non-number right operand is an error. */
  function InfixSweep(s: seq<Token>, i: nat, nested: bool, level: Level): (r: Result<seq<Token>>)
    requires i <= |s|
    ensures r.Ok? ==> i <= |r.value| <= |s|
    decreases |s| - i
  {
    if AtStop(s, i) then StopResult(s, i, nested)
    else if IsInfix(s, i, level) then
      if i + 2 == |s| || !s[i + 2].Number? then Err(InvalidInfixRhs)
      else
        match Combine(s[i + 1].op, s[i].value, s[i + 2].value)
        case Err(e) => Err(e)
        case Ok(v) => InfixSweep(Fold3(s, i, Number(v)), i, nested, level)
    else InfixSweep(s, i + 1, nested, level)
  }

  /** One step of an infix sweep at an application it folds. */
  lemma InfixFoldStep(s: seq<Token>, i: nat, nested: bool, level: Level, v: real)
    requires i + 2 < |s| && IsInfix(s, i, level) && s[i + 2].Number?
    requires Combine(s[i + 1].op, s[i].value, s[i + 2].value) == Ok(v)
    ensures InfixSweep(s, i, nested, level) == InfixSweep(Fold3(s, i, Number(v)), i, nested, level)
  {
  }

  /** One step of an infix sweep past a token that starts no application of the level. */
  lemma InfixSkipStep(s: seq<Token>, i: nat, nested: bool, level: Level)
    requires i < |s| && !AtStop(s, i) && !IsInfix(s, i, level)
    ensures InfixSweep(s, i, nested, level) == InfixSweep(s, i + 1, nested, level)
  {
  }

  /** `parse_tokens` on the view that starts at position lo: the four sweeps in turn. */
  function Reduce(s: seq<Token>, lo: nat, nested: bool): (r: Result<seq<Token>>)
    requires lo <= |s|
    ensures r.Ok? ==> lo <= |r.value| <= |s|
    decreases |s| - lo, 1
  {
    match BracketSweep(s, lo, nested)
    case Err(e) => Err(e)
    case Ok(s1) =>
      match PrefixSweep(s1, lo, nested)
      case Err(e) => Err(e)
      case Ok(s2) =>
        match InfixSweep(s2, lo, nested, Multiplicative)
        case Err(e) => Err(e)
        case Ok(s3) => InfixSweep(s3, lo, nested, Additive)
  }

  /** The prefix sweep from cursor i leaves every token before i as it was. */
  lemma {:induction false} PrefixKept(s: seq<Token>, i: nat, nested: bool)
    requires i <= |s|
    ensures var r := PrefixSweep(s, i, nested); r.Ok? ==> r.value[..i] == s[..i]
    decreases |s| - i
  {
    if AtStop(s, i) {
    } else if IsPrefixSign(s, i) {
      var v := s[i + 1].value;
      var t := Fold2(s, i, Number(if s[i] == Operator(Minus) then v * -1.0 else v));
      assert t[..i] == s[..i];
      PrefixKept(t, i, nested);
    } else {
      PrefixKept(s, i + 1, nested);
      var r := PrefixSweep(s, i + 1, nested);
      if r.Ok? {
        assert r.value[..i] == r.value[..i + 1][..i];
        assert s[..i] == s[..i + 1][..i];
      }
    }
  }

  /** An infix sweep from cursor i leaves every token before i as it was. */
  lemma {:induction false} InfixKept(s: seq<Token>, i: nat, nested: bool, level: Level)
    requires i <= |s|
    ensures var r := InfixSweep(s, i, nested, level); r.Ok? ==> r.value[..i] == s[..i]
    decreases |s| - i
  {
    if AtStop(s, i) {
    } else if IsInfix(s, i, level) {
      if i + 2 < |s| && s[i + 2].Number? {
        var c := Combine(s[i + 1].op, s[i].value, s[i + 2].value);
        if c.Ok? {
          var t := Fold3(s, i, Number(c.value));
          assert t[..i] == s[..i];
          InfixKept(t, i, nested, level);
        }
      }
    } else {
      InfixKept(s, i + 1, nested, level);
      var r := InfixSweep(s, i + 1, nested, level);
      if r.Ok? {
        assert r.value[..i] == r.value[..i + 1][..i];
        assert s[..i] == s[..i + 1][..i];
      }
    }
  }

  /** The bracket sweep from cursor i leaves every token before i as it was: the call
      on the view after a `(` rewrites only that view. */
  lemma {:induction false} BracketKept(s: seq<Token>, i: nat, nested: bool)
    requires i <= |s|
    ensures var r := BracketSweep(s, i, nested); r.Ok? ==> r.value[..i] == s[..i]
    decreases |s| - i, 0
  {
    if AtStop(s, i) {
    } else if s[i] == Operator(LeftBracket) {
      if i + 1 < |s| {
        ReduceKept(s, i + 1, true);
        var inner := Reduce(s, i + 1, true);
        if inner.Ok? {
          var t := inner.value;
          if i + 2 < |t| && t[i + 1].Number? && t[i + 2] == Operator(RightBracket) {
            var u := Fold3(t, i, t[i + 1]);
            BracketKept(u, i + 1, nested);
            var r := BracketSweep(u, i + 1, nested);
            if r.Ok? {
              calc {
                r.value[..i];
                r.value[..i + 1][..i];
                u[..i + 1][..i];
                t[..i];
                t[..i + 1][..i];
                s[..i + 1][..i];
                s[..i];
              }
            }
          }
        }
      }
    } else {
      BracketKept(s, i + 1, nested);
      var r := BracketSweep(s, i + 1, nested);
      if r.Ok? {
        assert r.value[..i] == r.value[..i + 1][..i];
        assert s[..i] == s[..i + 1][..i];
      }
    }
  }

  /** Reducing the view that starts at lo leaves every token before lo as it was. */
  lemma {:induction false} ReduceKept(s: seq<Token>, lo: nat, nested: bool)
    requires lo <= |s|
    ensures var r := Reduce(s, lo, nested); r.Ok? ==> r.value[..lo] == s[..lo]
    decreases |s| - lo, 1
  {
    BracketKept(s, lo, nested);
    var s1 := BracketSweep(s, lo, nested);
    if s1.Ok? {
      PrefixKept(s1.value, lo, nested);
      var s2 := PrefixSweep(s1.value, lo, nested);
      if s2.Ok? {
        InfixKept(s2.value, lo, nested, Multiplicative);
        var s3 := InfixSweep(s2.value, lo, nested, Multiplicative);
        if s3.Ok? {
          InfixKept(s3.value, lo, nested, Additive);
        }
      }
    }
  }

  /** The check after the top-level call: a single number is the answer. */
  function Finish(r: Result<seq<Token>>): (v: Result<real>)
    ensures v.Ok? <==> r.Ok? && |r.value| == 1 && r.value[0].Number?
    ensures v.Ok? ==> v.value == r.value[0].value
    ensures r.Err? ==> v == Err(r.error)
    ensures r.Ok? && v.Err? ==> v.error == NotSingleNumber
  {
    match r
    case Err(e) => Err(e)
    case Ok(s) => if |s| == 1 && s[0].Number? then Ok(s[0].value) else Err(NotSingleNumber)
  }
}
