/** `parse_tokens` and the end of `main`, working in place on the linked token list.
    A view of the list is its first node (`list_copy.first`) and, in the proofs, the
    position `lo` of that node; each pass walks a cursor node `cur` at position `pos`. */
module Parser {
  import opened Tokens
  import opened TokenLists
  import opened Reduction
  import opened Tokenizer

  /** What a pass reports: success with the list as it left it, or the error. */
  function Reported(outcome: Outcome, list: seq<Token>): Result<seq<Token>>
  {
    if outcome.Pass? then Ok(list) else Err(outcome.error)
  }

  /** Two sequences that agree on their first m positions agree on every shorter
      prefix and at every position before m. */
  lemma KeptPrefix<T>(a: seq<T>, b: seq<T>, m: nat, k: nat)
    requires m <= |a| && m <= |b| && b[..m] == a[..m] && k <= m
    ensures b[..k] == a[..k]
    ensures k < m ==> b[k] == a[k]
  {
    assert b[..k] == b[..m][..k];
    assert a[..k] == a[..m][..k];
    if k < m {
      assert b[k] == b[..m][k];
    }
  }

  /** Deleting position i+2 and then position i. */
  lemma DeleteAround<T>(s: seq<T>, i: nat)
    requires i + 2 < |s|
    ensures var s1 := s[..i + 2] + s[i + 3..]; s1[..i] + s1[i + 1..] == s[..i] + [s[i + 1]] + s[i + 3..]
  {
    var s1 := s[..i + 2] + s[i + 3..];
    assert s1[..i] == s[..i];
    assert s1[i + 1..] == [s[i + 1]] + s[i + 3..];
  }

  /** Deleting position i+2 and then position i+1. */
  lemma DeleteTwo<T>(s: seq<T>, i: nat)
    requires i + 2 < |s|
    ensures var s1 := s[..i + 2] + s[i + 3..]; s1[..i + 1] + s1[i + 2..] == s[..i + 1] + s[i + 3..]
  {
    var s1 := s[..i + 2] + s[i + 3..];
    assert s1[..i + 1] == s[..i + 1];
    assert s1[i + 2..] == s[i + 3..];
  }

  /** Setting position i+1 to t and deleting position i. */
  lemma SetThenDelete<T>(s: seq<T>, i: nat, t: T)
    requires i + 1 < |s|
    ensures var s1 := s[i + 1 := t]; s1[..i] + s1[i + 1..] == s[..i] + [t] + s[i + 2..]
  {
    var s1 := s[i + 1 := t];
    assert s1[..i] == s[..i];
    assert s1[i + 1..] == [t] + s[i + 2..];
  }

  /** Deleting position i. */
  lemma DeleteOne<T>(s: seq<T>, i: nat)
    requires i + 1 < |s|
    ensures var s1 := s[..i] + s[i + 1..]; |s1| == |s| - 1 && s1[..i] == s[..i] && s1[i] == s[i + 1]
  {
  }

  /** `a op b` at positions pos..pos+2 becomes the number v at pos: the body of an
      infix pass (`*=`, `/=`, `+=` or `-=` on the left operand, then `TOKEN_INFIX_LOOP_END`). */
  method FoldInfix(list: TokenList, cur: int, opNode: int, rhs: int, ghost pos: nat, v: real)
    requires list.Valid() && pos + 2 < |list.order|
    requires list.order[pos] == cur && list.order[pos + 1] == opNode && list.order[pos + 2] == rhs
    requires list.contents[pos].Number?
    modifies list
    ensures list.Valid()
    ensures list.contents == Fold3(old(list.contents), pos, Number(v))
    ensures list.order == old(list.order)[..pos + 1] + old(list.order)[pos + 3..]
  {
    Links(list, pos);
    ghost var s, o := list.contents, list.order;
    list.SetValue(cur, pos, v);
    list.Delete(rhs, pos + 2);
    list.Delete(opNode, pos + 1);
    DeleteTwo(s[pos := Number(v)], pos);
    DeleteTwo(o, pos);
    assert s[pos := Number(v)][..pos + 1] == s[..pos] + [Number(v)];
  }

  /** A prefix sign at pos is applied to the number after it and deleted. */
  method DropSign(list: TokenList, sign: int, num: int, ghost pos: nat, negate: bool)
    requires list.Valid() && pos + 1 < |list.order|
    requires list.order[pos] == sign && list.order[pos + 1] == num
    requires list.contents[pos + 1].Number?
    modifies list
    ensures list.Valid()
    ensures var v := old(list.contents)[pos + 1].value;
            list.contents == Fold2(old(list.contents), pos, Number(if negate then v * -1.0 else v))
    ensures list.order == old(list.order)[..pos] + old(list.order)[pos + 1..]
  {
    Links(list, pos + 1);
    ghost var s := list.contents;
    var v := list.tok[num].value;
    if negate {
      v := v * -1.0;
      list.SetValue(num, pos + 1, v);
    } else {
      assert s[pos + 1 := Number(v)] == s;
    }
    list.Delete(sign, pos);
    SetThenDelete(s, pos, Number(v));
  }

  /** The brackets around the number at pos+1 are deleted (`)` first, then `(`). */
  method DropBrackets(list: TokenList, open: int, close: int, ghost pos: nat)
    requires list.Valid() && pos + 2 < |list.order|
    requires list.order[pos] == open && list.order[pos + 2] == close
    modifies list
    ensures list.Valid()
    ensures list.contents == Fold3(old(list.contents), pos, old(list.contents)[pos + 1])
    ensures list.order == old(list.order)[..pos] + [old(list.order)[pos + 1]] + old(list.order)[pos + 3..]
    ensures pos < |list.order| && list.order[..pos] == old(list.order)[..pos] && list.order[pos] == old(list.order)[pos + 1]
  {
    ghost var s, o := list.contents, list.order;
    list.Delete(close, pos + 2);
    list.Delete(open, pos);
    DeleteAround(s, pos);
    DeleteAround(o, pos);
  }

  /** The asserts of the bracket loop of `parse_tokens` (src/main.c:177-180), after the
      inside of the bracket at pos was reduced: a number follows the `(` and a `)`
      follows the number. The `)` is returned, or Nil when the check fails. */
  method ClosingBracket(list: TokenList, open: int, ghost pos: nat) returns (close: int)
    requires list.Valid() && pos < |list.order| && list.order[pos] == open
    ensures var s := list.contents;
            close != Nil <==> pos + 2 < |s| && s[pos + 1].Number? && s[pos + 2] == Operator(RightBracket)
    ensures close != Nil ==> close == list.order[pos + 2]
  {
    Links(list, pos);
    var num := list.next[open];
    if num == Nil {
      return Nil;
    }
    Links(list, pos + 1);
    if !list.tok[num].Number? {
      return Nil;
    }
    close := list.next[num];
    if close == Nil {
      return;
    }
    Links(list, pos + 2);
    if list.tok[close] != Operator(RightBracket) {
      close := Nil;
    }
  }

  /** The body of the bracket loop of `parse_tokens` (src/main.c:173-185) for the `(` at
      pos when a node follows it: the view after it is reduced by a recursive call, the
      result is checked, and the brackets around it are deleted. The bracket sweep then
      goes on after the number, which is returned. */
  method ReduceBracket(list: TokenList, open: int, ghost pos: nat, ghost nested: bool) returns (outcome: Outcome, num: int)
    requires list.Valid() && pos + 1 < |list.order| && list.order[pos] == open
    requires list.contents[pos] == Operator(LeftBracket)
    modifies list
    ensures list.Valid() && pos < |list.order| <= old(|list.order|)
    ensures list.order[..pos] == old(list.order)[..pos]
    ensures list.order[pos] == if outcome.Pass? then num else open
    ensures outcome.Pass? ==> BracketSweep(list.contents, pos + 1, nested) == BracketSweep(old(list.contents), pos, nested)
    ensures outcome.Fail? ==> BracketSweep(old(list.contents), pos, nested) == Err(outcome.error)
    decreases |list.order| - pos - 1, 2
  {
    ghost var before, o := list.contents, list.order;
    BracketStep(before, pos, nested);
    Links(list, pos);
    outcome := ParseTokens(list, list.next[open], pos + 1, true);
    KeptPrefix(o, list.order, pos + 1, pos);
    if outcome.Fail? {
      return outcome, Nil;
    }
    var close := ClosingBracket(list, open, pos);
    if close == Nil {
      return Fail(MissingBracketResult), Nil;
    }
    Links(list, pos);
    num := list.next[open];
    ghost var o1 := list.order;
    DropBrackets(list, open, close, pos);
    KeptPrefix(o1, list.order, pos, pos);
  }

  /** The bracket loop of `parse_tokens` (src/main.c:166-187). */
  method BracketPass(list: TokenList, viewFirst: int, ghost lo: nat, nested: bool) returns (outcome: Outcome, first: int)
    requires list.Valid() && lo <= |list.order| && viewFirst == NodeAt(list.order, lo)
    modifies list
    ensures list.Valid() && lo <= |list.order| <= old(|list.order|)
    ensures list.order[..lo] == old(list.order)[..lo]
    ensures first == NodeAt(list.order, lo)
    ensures BracketSweep(old(list.contents), lo, nested) == Reported(outcome, list.contents)
    decreases |list.order| - lo, 0
  {
    var cur := viewFirst;
    first := viewFirst;
    ghost var pos := lo;
    while true
      invariant list.Valid() && lo <= pos <= |list.order| <= old(|list.order|)
      invariant cur == NodeAt(list.order, pos) && first == NodeAt(list.order, lo)
      invariant list.order[..lo] == old(list.order)[..lo]
      invariant BracketSweep(list.contents, pos, nested) == BracketSweep(old(list.contents), lo, nested)
      decreases |list.order| - pos
    {
      if cur == Nil {
        if nested {
          return Fail(UnclosedBracket), first;
        }
        break;
      }
      Links(list, pos);
      if list.tok[cur] == Operator(RightBracket) {
        if nested {
          break;
        }
        return Fail(UnexpectedRightBracket), first;
      }
      if list.tok[cur] == Operator(LeftBracket) {
        var inner := list.next[cur];
        if inner == Nil {
          return Fail(RightBracketExpected), first;
        }
        ghost var o := list.order;
        SameNode(list, lo, pos);
        var result, num := ReduceBracket(list, cur, pos, nested);
        KeptPrefix(o, list.order, pos, lo);
        if result.Fail? {
          return result, first;
        }
        if first == cur {
          first := num;
        }
        Links(list, pos);
        cur := list.next[num];
        pos := pos + 1;
      } else {
        BracketSkipStep(list.contents, pos, nested);
        cur := list.next[cur];
        pos := pos + 1;
      }
    }
    outcome := Pass;
  }

  /** The test of the prefix-sign loop of `parse_tokens` (src/main.c:194-203): the node
      at pos is a `+` or `-` that has no number before it and a number after it. */
  method SignAt(list: TokenList, cur: int, ghost pos: nat) returns (b: bool)
    requires list.Valid() && pos < |list.order| && list.order[pos] == cur
    ensures b == IsPrefixSign(list.contents, pos)
  {
    Links(list, pos);
    var t := list.tok[cur];
    b := false;
    if t == Operator(Plus) || t == Operator(Minus) {
      var before := list.prev[cur];
      if pos > 0 {
        Links(list, pos - 1);
      }
      if before == Nil || !list.tok[before].Number? {
        var after := list.next[cur];
        if after != Nil {
          Links(list, pos + 1);
          b := list.tok[after].Number?;
        }
      }
    }
  }

  /** The sign fold of the prefix-sign loop (src/main.c:204-207) at pos: the sweep from
      pos is unchanged by it. */
  method FoldSign(list: TokenList, sign: int, ghost pos: nat, ghost nested: bool, negate: bool) returns (num: int)
    requires list.Valid() && pos < |list.order| && list.order[pos] == sign
    requires IsPrefixSign(list.contents, pos) && negate == (list.contents[pos] == Operator(Minus))
    modifies list
    ensures list.Valid() && pos < |list.order| == old(|list.order|) - 1
    ensures list.order[..pos] == old(list.order)[..pos] && num == list.order[pos] == old(list.order)[pos + 1]
    ensures PrefixSweep(list.contents, pos, nested) == PrefixSweep(old(list.contents), pos, nested)
  {
    Links(list, pos);
    num := list.next[sign];
    ghost var o, c := list.order, list.contents;
    Links(list, pos + 1);
    PrefixFoldStep(c, pos, nested);
    DropSign(list, sign, num, pos, negate);
    DeleteOne(o, pos);
  }

  /** The prefix-sign loop of `parse_tokens` (src/main.c:192-211). After deleting the sign the walk goes on
      from the node that followed it. */
  method PrefixPass(list: TokenList, viewFirst: int, ghost lo: nat, nested: bool) returns (outcome: Outcome, first: int)
    requires list.Valid() && lo <= |list.order| && viewFirst == NodeAt(list.order, lo)
    modifies list
    ensures list.Valid() && lo <= |list.order| <= old(|list.order|)
    ensures list.order[..lo] == old(list.order)[..lo]
    ensures first == NodeAt(list.order, lo)
    ensures PrefixSweep(old(list.contents), lo, nested) == Reported(outcome, list.contents)
  {
    var cur := viewFirst;
    first := viewFirst;
    ghost var pos := lo;
    while true
      invariant list.Valid() && lo <= pos <= |list.order| <= old(|list.order|)
      invariant cur == NodeAt(list.order, pos) && first == NodeAt(list.order, lo)
      invariant list.order[..lo] == old(list.order)[..lo]
      invariant PrefixSweep(list.contents, pos, nested) == PrefixSweep(old(list.contents), lo, nested)
      decreases |list.order| - pos
    {
      if cur == Nil {
        if nested {
          return Fail(UnclosedBracket), first;
        }
        break;
      }
      Links(list, pos);
      var t := list.tok[cur];
      if t == Operator(RightBracket) {
        if nested {
          break;
        }
        return Fail(UnexpectedRightBracket), first;
      }
      var sign := SignAt(list, cur, pos);
      if sign {
        ghost var o := list.order;
        SameNode(list, lo, pos);
        var after := FoldSign(list, cur, pos, nested, t == Operator(Minus));
        KeptPrefix(o, list.order, pos, lo);
        if first == cur {
          first := after;
        }
        cur := after;
        continue;
      }
      PrefixSkipStep(list.contents, pos, nested);
      cur := list.next[cur];
      pos := pos + 1;
    }
    outcome := Pass;
  }

  /** The test of `TOKEN_CONTINUE_IF_NOT_INFIX` (src/main.c:138-145): the node at pos is
      a number followed by an operator of the level. */
  method InfixAt(list: TokenList, cur: int, ghost pos: nat, level: Level) returns (b: bool)
    requires list.Valid() && pos < |list.order| && list.order[pos] == cur
    ensures b == IsInfix(list.contents, pos, level)
  {
    Links(list, pos);
    b := false;
    if list.tok[cur].Number? {
      var opNode := list.next[cur];
      if opNode != Nil {
        Links(list, pos + 1);
        var u := list.tok[opNode];
        b := u.Operator? && InLevel(u.op, level);
      }
    }
  }

  /** One infix loop of `parse_tokens` (src/main.c:214-224 at the multiplicative level,
      src/main.c:227-237 at the additive level). After a fold the cursor stays on the
      number it produced. */
  method InfixPass(list: TokenList, viewFirst: int, ghost lo: nat, nested: bool, level: Level) returns (outcome: Outcome, first: int)
    requires list.Valid() && lo <= |list.order| && viewFirst == NodeAt(list.order, lo)
    modifies list
    ensures list.Valid() && lo <= |list.order| <= old(|list.order|)
    ensures list.order[..lo] == old(list.order)[..lo]
    ensures first == NodeAt(list.order, lo)
    ensures InfixSweep(old(list.contents), lo, nested, level) == Reported(outcome, list.contents)
  {
    var cur := viewFirst;
    first := viewFirst;
    ghost var pos := lo;
    while true
      invariant list.Valid() && lo <= pos <= |list.order| <= old(|list.order|)
      invariant cur == NodeAt(list.order, pos) && first == NodeAt(list.order, lo)
      invariant list.order[..lo] == old(list.order)[..lo]
      invariant InfixSweep(list.contents, pos, nested, level) == InfixSweep(old(list.contents), lo, nested, level)
      decreases |list.order| - pos
    {
      if cur == Nil {
        if nested {
          return Fail(UnclosedBracket), first;
        }
        break;
      }
      Links(list, pos);
      var t := list.tok[cur];
      if t == Operator(RightBracket) {
        if nested {
          break;
        }
        return Fail(UnexpectedRightBracket), first;
      }
      var infix := InfixAt(list, cur, pos, level);
      if infix {
        Links(list, pos + 1);
        var opNode := list.next[cur];
        var op := list.tok[opNode].op;
        var rhs := list.next[opNode];
        if rhs == Nil {
          return Fail(InvalidInfixRhs), first;
        }
        Links(list, pos + 2);
        if !list.tok[rhs].Number? {
          return Fail(InvalidInfixRhs), first;
        }
        var r := Combine(op, t.value, list.tok[rhs].value);
        if r.Err? {
          return Fail(r.error), first;
        }
        ghost var o := list.order;
        InfixFoldStep(list.contents, pos, nested, level, r.value);
        FoldInfix(list, cur, opNode, rhs, pos, r.value);
        KeptPrefix(o, list.order, pos + 1, lo);
        KeptPrefix(o, list.order, pos + 1, pos);
        continue;
      }
      InfixSkipStep(list.contents, pos, nested, level);
      cur := list.next[cur];
      pos := pos + 1;
    }
    outcome := Pass;
  }

  /** `parse_tokens`: the four passes over the view that starts at `viewFirst`. */
  method ParseTokens(list: TokenList, viewFirst: int, ghost lo: nat, nested: bool) returns (outcome: Outcome)
    requires list.Valid() && lo <= |list.order| && viewFirst == NodeAt(list.order, lo)
    modifies list
    ensures list.Valid() && lo <= |list.order| <= old(|list.order|)
    ensures list.order[..lo] == old(list.order)[..lo]
    ensures Reduce(old(list.contents), lo, nested) == Reported(outcome, list.contents)
    decreases |list.order| - lo, 1
  {
    var first;
    outcome, first := BracketPass(list, viewFirst, lo, nested);
    if outcome.Fail? {
      return;
    }
    outcome, first := PrefixPass(list, first, lo, nested);
    if outcome.Fail? {
      return;
    }
    outcome, first := InfixPass(list, first, lo, nested, Multiplicative);
    if outcome.Fail? {
      return;
    }
    outcome, first := InfixPass(list, first, lo, nested, Additive);
  }

  /** A list that is empty or a single number is left as it is by the reducer. */
  lemma ReduceLone(ts: seq<Token>)
    ensures ts == [] || (|ts| == 1 && ts[0].Number?) ==> Reduce(ts, 0, false) == Ok(ts)
  {
    if |ts| == 1 && ts[0].Number? {
      BracketSkipStep(ts, 0, false);
      PrefixSkipStep(ts, 0, false);
      InfixSkipStep(ts, 0, false, Multiplicative);
      InfixSkipStep(ts, 0, false, Additive);
    }
  }

  /** What the program prints for an input: the tokens of its first line, reduced
      at the top level, must come down to a single number. A line without operator
      characters is answered with its digits read in decimal, or, with no digit, fails
      the final check. */
  function Evaluate(input: string): (r: Result<real>)
    ensures LastOpIndex(Line(input)).None? ==>
              r == if Digits(Line(input)) == [] then Err(NotSingleNumber)
                   else Ok(Decimal(Digits(Line(input))))
  {
    ScannedIsLex(Line(input));
    ReduceLone(Tokenize(input));
    Finish(Reduce(Tokenize(input), 0, false))
  }

  /** `main` after the terminal set-up: read, parse, check the final list. */
  method Calculate(input: string) returns (r: Result<real>)
    ensures r == Evaluate(input)
  {
    var list := ReadTokens(input);
    var outcome := ParseTokens(list, list.first, 0, false);
    if outcome.Fail? {
      return Err(outcome.error);
    }
    SingleNode(list);
    if |list.order| > 0 {
      Links(list, 0);
    }
    if list.first != Nil && list.first == list.last && list.tok[list.first].Number? {
      r := Ok(list.tok[list.first].value);
    } else {
      if |list.order| == 1 {
        Links(list, 0);
      }
      r := Err(NotSingleNumber);
    }
  }
}
