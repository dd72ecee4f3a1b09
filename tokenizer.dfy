/** The input loop of `main`: characters up to the first newline become tokens. */
module Tokenizer {
  import opened Tokens
  import opened TokenLists

  predicate IsDigit(c: char)
  {
    '0' <= c <= '9'
  }

  /** The value of a digit character (`current_chr -= 48`). */
  function DigitValue(c: char): (d: real)
    requires IsDigit(c)
    ensures 0.0 <= d <= 9.0
  {
    (c as int - '0' as int) as real
  }

  /** One pass of the `switch`: a digit extends the number the list ends with, or
      starts a new one; an operator character appends an operator; anything else
      is skipped. */
  function Scan(ts: seq<Token>, c: char): (r: seq<Token>)
    ensures IsDigit(c) ==> |r| > 0 && r[|r| - 1].Number?
    ensures IsOpChar(c) ==> r == ts + [Operator(OpOfChar(c))]
    ensures !IsDigit(c) && !IsOpChar(c) ==> r == ts
    ensures IsDigit(c) ==> (|r| == |ts| || |r| == |ts| + 1) && r[..|r| - 1] == ts[..|r| - 1]
  {
    if IsDigit(c) then
      if |ts| > 0 && ts[|ts| - 1].Number? then
        ts[..|ts| - 1] + [Number(ts[|ts| - 1].value * 10.0 + DigitValue(c))]
      else
        ts + [Number(DigitValue(c))]
    else if IsOpChar(c) then
      ts + [Operator(OpOfChar(c))]
    else
      ts
  }

  /** The tokens the loop has built after reading `cs`. */
  function Scanned(cs: string): (r: seq<Token>)
    ensures |r| <= |cs|
  {
    if cs == [] then [] else Scan(Scanned(cs[..|cs| - 1]), cs[|cs| - 1])
  }

  /** The characters the loop reads: everything before the first newline. The
      input ends the line when it holds no newline. */
  function Line(input: string): (r: string)
    ensures |r| <= |input| && r == input[..|r|]
    ensures '\n' !in r
    ensures |r| < |input| ==> input[|r|] == '\n'
  {
    if input == [] || input[0] == '\n' then [] else [input[0]] + Line(input[1..])
  }

  /** The line is the longest newline-free prefix of the input. */
  lemma {:induction false} LineIsPrefix(input: string, i: nat)
    requires i <= |input| && '\n' !in input[..i]
    requires i == |input| || input[i] == '\n'
    ensures Line(input) == input[..i]
    decreases i
  {
    if i > 0 {
      assert input[0] in input[..i];
      assert input[1..][..i - 1] == input[1..i];
      assert forall c :: c in input[1..i] ==> c in input[..i];
      LineIsPrefix(input[1..], i - 1);
      assert input[..i] == [input[0]] + input[1..i];
    }
  }

  /** The token list `main` hands to the parser. It never holds two numbers in a row;
      `ScannedIsLex` shows it is the runs-and-operators reading of the line. */
  function Tokenize(input: string): (ts: seq<Token>)
    ensures forall k :: 0 <= k < |ts| - 1 ==> !(ts[k].Number? && ts[k + 1].Number?)
  {
    ScannedNoAdjacentNumbers(Line(input));
    Scanned(Line(input))
  }

  // ---------------------------------------------------------------------------
  // An independent description of the token list: the operator characters split
  // the line into runs; the digits of each run, read in decimal, give one number
  // (a run without digits gives none); every other character is ignored.

  /** The values of the digits of `cs`, in order. */
  function Digits(cs: string): (ds: seq<real>)
    ensures |ds| <= |cs|
  {
    if cs == [] then []
    else Digits(cs[..|cs| - 1]) + (if IsDigit(cs[|cs| - 1]) then [DigitValue(cs[|cs| - 1])] else [])
  }

  /** The number a sequence of digit values denotes in decimal. */
  function Decimal(ds: seq<real>): real
  {
    if ds == [] then 0.0 else Decimal(ds[..|ds| - 1]) * 10.0 + ds[|ds| - 1]
  }

  /** The number a run without operator characters contributes, if any. */
  function Run(cs: string): (r: seq<Token>)
    ensures |r| <= 1
  {
    var ds := Digits(cs);
    if ds == [] then [] else [Number(Decimal(ds))]
  }

  /** The index of the last operator character of `cs`, if there is one. */
  function LastOpIndex(cs: string): (r: Option<nat>)
    ensures r.Some? ==> r.value < |cs| && IsOpChar(cs[r.value])
  {
    if cs == [] then None
    else if IsOpChar(cs[|cs| - 1]) then Some(|cs| - 1)
    else LastOpIndex(cs[..|cs| - 1])
  }

  /** The tokens of a line: its runs, separated by its operators. */
  function Lex(cs: string): seq<Token>
    decreases |cs|
  {
    match LastOpIndex(cs)
    case None => Run(cs)
    case Some(k) => Lex(cs[..k]) + [Operator(OpOfChar(cs[k]))] + Run(cs[k + 1..])
  }

  /** Reading one more character into the last run of `cs`. */
  lemma {:induction false} LexSnoc(cs: string, c: char)
    requires !IsOpChar(c)
    ensures LastOpIndex(cs + [c]) == LastOpIndex(cs)
    ensures Digits(cs + [c]) == Digits(cs) + (if IsDigit(c) then [DigitValue(c)] else [])
  {
    assert (cs + [c])[..|cs|] == cs;
  }

  /** Reading one more digit multiplies the value read so far by ten. */
  lemma DecimalSnoc(ds: seq<real>, d: real)
    ensures Decimal(ds + [d]) == Decimal(ds) * 10.0 + d
  {
    assert (ds + [d])[..|ds|] == ds;
  }

  /** A digit read after anything but a number starts a new number. */
  lemma ScanStart(ts: seq<Token>, c: char)
    requires IsDigit(c)
    requires ts == [] || !ts[|ts| - 1].Number?
    ensures Scan(ts, c) == ts + [Number(DigitValue(c))]
  {
  }

  /** A digit read after a number extends that number. */
  lemma ScanExtend(ts: seq<Token>, v: real, c: char)
    requires IsDigit(c)
    ensures Scan(ts + [Number(v)], c) == ts + [Number(v * 10.0 + DigitValue(c))]
  {
    assert (ts + [Number(v)])[..|ts|] == ts;
  }

  /** A digit read after a run adds to that run's number, or starts one. */
  lemma RunSnocDigit(prefix: seq<Token>, cs: string, c: char)
    requires IsDigit(c)
    requires prefix == [] || !prefix[|prefix| - 1].Number?
    ensures Scan(prefix + Run(cs), c) == prefix + Run(cs + [c])
  {
    LexSnoc(cs, c);
    if Digits(cs) == [] {
      RunStart(prefix, cs, c);
    } else {
      RunExtend(prefix, cs, c);
    }
  }

  /** The first digit of a run starts its number. */
  lemma RunStart(prefix: seq<Token>, cs: string, c: char)
    requires IsDigit(c) && Digits(cs) == []
    requires Digits(cs + [c]) == [DigitValue(c)]
    requires prefix == [] || !prefix[|prefix| - 1].Number?
    ensures Scan(prefix + Run(cs), c) == prefix + Run(cs + [c])
  {
    DecimalSnoc([], DigitValue(c));
    assert [] + [DigitValue(c)] == [DigitValue(c)];
    assert prefix + Run(cs) == prefix;
    ScanStart(prefix, c);
  }

  /** A later digit of a run extends its number. */
  lemma RunExtend(prefix: seq<Token>, cs: string, c: char)
    requires IsDigit(c) && Digits(cs) != []
    requires Digits(cs + [c]) == Digits(cs) + [DigitValue(c)]
    ensures Scan(prefix + Run(cs), c) == prefix + Run(cs + [c])
  {
    DecimalSnoc(Digits(cs), DigitValue(c));
    ScanExtend(prefix, Decimal(Digits(cs)), c);
  }

  /** A character that is neither a digit nor an operator changes nothing. */
  lemma RunSnocOther(cs: string, c: char)
    requires !IsDigit(c) && !IsOpChar(c)
    ensures Run(cs + [c]) == Run(cs)
  {
    LexSnoc(cs, c);
    assert Digits(cs + [c]) == Digits(cs);
  }

  /** A character other than an operator extends the run the tokens end with. */
  lemma ScanRun(prefix: seq<Token>, cs: string, c: char)
    requires !IsOpChar(c)
    requires prefix == [] || !prefix[|prefix| - 1].Number?
    ensures Scan(prefix + Run(cs), c) == prefix + Run(cs + [c])
  {
    if IsDigit(c) {
      RunSnocDigit(prefix, cs, c);
    } else {
      RunSnocOther(cs, c);
    }
  }

  /** Reading an operator character closes the last run and appends the operator. */
  lemma LexSnocOp(cs: string, c: char)
    requires IsOpChar(c)
    ensures Lex(cs + [c]) == Lex(cs) + [Operator(OpOfChar(c))]
  {
    var cs' := cs + [c];
    assert LastOpIndex(cs') == Some(|cs|);
    assert cs'[..|cs|] == cs;
    assert cs'[|cs| + 1..] == [];
  }

  /** Reading any other character extends the last run. */
  lemma LexSnocOther(cs: string, c: char)
    requires !IsOpChar(c)
    ensures Lex(cs + [c]) == Scan(Lex(cs), c)
  {
    LexSnoc(cs, c);
    if LastOpIndex(cs).None? {
      ScanRun([], cs, c);
      assert [] + Run(cs) == Run(cs) && [] + Run(cs + [c]) == Run(cs + [c]);
    } else {
      LexSnocAfterOp(cs, LastOpIndex(cs).value, c);
    }
  }

  /** A character other than an operator, read after the last operator of `cs`. */
  lemma LexSnocAfterOp(cs: string, k: nat, c: char)
    requires !IsOpChar(c) && LastOpIndex(cs) == Some(k) && LastOpIndex(cs + [c]) == Some(k)
    ensures Lex(cs + [c]) == Scan(Lex(cs), c)
  {
    SnocSlices(cs, k, c);
    LexAt(cs, k);
    LexAt(cs + [c], k);
    ScanRun(Lex(cs[..k]) + [Operator(OpOfChar(cs[k]))], cs[k + 1..], c);
  }

  /** Lex unfolded at the last operator. */
  lemma LexAt(cs: string, k: nat)
    requires LastOpIndex(cs) == Some(k)
    ensures Lex(cs) == Lex(cs[..k]) + [Operator(OpOfChar(cs[k]))] + Run(cs[k + 1..])
  {
  }

  /** The slices around position k are unchanged by appending, except the last one. */
  lemma SnocSlices<T>(s: seq<T>, k: nat, x: T)
    requires k < |s|
    ensures (s + [x])[..k] == s[..k] && (s + [x])[k] == s[k] && (s + [x])[k + 1..] == s[k + 1..] + [x]
  {
  }

  /** The loop builds exactly the runs-and-operators reading of the line. */
  lemma {:induction false} ScannedIsLex(cs: string)
    ensures Scanned(cs) == Lex(cs)
    decreases |cs|
  {
    if cs != [] {
      var init, c := cs[..|cs| - 1], cs[|cs| - 1];
      assert cs == init + [c];
      ScannedIsLex(init);
      if IsOpChar(c) {
        LexSnocOp(init, c);
      } else {
        LexSnocOther(init, c);
      }
    }
  }

  /** No two numbers are ever adjacent in the token list. */
  lemma {:induction false} ScannedNoAdjacentNumbers(cs: string)
    ensures forall k :: 0 <= k < |Scanned(cs)| - 1 ==> !(Scanned(cs)[k].Number? && Scanned(cs)[k + 1].Number?)
    decreases |cs|
  {
    if cs != [] {
      ScannedNoAdjacentNumbers(cs[..|cs| - 1]);
    }
  }

  /** The body of the `switch` for one character `c`. */
  method ReadChar(list: TokenList, c: char)
    requires list.Valid()
    modifies list
    ensures list.Valid()
    ensures list.contents == Scan(old(list.contents), c)
    ensures list.first == NodeAt(list.order, 0)
  {
    if IsDigit(c) {
      var d := DigitValue(c);
      var p := |list.order| - 1;
      if p >= 0 {
        Links(list, p);
      }
      if list.last != Nil && list.tok[list.last].Number? {
        list.SetValue(list.last, p, list.tok[list.last].value * 10.0 + d);
        assert list.contents == old(list.contents)[..p] + [Number(old(list.contents)[p].value * 10.0 + d)];
      } else {
        list.Append(Number(d));
      }
    } else if IsOpChar(c) {
      list.Append(Operator(OpOfChar(c)));
    }
  }

  /** The input loop: reads characters until a newline (or the end of the input)
      and builds the token list with `token_append` and in-place digit accumulation. */
  method ReadTokens(input: string) returns (list: TokenList)
    ensures fresh(list) && list.Valid()
    ensures list.contents == Tokenize(input)
    ensures list.first == NodeAt(list.order, 0)
  {
    list := new TokenList();
    var i := 0;
    while i < |input| && input[i] != '\n'
      invariant i <= |input| && '\n' !in input[..i]
      invariant list.Valid()
      invariant list.contents == Scanned(input[..i])
      invariant list.first == NodeAt(list.order, 0)
      invariant fresh(list)
    {
      assert input[..i + 1][..i] == input[..i];
      assert Scanned(input[..i + 1]) == Scan(Scanned(input[..i]), input[i]);
      ReadChar(list, input[i]);
      i := i + 1;
    }
    LineIsPrefix(input, i);
  }
}
