# A verified model of a terminal calculator

The calculator reads one line of characters. Digits and the six operator characters
`( ) + - * /` become a doubly-linked list of tokens. Every other character is ignored.
`parse_tokens` then reduces the list in place with four cursor sweeps:

- brackets are reduced first, each by a recursive call on the view of the list that starts
  after the `(`;
- prefix signs are folded into the number after them;
- `*` and `/` are folded;
- finally `+` and `-` are folded.

The program prints the single number that is left, or stops with one of its syntax errors.

The model has these parts:

- `tokens.dfy` holds the token and error types, `op_get_from_chr` and the arithmetic of a fold.
- `token_list.dfy` holds the linked list. It is a class over an arena of nodes (`tok`, `next`,
  `prev`, `first`, `last`). A ghost `order`/`contents` pair gives the token sequence the links
  spell out. `token_append` and `token_delete` are methods on it.
- `tokenizer.dfy` holds the `switch` of `main`:
  - as a function of the characters read (`Scan`, `Scanned`, `Tokenize`);
  - as the imperative loop over the list (`ReadChar`, `ReadTokens`);
  - as an independent reading of a line as runs of digits separated by operators (`Lex`).
- `reduction.dfy` holds `parse_tokens` as functions on the token sequence:
  - one sweep function per pass (`BracketSweep`, `PrefixSweep`, `InfixSweep`);
  - the bracket sweep recursing through `Reduce` on the view that starts after a `(`;
  - the check of the final list (`Finish`).
- `parser.dfy` holds `parse_tokens` itself: four loops over the linked list that delete
  nodes mid-walk. Each loop is proved to compute its sweep function, and the whole method
  computes `Reduce`. `Calculate` is `main` without the terminal.
- `grammar.dfy` holds an independent meaning for the inputs the reducer accepts: expressions
  built from sums, products, signs and brackets, with their ordinary arithmetic value. It
  also gives the expression left after each sweep.
- `evaluation.dfy` proves that each sweep turns the tokens of an expression into the tokens
  of the next stage. Hence `parse_tokens` on the tokens of any expression yields its value:
  `*`/`/` bind tighter than `+`/`-`, both group from the left, and a zero divisor gives an
  error.
- `notation.dfy` writes an expression as text and proves that the tokenizer reads that text
  back as the expression's tokens. So the calculator answers the text of any expression with
  its value.
- `scenarios.dfy` has worked lines: one for each error the program reports, and lines whose
  answer shows the precedence, the left grouping and a sign before a bracket.

Numbers are mathematical reals. Division by a zero divisor is an error result
(`DivisionByZero`).

## Model

| member | source | states |
|---|---|---|
| Tokens.OpOfChar | src/main.c:79-95 | each of the six operator characters maps to the operator written with it: the character of the result is the input character |
| Tokens.OpOfCharOfOp | src/main.c:79-95 | reading an operator's character back gives the same operator, so the map is a bijection between the six characters and the six operators |
| Tokens.Combine | src/main.c:218-235 | a fold fails exactly for `/` with a zero right operand, and then with DivisionByZero; a quotient times the divisor is the dividend, a difference plus the subtrahend is the minuend |
| TokenLists.TokenList.constructor | src/main.c:241 | the new list is empty with null `first` and `last` and satisfies the list invariant |
| TokenLists.TokenList.Append | src/main.c:37-56 | the token sequence gains the new token at its end; `last` is the new node with null `next` and `prev` the old last; `first` is unchanged unless the list was empty, in which case it is the new node; the invariant is kept |
| TokenLists.TokenList.Delete | src/main.c:58-76 | the node leaves the list: the token sequence and node order lose exactly that position and keep the others in order; the invariant, which pins `first`, `last` and every `next`/`prev` link to the order, is kept |
| TokenLists.TokenList.SetValue | src/main.c:268-270 | storing a number in a node changes exactly that position of the token sequence and no link |
| TokenLists.Links | src/main.c:14-23 | following a node's `next`/`prev` leads to the nodes at the next and previous positions, and the node holds the token at its position |
| TokenLists.SingleNode | src/main.c:298 | `first == last` with a non-null `first` holds exactly when the list has one token |
| Tokenizer.DigitValue | src/main.c:267 | a digit character denotes a value from 0 to 9 |
| Tokenizer.Scan | src/main.c:255-290 | a digit extends a trailing number or appends a new number, changing nothing before it; an operator character appends exactly one operator token; any other character changes nothing |
| Tokenizer.Line | src/main.c:254 | the characters read are a prefix of the input without newlines, ending at the first newline or at the end of the input |
| Tokenizer.Scanned | src/main.c:254-290 | the loop's tokens after reading a text: its contract states only that there are never more tokens than characters read; what they are is proved by `ScannedIsLex` |
| Tokenizer.Tokenize | src/main.c:254-290 | the tokens of the line handed to the parser never hold two numbers in a row; `ScannedIsLex` proves they are the runs-and-operators reading of the line, and `Notation.ScannedExpr` that the text of an expression is read as its tokens |
| Tokenizer.LineIsPrefix | src/main.c:254 | any newline-free prefix followed by a newline or the end of the input is the line read |
| Tokenizer.ScanRun | src/main.c:256-278 | a character other than an operator only extends the number of the current run, so skipped characters do not split a digit run |
| Tokenizer.LexSnocOp | src/main.c:279-289 | an operator character closes the current run and adds one operator token |
| Tokenizer.LexSnocOther | src/main.c:256-278 | a digit or skipped character read after a line gives the same tokens as one step of the loop on that line's tokens |
| Tokenizer.ScannedIsLex | src/main.c:254-290 | the loop builds exactly the runs-and-operators reading of the line: each operator-free run with digits gives one number, its digits read in decimal |
| Tokenizer.ScannedNoAdjacentNumbers | src/main.c:268-276 | the token list never holds two numbers in a row |
| Tokenizer.ReadChar | src/main.c:255-290 | one pass of the `switch` on the linked list leaves it holding `Scan` of its old tokens |
| Tokenizer.ReadTokens | src/main.c:253-292 | the read loop leaves a fresh valid list holding the tokens of the line |
| Reduction.StopResult | src/main.c:105-121 | a sweep stops at the end of its view or at a `)`: the end of the list inside a bracket is UnclosedBracket, a `)` at the top level is UnexpectedRightBracket, and otherwise the sweep succeeds with the list as it is |
| Reduction.BracketSweep | src/main.c:166-187 | the bracket loop from cursor `i`: its contract states only that a result never has more tokens than the input nor fewer than `i`; its meaning is proved by `Parser.BracketPass` against the linked list and by `Evaluation.BracketsExpr` against the grammar |
| Reduction.PrefixSweep | src/main.c:192-211 | the prefix-sign loop from cursor `i`: its contract states only the same length bounds; its meaning is proved by `Parser.PrefixPass` against the linked list and by `Evaluation.PrefixExpr` against the grammar |
| Reduction.SignOrOperator | src/main.c:194-203 | the test `IsPrefixSign` of the prefix-sign loop and the test `IsInfix` of the additive loop split the `+`/`-` before a number between them: such an operator is a sign exactly when the token before it does not start an additive application (both tests are also pinned to the linked list by `Parser.SignAt` and `Parser.InfixAt`) |
| Reduction.InLevel | src/main.c:134-145 | the operators each infix loop tests for (`TOK_CHECK_CONDITION(TIMES, DIVIDE)`, `TOK_CHECK_CONDITION(PLUS, MINUS)`) are arithmetic ones, so every fold an infix loop attempts has a value or the division-by-zero error |
| Reduction.InfixSweep | src/main.c:214-237 | an infix loop from cursor `i` at one level: its contract states only the same length bounds; its meaning is proved by `Parser.InfixPass` against the linked list and by `Evaluation.MulExpr` and `Evaluation.AddExpr` against the grammar |
| Reduction.Reduce | src/main.c:159-238 | the four sweeps in turn on the view that starts at `lo`, the first error ending the run; parsing only deletes tokens, so a result never has more tokens than the input, and it is never shorter than the `lo` positions before the view; `ReduceKept` proves the tokens before the view are left as they were |
| Reduction.PrefixKept | src/main.c:192-211 | the prefix loop rewrites only tokens from its cursor on: every token before the cursor is kept |
| Reduction.InfixKept | src/main.c:214-237 | an infix loop rewrites only tokens from its cursor on: every token before the cursor is kept |
| Reduction.BracketKept | src/main.c:166-187 | the bracket loop, including the recursive call on the view after a `(`, keeps every token before its cursor |
| Reduction.ReduceKept | src/main.c:159-238 | reducing the view that starts at `lo` leaves every token before `lo` as it was, whatever the input |
| Reduction.Finish | src/main.c:298 | the answer is the value of the one token left exactly when a single number is left; otherwise NotSingleNumber, and an earlier error is passed on |
| Parser.FoldInfix | src/main.c:154-157 | storing the value and deleting the operator and right operand leaves the list holding the folded sequence |
| Parser.DropSign | src/main.c:204-207 | negating the number exactly for `-` and deleting the sign removes that position and leaves the number, signed, in its place |
| Parser.DropBrackets | src/main.c:181-185 | deleting `)` and then `(` leaves the number in the place of the bracket and keeps every node before it |
| Parser.ClosingBracket | src/main.c:177-180 | the node after `(` is found to be a number followed by `)` exactly when the reduced inside has that shape; otherwise the result is null |
| Parser.ReduceBracket | src/main.c:173-185 | reducing the view after `(` and deleting the brackets does what the `(` branch of `BracketSweep` does: the same error, or a list from which the sweep gives the same result one position on |
| Parser.BracketPass | src/main.c:166-187 | the bracket loop on the linked list computes `BracketSweep` from the start of its view, errors included, and keeps every node before the view |
| Parser.SignAt | src/main.c:194-203 | the loop's test is true exactly at a prefix sign |
| Parser.FoldSign | src/main.c:204-207 | folding a sign leaves a list on which the prefix sweep gives the same result |
| Parser.PrefixPass | src/main.c:192-211 | the prefix loop computes `PrefixSweep` from the start of its view |
| Parser.InfixAt | src/main.c:138-145 | the loop's test is true exactly at a number followed by an operator of the level |
| Parser.InfixPass | src/main.c:214-237 | each infix loop computes `InfixSweep` at its level, errors included |
| Parser.ParseTokens | src/main.c:159-238 | `parse_tokens` on the view starting at `lo` computes `Reduce` on the old tokens: the same error, or a list holding the same tokens |
| Parser.Evaluate | src/main.c:253-298 | the answer to an input: a line without operator characters is answered with its digits read in decimal, or fails the final check when it has no digit (the empty line included); `Notation.CalculatorAnswers` gives the answer for the text of every expression and `Parser.Calculate` ties the program to this function |
| Parser.Calculate | src/main.c:253-298 | reading the line, parsing it and checking the final list gives exactly `Evaluate` of the input |
| Grammar.Unbracket | src/main.c:166-187 | the expression after the bracket sweep has only numbers as atoms and the same value, or is missing only when the original divides by zero |
| Grammar.Unsign | src/main.c:192-211 | the expression after the prefix sweep has no signs and the same value |
| Grammar.Multiply | src/main.c:214-224 | the expression after the `*`/`/` sweep is a sum of single numbers with the same value, or is missing only when the original divides by zero |
| Grammar.FlatDefined | src/main.c:227-237 | a sum of single numbers always has a value |
| Evaluation.CombineScale | src/main.c:218-222 | the multiplicative fold computes the product or quotient of the grammar, with a zero divisor as the error |
| Evaluation.BracketEnclosed | src/main.c:173-185 | a bracket whose inside reduces to a number, or to the division-by-zero error, is replaced by that number or gives that error |
| Evaluation.PrefixSign | src/main.c:200-208 | a signed number written after a non-number becomes the number with the sign applied |
| Evaluation.InfixFold | src/main.c:218-235 | `a op b` written at the cursor is folded into `Combine(op, a, b)`, or gives its error |
| Evaluation.BracketsExpr | src/main.c:166-187 | on the tokens of any expression the bracket sweep produces the tokens of the expression with every bracket replaced by its value, and stops after them |
| Evaluation.PrefixExpr | src/main.c:192-211 | on the tokens of an expression without brackets the prefix sweep produces the tokens of the unsigned expression |
| Evaluation.MulExpr | src/main.c:214-224 | on the tokens of an expression of unsigned numbers the `*`/`/` sweep produces the tokens of its terms' values, grouping each term from the left, or the division-by-zero error |
| Evaluation.AddExpr | src/main.c:227-237 | on a sum of single numbers the `+`/`-` sweep produces the one number that is its value, grouped from the left |
| Evaluation.ReduceRender | src/main.c:159-238 | `parse_tokens` on the tokens of any expression, at any bracket depth, leaves exactly the one number that is the expression's value in place of those tokens, or reports division by zero |
| Notation.ScannedSplit | src/main.c:279-289 | an operator character splits the text: the tokens of the text are the tokens of each side with the operator between them |
| Notation.ScannedNumeral | src/main.c:268-275 | the decimal numeral of a natural number is read as one number with that value |
| Notation.ScannedExpr | src/main.c:254-290 | the text of an expression with natural-number literals, the only numbers the tokenizer makes, is read as exactly that expression's tokens |
| Notation.CalculatorAnswers | src/main.c:253-299 | the calculator answers the text of any expression, followed by a newline and anything else, with that expression's value, or with the division-by-zero error |
| Scenarios.UnexpectedClose | src/main.c:112-119 | the line `)` gives UnexpectedRightBracket |
| Scenarios.LoneOpen | src/main.c:169-172 | the line `(` gives RightBracketExpected |
| Scenarios.Unclosed | src/main.c:106-110 | the line `(2` gives UnclosedBracket |
| Scenarios.MissingRhs | src/main.c:149-152 | the line `2+` gives InvalidInfixRhs |
| Scenarios.EmptyBrackets | src/main.c:177-180 | the line `()` fails the check that a bracket reduced to a number |
| Scenarios.DoubleSign | src/main.c:298 | the line `--4` leaves a sign and a number, which fails the final check |
| Scenarios.ZeroDivisor | src/main.c:221 | the line `1/0` gives the division-by-zero error |
| Scenarios.ZeroDivisorFirst | src/main.c:218-224 | `1/0*` is answered with the division-by-zero error of its first fold; the program stores an infinity there and goes on to report the missing right operand of `*`, a departure recorded under "Left out" |
| Scenarios.Precedence | src/main.c:213-237 | `2+3*4` is answered with 14 |
| Scenarios.LeftToRight | src/main.c:100-103 | `8/4/2` is answered with 1, so the re-examined cursor groups a chain from the left |
| Scenarios.SignedBracket | src/main.c:166-211 | `-(2+3)*4` is answered with -20 |

## Left out

- The terminal set-up and restore (`tcgetattr`/`tcsetattr`), the echo through `putchar` and
  `fflush`, and the final `printf` are I/O. The model is given the input as a string and
  returns the answer or the error.
- Tokens.Combine: numbers are reals, not IEEE doubles. Rounding is not modelled. A division by
  zero, which gives an infinity or NaN in the program, is the error DivisionByZero. The model stops
  at that fold, so the zero-divisor error overrides any error the program would report
  later, when it goes on sweeping with the infinity or NaN stored. For `1/0*` the program
  reports an invalid right operand, for `(1/0))` an unexpected `)`, and for `--4/0` it fails
  the final check. The model answers all three with DivisionByZero
  (`Scenarios.ZeroDivisorFirst` proves it for `1/0*`).
- `exit(EXIT_FAILURE)` after a syntax error and the failing `assert`s at src/main.c:177-180 and src/main.c:298
  are error results (`Err`/`Fail`), not process termination.
- Tokenizer.ReadTokens: at the end of the input without a newline the program's loop never
  ends (`getchar` returns EOF, which is never `'\n'`). The model stops at the end of the input.
- Reduction.Finish: on an empty line the program dereferences a null `first` at src/main.c:298. The
  model reports NotSingleNumber.
- Parser.PrefixPass: the program reads `next_tok` of the node it has just freed (src/main.c:207, then
  the loop step at src/main.c:102). The model advances to the deleted node's successor, which is
  what that read yields when the freed memory is untouched.
- TokenLists.TokenList.Delete: `free` is not modelled. A deleted node keeps its arena slot but
  leaves the chain. `malloc` failure is not modelled either.
- Parser.ReduceBracket: the nested call works on a copy of the list header, so its view
  starts after the `(`. Deletions inside it that move `last` are not copied back, so in the
  program the outer `last` can go stale. That only happens on inputs that end in an error
  anyway, such as an unclosed bracket. The model keeps one list whose `first` and `last` are
  always right.
- The `FUNC` token kind and `enum func` are declared but never produced or consumed. They are
  not part of this model.
- The `ARGS_N`/`TOK_CHECK` macros are written directly as the test they expand to (`InLevel`).
- Notation.CalculatorAnswers: the end-to-end theorem covers expressions whose literals are
  natural numbers, the only numbers the tokenizer can produce. Inputs the grammar does not
  describe are covered by `Reduce`, `Evaluate` and the scenarios, not by a value theorem.
