# Calculator expression engine

This is a Dafny model of the expression engine behind the scientific calculator in `script.js`. The engine takes the text on the display through these stages:

- removes whitespace;
- checks the text against a character whitelist;
- handles a whole-input `nPr(a,b)` / `nCr(a,b)` call on its own, by evaluating both arguments recursively;
- otherwise tokenizes the text (`tokenize`), converts the tokens to reverse Polish notation with a shunting-yard loop (`toRPN`), and evaluates them on a value stack (`evalRPN`).

The `=` handler then accepts only a finite number as the answer.

Modules follow the program's parts:

- `Operators` (operators.dfy): the operator table: precedence, associativity, arity, and the converter's flush test.
- `Host` (host.dfy): JavaScript numbers (`Finite(real)`, `NaN`, the infinities); the values the stacks hold (numbers, `name` token objects, `undefined`, the `''` of blank input); one error per thrown message; and `Env`. `Env` bundles everything the engine reads from outside:
  - the double arithmetic;
  - the `Math` functions;
  - `parseFloat`;
  - `Math.PI` and `Math.E`;
  - the degree toggle;
  - `Ans`.
- `Library` (library.dfy): the function and constant tables, with the degree conversion of `trig` / `invtrig`.
- `Combinatorics` (combinatorics.dfy): `fact`, `nPr` and `nCr`. They are exact over `nat`, and the `…Of` functions add the checks the code makes on its JavaScript arguments.
- `Lexer` (lexer.dfy): `tokenize`. `Tokenize` is the imperative loop and `Lex` / `LexFrom` its specification.
- `Shunting` (shunting.dfy): `toRPN`. `ToRPN` is the loop with `out`, `stack` and `prev`, and `Shunt` / `ShuntFrom` / `ShuntStep` is its specification. `BracketCheck` is an independent bracket counter that its errors are proved against.
- `Evaluator` (evaluator.dfy): `evalRPN`. `EvalRPN` is the loop over the value stack `st`, and `Eval` / `Run` / `Step` its specification. `Resolve` is the final `st.map`.
- `Expression` (expression.dfy): `evaluateExpression`. It is a recursive function, `EvaluateExpression`, with `EvaluateHandled` for the stripped text; `Evaluate` is the same computation through the imperative stages. `Equals` is the finiteness check of the `=` handler.
- `Strings` (strings.dfy): the string panel's `strLen` and `reverseStr`.

The model keeps some behaviours of the code exactly as written:

- **A `close` marker drops the item beneath the value.** Only a name beneath the value is used, as the function to call (or the call throws); any other item there is lost. So `2*(3)` multiplies NaN by 3, and the `=` handler reports a non-finite result (`ParenthesisAfterProduct`).
- **A missing operand is not an error.** It is `undefined`, which becomes NaN (`MissingOperandIsNaN`).
- **`()` evaluates to `undefined`** (`EmptyParentheses`).
- **A `-` is unary** at the start, or after an operator token other than `)` and `!`. It is binary after a number, a name, `)` or `!`.

The converter's output is a sequence of `RpnItem`: numbers, names, operators and `close`. So that output holds no `(`, `)` or `,` by construction.

## Model

| member | source | states |
|---|---|---|
| Operators.Arity | script.js:72-79 | the `args` column: exactly the operators ranked above `^` (`u-` and `!`) take one operand, the rest two |
| Operators.IsPostfix | script.js:72-79 | the `postfix` column: only the rank-6 operator `!` is postfix, and it takes one operand |
| Operators.Precedence | script.js:72-79 | the `prec` column: `+ -` at 2, `* / %` at 3, `^` at 4, `u-` at 5, `!` at 6, each level holding exactly those operators |
| Operators.LeftAssociative | script.js:72-79 | the `assoc` column: the right-associative operators are exactly those of levels 4 and 5 (`^`, `u-`) |
| Operators.FlushesBefore | script.js:158-172 | a stack operator is flushed only if it binds at least as tightly as the incoming one, never if it binds less tightly, and an operator flushes its own kind exactly when it is left-associative |
| Operators.BinaryOperator | script.js:72-77 | each of `+ - * / % ^` is a binary, non-postfix entry of the table, with its row's precedence (`+ -` 2, `* / %` 3, `^` 4) and associativity (only `^` to the right) |
| Operators.GroupingRules | script.js:71-80 | at equal precedence an operator is flushed exactly when the incoming one is left-associative (not `^`, not `u-`); `!` outranks every other operator, `u-` outranks `^`, `^` outranks `*`, `*` outranks `+` |
| Host.Negate | script.js:78 | unary minus keeps finiteness, negates a finite value, keeps NaN and swaps the infinities |
| Host.ToNumber | script.js:226-231 | an operand that is a number is used as is; a `name` object or `undefined` operand counts as NaN |
| Library.AngleModeOnlyAffectsTrig | script.js:41-68 | no name is both a function and a constant; the degree toggle changes only the six trigonometric entries; in radian mode each of the six is the bare library function; in degree mode `sin`/`cos`/`tan` are the radian entry applied to the converted angle, and `asin`/`acos`/`atan` convert the radian entry's result to degrees |
| Library.Trig | script.js:55-58 | the `trig` table entry itself, case by case (its meaning is stated by `AngleModeOnlyAffectsTrig`): in radian mode the library function gets the argument unchanged; in degree mode it gets `x * Math.PI / 180` |
| Library.InvTrig | script.js:59-62 | the `invtrig` table entry itself, case by case: in radian mode the library result is returned unchanged; in degree mode it is converted as `v * 180 / Math.PI` |
| Library.ApplyFunction | script.js:41-53 | the `FUNCTIONS` table itself, entry by entry: each of the eleven function names applies its entry: `sin`/`cos`/`tan` through `trig`, `asin`/`acos`/`atan` through `invtrig`, `log` base 10, `ln`, `sqrt`, `exp`, `abs` |
| Library.ConstantValue | script.js:64-68 | the `CONSTANTS` table itself: `pi` is `Math.PI`, `e` is `Math.E`, and `Ans` is the answer read through its thunk |
| Combinatorics.Fact | script.js:82-88 | `n!` is at least 1 and at least `n` |
| Combinatorics.Permutations | script.js:90-94 | the falling product is at least 1, at least `n` when `r >= 1`, and `n` when `r = 1` |
| Combinatorics.Combinations | script.js:95-99 | the Pascal entry is at least 1, and `n` when `r = 1` or `r = n - 1` |
| Combinatorics.ComputeFact | script.js:85-87 | the `r *= i` loop for `i` from 2 to `n` computes `n!` |
| Combinatorics.FactSplit | script.js:93 | `n! = nPr(n, r) * (n - r)!`, so the division in `nPr` is exact |
| Combinatorics.CombinationsTimesFacts | script.js:98 | `nCr(n, r) * (r! * (n - r)!) = n!`, so the division in `nCr` is exact |
| Combinatorics.CombinationsSymmetric | script.js:95-99 | `nCr(n, r) = nCr(n, n - r)` |
| Combinatorics.PermutationsAreOrderedCombinations | script.js:90-99 | `nPr(n, r) = nCr(n, r) * r!` |
| Combinatorics.FactOf | script.js:82-88 | `Invalid factorial` exactly for a negative or non-finite argument; `n! requires integer n` exactly for a finite non-negative fraction; otherwise the exact factorial |
| Combinatorics.FactOfRecurrence | script.js:82-88 | `fact(0) = fact(1) = 1` and `fact(n) = n * fact(n - 1)` |
| Combinatorics.NPrOf | script.js:90-94 | `nPr invalid` exactly when an argument is not a finite number; `nPr range` exactly when `n < 0`, `r < 0` or `r > n`; otherwise `n! / (n - r)!` for integers, and errors only from `fact` |
| Combinatorics.NCrOf | script.js:95-99 | `nCr invalid` and `nCr range` under the same conditions; otherwise `n! / (r! (n - r)!)` |
| Lexer.IsDigit | script.js:38 | `[0-9]`: a digit is never a letter, an operator, `.`, `_` or a space, so the number branch never competes with another |
| Lexer.IsLetter | script.js:39 | `[a-zA-Z]`: a letter is never an operator, `.`, `_` or a space |
| Lexer.IsOpChar | script.js:121 | the ten characters of `'+-*/^()%!,'`, none of which is `.`, `_` or a space |
| Lexer.StartsNumber | script.js:107 | a number starts only at a `[0-9.]` character that no other branch takes; a `.` with no digit after it starts no number |
| Lexer.UnderscoreInsideName | script.js:104-126 | in `a_ _` the scan never stops at the `_` inside the name, and does reach the last `_` |
| Lexer.NumberEnd | script.js:110 | the number run ends at the first character outside `[0-9.]` |
| Lexer.NameEnd | script.js:117 | the name run ends at the first character outside `[a-zA-Z0-9_]` |
| Lexer.LexFrom | script.js:103-126 | the scan from a position yields at most one token per remaining character, and fails only with `Invalid char` |
| Lexer.Lex | script.js:101-127 | every token consumes a character: there are at most as many tokens as input characters; the only error is `Invalid char` |
| Lexer.Tokenize | script.js:101-127 | the scanning loop with its inner number and name loops yields exactly `Lex` |
| Lexer.ReadNumberRun | script.js:109-110 | the inner number loop stops where the greedy `[0-9.]` run after the first character ends and has collected exactly that slice of the input |
| Lexer.ReadNameRun | script.js:116-117 | the inner name loop stops where the greedy `[a-zA-Z0-9_]` run after the first letter ends and has collected exactly that slice of the input |
| Lexer.LexKeepsOperators | script.js:121-123 | the `op` tokens are exactly the operator characters of the input, in order, each one of `+-*/^()%!,` |
| Lexer.LexTokensFromSource | script.js:107-123 | every `num` token is the parse of a slice that starts at a digit or at `.` before a digit and ends where its `[0-9.]` run ends; every `name` token is a verbatim, case-preserving slice that starts with a letter and ends where its `[a-zA-Z0-9_]` run ends; every `op` symbol occurs in the input (their exact order is `LexKeepsOperators`) |
| Lexer.LexRunsStartAfterPrevious | script.js:107-119 | a token starts where the previous one ended, not where its run starts: `a1.5` is the name `a1` and the number `.5`, `2x` the number `2` and the name `x` |
| Lexer.LexFailsWhereStuck | script.js:104-126 | once the scan from the start (`Visits`: jumping past a space or an operator and over whole number and name runs) reaches a character where no token can start (a `_`, a `.` that no digit follows, any other character outside the accepted set), `tokenize` throws `Invalid char` for it |
| Lexer.LexErrors | script.js:104-126 | a successful scan meets only spaces, digits, `.`, letters, `_` and operator characters; the scan fails exactly when it reaches a character at which no token can start, and the error is `Invalid char` for such a reached character; a character outside that alphabet always fails |
| Lexer.LexEdgeCases | script.js:106-125 | `_x`, `.` and `2+.` fail on their first unusable character; `.5` and `1.2.3` are one number each; `Sin x2_` is two names with their case kept |
| Lexer.LexNumberLiteral | script.js:107-112 | a whole number literal is one `num` token holding its parse |
| Lexer.LexNameLiteral | script.js:114-119 | a whole name is one `name` token |
| Lexer.LexOpStep | script.js:121-123 | an operator character yields its `op` token and the scan goes on after it |
| Lexer.LexNumberStep | script.js:107-112 | a number start yields the parse of its run and the scan goes on after the run |
| Shunting.FlushToOpen | script.js:143 | the pop loop for `,` and `)` moves the operators above the topmost `(` to the output, in stack order, and leaves the rest of the stack; it empties the stack exactly when there is no `(` |
| Shunting.FlushToOpenMovesOperators | script.js:148 | what that loop moves holds no `(` |
| Shunting.FlushFor | script.js:169-174 | the flush before an operator stops at a `(` or at the first stack operator that does not bind tighter, and moves everything above it to the output |
| Shunting.FlushForMovesBinding | script.js:169-174 | every operator the flush moves binds tighter than the incoming one, by `FlushesBefore` |
| Shunting.Finish | script.js:180-184 | the final pop loop fails with `Mismatched (` exactly when a `(` is left, and otherwise appends the stack in pop order |
| Shunting.UnaryContext | script.js:166 | a `-` at the start is unary; after a number or a name a `-` is never unary; after an `op` token it is unary exactly when that token is neither `)` nor `!` |
| Shunting.Classify | script.js:165-168 | a `-` becomes `u-` exactly in unary context; `!` is the postfix factorial |
| Shunting.ShuntStep | script.js:134-178 | one token can only fail when it is a `,` or a `)` |
| Shunting.ShuntFrom | script.js:134-179 | the token loop from any position, output and operator stack fails only with `Misplaced comma`, `Mismatched )` or `Mismatched (` |
| Shunting.Shunt | script.js:130-186 | the conversion fails only with `Misplaced comma`, `Mismatched )` or `Mismatched (` |
| Shunting.ToRPN | script.js:130-186 | the loop with `out`, `stack` and `prev` yields exactly `Shunt` |
| Shunting.StepDepth | script.js:141-155 | one token fails exactly when it is a `)` or `,` with no `(` open, with the matching message; `(` opens one level and `)` closes one |
| Shunting.ShuntErrors | script.js:141-183 | the conversion fails exactly when the independent bracket check finds an error, with the same error, one of `Misplaced comma`, `Mismatched )` and `Mismatched (` |
| Shunting.BracketCheckErrors | script.js:141-183 | the bracket check reports only those three errors |
| Shunting.ShuntCensus | script.js:134-178 | on success the output holds the input's numbers and names in their input order, one `close` per `)`, and exactly the operators the tokens stand for, each `-` read in its context |
| Shunting.PowerGroupsRight | script.js:169-171 | `a^b^c` is `a b c ^ ^` |
| Shunting.MinusGroupsLeft | script.js:169-171 | `a-b-c` is `a b - c -` |
| Shunting.LeadingMinusBindsTighterThanPower | script.js:166-171 | `-a^b` is `a u- b ^` |
| Shunting.ProductBeforeSum | script.js:169-171 | `a+b*c` is `a b c * +` |
| Shunting.MinusAfterOperatorIsUnary | script.js:166 | a `-` after an operator is `u-` |
| Shunting.MinusAfterFactorialIsBinary | script.js:166 | a `-` after `!` is binary |
| Shunting.MinusAfterOpenIsUnary | script.js:166 | a `-` after `(` is `u-` |
| Shunting.MinusAfterNameIsBinary | script.js:166 | a `-` after a name is binary |
| Shunting.ParenthesisLeavesClose | script.js:147-155 | `a*(b)` is `a b close *` |
| Shunting.CallLeavesClose | script.js:137-155 | `sin(a)` is `sin a close` |
| Shunting.CommaLeavesNothing | script.js:141-144 | a comma inside parentheses emits nothing itself |
| Shunting.StrayCommaFails | script.js:144 | a comma outside parentheses is `Misplaced comma` |
| Shunting.StrayCloseFails | script.js:149 | a `)` without `(` is `Mismatched )` |
| Shunting.UnclosedOpenFails | script.js:182 | an unclosed `(` is `Mismatched (` |
| Evaluator.Pop | script.js:199-200 | popping an empty stack gives `undefined` and leaves it empty; otherwise it splits off the top |
| Evaluator.Call | script.js:206-216 | a function name gives its finite result, or `Math domain error`; a constant is `Invalid call`; any other name is `Unknown function` |
| Evaluator.ResolveOne | script.js:236-248 | a remaining constant resolves to its value (`Ans` through its thunk); a function name is `Function missing parentheses`; another name is `Unknown identifier`; anything else is kept |
| Evaluator.Resolve | script.js:236-248 | the `map` succeeds exactly when every element resolves, element by element; a failure is that of the first element that fails |
| Evaluator.Eval | script.js:236-250 | success exactly when the loop and the resolution succeed and one value is left, which is then the result and never a name; more or fewer values is `Invalid expression` |
| Evaluator.Factorial | script.js:82-88 | the imperative `fact` agrees with `FactOf` |
| Evaluator.Apply | script.js:219-233 | only `!` can fail; a one-operand operator leaves the depth (one entry on an empty stack), a binary one takes two entries and leaves one (one at least); the top is always the pushed number |
| Evaluator.Step | script.js:191-234 | only `close` and `!` can fail; a successful item adds at most one entry and never leaves the stack empty |
| Evaluator.StepDepthChange | script.js:191-234 | a number or a name pushes one entry; `close` and a binary operator take two and leave one; `!` and `u-` replace the top; missing entries count as `undefined` |
| Evaluator.RunFrom | script.js:191-234 | the item loop from any position adds at most one entry per remaining item and, after any item, never leaves the stack empty |
| Evaluator.Run | script.js:188-235 | the loop leaves at most one entry per item, and no entry exactly when there were no items |
| Evaluator.EvalRPN | script.js:188-251 | the loop over the value stack yields exactly `Eval` |
| Evaluator.CloseMarker | script.js:197-217 | `close` on an empty stack leaves `undefined`; on one value it keeps it; a non-name beneath the value is dropped; a name there is called, or fails as `Call` says |
| Evaluator.OperatorOperands | script.js:219-233 | a binary operator applies the host arithmetic to the two top values, with NaN for a missing operand; `u-` negates the top |
| Evaluator.StepErrors | script.js:191-234 | only `!` (the two `fact` errors) and `close` (the call errors) can throw |
| Evaluator.EvalErrors | script.js:188-250 | `evalRPN` throws only the `fact`, call, resolution and one-value errors |
| Evaluator.EvalResultKind | script.js:188-250 | a result is a number or `undefined` |
| Evaluator.ParenthesisDropsOperand | script.js:199-204 | `a b close *` multiplies NaN by `b`, which is NaN under IEEE rules |
| Evaluator.EmptyParenthesesGiveUndefined | script.js:199-204 | a lone `close` leaves `undefined` |
| Evaluator.MissingOperandIsNaN | script.js:226-228 | `a +` adds `a` to NaN |
| Evaluator.FunctionCall | script.js:207-210 | `f a close` is `f(a)` when finite, else `Math domain error` |
| Evaluator.FactorialOfFive | script.js:223-225 | `5 !` is 120 |
| Evaluator.BareNames | script.js:236-248 | bare `pi` and `Ans` are their values; `sin` and `sin a` are `Function missing parentheses`; `x` is `Unknown identifier` |
| Evaluator.OneValueRule | script.js:249 | no value and two values are both `Invalid expression` |
| Expression.IsJsSpace | script.js:256 | the `\s` class: it holds the space, tab, line feed and carriage return, and none of its characters is a name character, an operator or `.` |
| Expression.StripWhitespace | script.js:256 | the stripped text is no longer than the input and holds no `\s` character |
| Expression.StripNoSpace | script.js:256 | text without whitespace is unchanged |
| Expression.StripAppend | script.js:256 | stripping distributes over concatenation |
| Expression.StripIdempotent | script.js:256 | stripping twice is stripping once |
| Expression.MatchCall | script.js:261-262 | a match splits the text as `name(a,b)` with a non-empty comma-free `a` and a non-empty `)`-free `b` |
| Expression.MatchCallHead | script.js:261-262 | a match starts with the function name |
| Expression.MatchCallComplete | script.js:261-262 | every such split is the one found, so the pattern fires exactly on these texts |
| Expression.MatchCallShapes | script.js:261-262 | `nPr(5,(2))`, `nPr(,2)` and `nPr(5,2)+1` do not match; `nPr(5,2,3)` matches with second argument `2,3` |
| Expression.PrePass | script.js:261-272 | the `nPr` pattern is tried first, then the `nCr` one, and the split is that of the matching pattern |
| Expression.Allowed | script.js:259 | one character of the whitelist class: exactly the tokenizer's alphabet without the space, and never a `\s` character |
| Expression.Whitelisted | script.js:259 | the whitelist is exactly the tokenizer's accepted characters without the space |
| Expression.EvaluateExpression | script.js:253-276 | the result is `''` exactly for blank input, and otherwise a number or `undefined`, never a name object |
| Expression.Count | script.js:263-272 | `nPr` or `nCr` on the two argument values: success exactly for integers `0 <= r <= n`, giving P(n, r) or C(n, r); otherwise the errors of the chosen function |
| Expression.PipelineNeverInvalidCharacters | script.js:273-275 | none of `tokenize`, `toRPN` and `evalRPN` reports `Invalid characters` |
| Expression.Pipeline | script.js:273-275 | `evalRPN(toRPN(tokenize(handled)))` yields a number or `undefined`, never a name object |
| Expression.EvaluateHandled | script.js:257-275 | on the stripped text: `''` exactly for empty text, otherwise a number or `undefined` |
| Expression.Evaluate | script.js:253-276 | stripping, whitelist, pre-pass and the imperative tokenizer, converter and evaluator compute exactly `EvaluateExpression` |
| Expression.Equals | script.js:302-308 | the `=` handler accepts exactly a finite number result and rejects `''`, `undefined` and non-finite numbers with `Result not finite` |
| Expression.WhitespaceInsensitive | script.js:256 | the result depends only on the input without its whitespace |
| Expression.SpaceAnywhere | script.js:256 | inserting a whitespace character anywhere changes nothing |
| Expression.ArgumentsClean | script.js:263-272 | the arguments handed to the recursive calls are stripped and whitelisted already |
| Expression.InvalidCharactersExactly | script.js:259 | `Invalid characters` is thrown exactly when the stripped input has a character outside `[0-9a-zA-Z_+\-*/^()%!,.]`; no later stage and no recursive call throws it |
| Expression.NumberLiteral | script.js:273-275 | a number literal evaluates to its parse |
| Expression.CountingCall | script.js:263-272 | a pre-pass call fails with its first failing argument, else computes the count over the two argument values |
| Expression.CountingCallOk | script.js:263-272 | a pre-pass call with successful arguments and count yields that count as a number |
| Expression.PrePassExamples | script.js:261-262 | `nPr(5,2)`, `nCr(5,2)` and `nCr(5,7)` are split into `5` and the second number |
| Expression.PermFiveTwo | script.js:90-94 | `nPr(5, 2)` on numbers is 20 |
| Expression.CombFiveTwo | script.js:95-99 | `nCr(5, 2)` on numbers is 10 |
| Expression.PermutationsOfFiveTwo | script.js:263-267 | the text `nPr(5,2)` evaluates to 20 |
| Expression.CombinationsOfFiveTwo | script.js:268-272 | the text `nCr(5,2)` evaluates to 10 |
| Expression.CombinationsOutOfRange | script.js:268-272 | the text `nCr(5,7)` is `nCr range` |
| Expression.GeneralPath | script.js:273-275 | stripped, whitelisted text not starting with `n` goes straight to tokenize, convert and evaluate |
| Expression.UnderscoreFailsInTokenizer | script.js:259 | `_x` passes the whitelist but the tokenizer rejects `_` |
| Expression.BareFunctionName | script.js:241-242 | the text `sin` is `Function missing parentheses` |
| Expression.EmptyParentheses | script.js:306 | `()` evaluates to `undefined`, which the `=` handler rejects |
| Expression.ParenthesisAfterProduct | script.js:199-204 | the text `2*(3)` multiplies NaN by 3, and the `=` handler rejects it when NaN propagates |
| Expression.LexProduct | script.js:101-127 | `2*(3)` scans to `2`, `*`, `(`, `3`, `)` |
| Expression.LexEmptyParentheses | script.js:121-123 | `()` scans to `(`, `)` |
| Expression.BlankIsNotAnAnswer | script.js:306 | blank input is `Result not finite` at the `=` handler |
| Strings.Reverse | script.js:358 | the reversal has the same length and holds the code points in the opposite order |
| Strings.ReverseInvolution | script.js:358 | reversing twice gives the string back |
| Strings.ReverseAppend | script.js:358 | the reversal of `a + b` is the reversal of `b` followed by that of `a` |
| Strings.StrLen | script.js:357 | the code-point count is 0 exactly for the empty string |
| Strings.StrLenLaws | script.js:357 | the length is additive, is kept by reversal, and is 0 exactly for the empty string |

## Left out

- **The user interface.** This covers element lookups, mode switching, the degree label, button and key handlers, memory and the string panel's other buttons (script.js:3-31, 278-414). It is event plumbing around `evaluateExpression`, except for the `=` handler's finiteness check, which is `Equals`.
- **Clipboard copy with `setTimeout`.** It is asynchronous browser I/O.
- **Floating-point library math.** `Math.sin` … `Math.abs`, `Math.pow`, the double operators `+ - * / %` and `parseFloat` are uninterpreted fields of `Env`. The degree toggle and `Ans` are parameters.
  - Where a lemma needs IEEE NaN propagation, it assumes it through `PropagatesNaN`.
  - Concrete examples take the parse of their literals as hypotheses.
- **Negative zero.** A real number cannot express `-0`, so unary minus of `0` is `0`.
- **Double arithmetic in `fact`, `nPr` and `nCr`.** The model computes them exactly over `nat`. The source's loop runs on doubles, and the members below differ from it:
- Combinatorics.ComputeFact: terminates for every `n`, but the source loop `for (let i=2;i<=n;i++) r *= i` never ends for `n >= 2^53`, because `i++` rounds back to `2^53` there. For `n` in the billions it already runs for seconds. It also does not overflow to `Infinity` from `171!` on, or round beyond 2^53.
- Combinatorics.FactOf: returns the exact factorial. In the source, `9007199254740992!` hangs the page, and from `171!` on the result is `Infinity`.
- Combinatorics.NPrOf: returns the exact falling product. The source divides two double factorials, so it hangs for `n >= 2^53`, gives `Infinity` once `fact(n)` overflows, and `Infinity / Infinity`, that is NaN, once `fact(n - r)` overflows too.
- Combinatorics.NCrOf: returns the exact Pascal entry. The source hangs likewise, e.g. for `nCr(9007199254740992,1)`, and divides overflowed factorials in the same way.
- **Host.ToNumber:** a `name` object used as an operand counts as NaN. In JavaScript, `+` with a `name` object concatenates strings instead, e.g. `pi+1`. Every later use gives NaN or a string, except `^0`, which gives 1 as `pow(NaN, 0)` does: `(pi+1)^0` is 1. `Number.isFinite` rejects a string. So, under `PropagatesNaN` (IEEE NaN propagation of the host arithmetic), the two agree at the `=` handler and at the checks in `nPr`/`nCr`, but the model does not represent the string itself.
- **Property names from `Object.prototype`.** JavaScript's `in` also finds inherited names such as `constructor` in the function and constant tables. The model uses only the tables' own entries.
- **Unknown operators.** The `Unknown op` error cannot arise, because the converter only emits operators from the table, so it is not modelled.
- **Regular expressions.** The whitelist, the `\s` class and the `nPr`/`nCr` patterns are written as plain predicates and a matching function, not as a regex engine.
- **Strings.StrLen:** `[...s]` splits into code points. Dafny characters are Unicode scalar values, so a JavaScript string containing a lone surrogate has no counterpart.
