# A verified model of the text-expression calculator

The calculator turns a line of text such as `3 + 5 × (2 - 8)` into a
number. The repository has two versions of the pipeline.

- **static/calculator.js** is the current one. Its `calculate` tokenizes
  the text, collapses the parenthesised groups (`recursiveParseParen`),
  parses the tokens by recursive descent and evaluates the tree. The parser
  handles implicit multiplication, `²`, `√`, unary signs and `π`.
- **calculator.js** at the top of the tree is the earlier version. It has
  its own tokenizer, a stack-based `parseParentheses`, a parser that knows
  only `+ - * /`, and an evaluator that knows only `+ - × ÷`.
- **static/main.js** drives the page. Its non-page logic is a first-match
  validation of the text and a small editing state machine over the fields
  `expression`, `result`, `id` and `lastClick`.

## How the model is built

- **Numbers.** A JavaScript number is a `Num`: a real, one of the two
  infinities, or NaN.
  - `+ - * /` are exact on reals and follow the IEEE rules for the special
    values.
  - `Number(text)`, `String(number)`, `Math.sqrt`, `Math.pow`, `%` and
    `Math.PI` are fields of a `Prims` record that every operation takes.
    Nothing is assumed about them unless a lemma states it in its
    `requires`, for example `SymbolsAreNaN`: `Number()` of an operator
    symbol is NaN.
- **Tokenizers.** Both tokenizers are hand-written scanners. They try the
  alternatives of the regular expression in their written order and run
  behind a shared search loop: `Scanner.Scan` keeps every whole match
  (static), and `Scanner.ScanCaptures` keeps the captured group of each
  match (root).
- **Static parser.** `parseTerm` removes `²` from the token array it shares
  with `parseExp` and `parseFactor`. It is modelled as:
  - a class `StaticParser.Parser` whose field `tokens` the methods update;
  - functions that thread the token list, against which the methods are
    proved.
- **recursiveParseParen** is a loop over a local copy of the array.
  `StaticResolver.Step` and `StaticResolver.Nested` state each pass.
  - A consumed `²` is spliced out, and the `continue` still advances the
    index, so the token after it is skipped.
  - A `)` followed by `²` inside a nested group is not pushed.
- **parseParentheses** is a loop over a `Progress` record (output and
  stack).
  - `++output.length` leaves an empty slot (`Hole`) before each group value.
  - An empty stack pops `undefined`, and `slice` reads the NaN that `++`
    makes of it as 0.
- **Errors.** Each exception of the static pipeline is the `Err` of a
  `Result`. The root pipeline never throws. Its `evaluate` returns
  `undefined` (`LegacyParser.Value.Undefined`) for an operator it has no
  case for.
- **Page state.** The page's `Calculator` is a class `UiState.Calculator`
  whose methods update the four fields. The functions `UiState.Updated`,
  `UiState.Cleared` and `UiState.Calculated` state the new field values on
  a snapshot.

Where the code behaves in ways its comments and tests do not suggest, the
model follows the code:

- The static tokenizer takes the first alternative that matches, not the
  longest lexeme. A `-` directly before a digit belongs to the number, so
  `5-3` lexes as `5`, `-3` and is read as an implicit product.
- A group followed by `²` is not evaluated twice. The code parses the
  token list `R * R` once, so `(2+3)²` is `2 + 3*2 + 3`.
- A squared group skips the token after its `²`. So the token count can
  shrink by more than the group, and `(x)² )` is accepted.
- `√` builds a node whose left operand is always the number 1. The
  evaluator's branches for the `''`, `'+'` and `'-'` sentinels never run.
  `-√x` is negative only because of the unary-minus node around it.

## Model

| member | source | states |
|---|---|---|
| Scanner.Scan | static/calculator.js:14-19 | the `exec` loop returns every match, left to right, each search starting where the last match ended |
| StaticLexer.Tokenize | static/calculator.js:10-22 | `tokenize` returns the matches of the four alternatives, tried in order, at each position |
| StaticLexer.TokensHaveLexemeShape | static/calculator.js:12 | every token is a signed decimal numeral with optional fraction and exponent, `π`, one symbol of `+-÷*/√×%()^²`, or an identifier |
| StaticLexer.TokensInOrder | static/calculator.js:14-19 | the tokens are non-overlapping pieces of the input, in input order |
| StaticLexer.SeparatorSplits | static/calculator.js:12-19 | a character no token can contain (white space, say) splits the text: the tokens of `x c y` are those of x followed by those of y |
| StaticLexer.MinusSign | static/calculator.js:12 | a leading `-` is its own token exactly when no digit follows it; otherwise it starts a numeral |
| StaticLexer.MinusSignAt | static/calculator.js:12 | at any position, a `-` is matched alone exactly when no digit follows it; otherwise the match is a numeral starting with it |
| StaticLexer.MinusBetweenNumbers | static/calculator.js:12 | `5-3` lexes as `5`, `-3` |
| StaticLexer.MinusAfterOperator | static/calculator.js:12 | `5+-10` lexes as `5`, `+`, `-10` |
| StaticResolver.GroupValue | static/calculator.js:42-56 | an error resolving a group's interior is passed on; a group's value is `String()` of some number |
| StaticResolver.GroupText | static/calculator.js:45-46 | the group's value computed by the parser's own method equals `GroupValue` |
| StaticResolver.ResolveParens | static/calculator.js:25-89 | the loop of `parseNested` over the array it splices computes `Resolve` |
| StaticResolver.ResolvedHasNoParens | static/calculator.js:25-89 | if `String()` never yields a symbol, a successful resolution holds no parenthesis |
| StaticResolver.ParenFreeUnchanged | static/calculator.js:72-79 | a token list without parentheses comes back unchanged, `²` included |
| StaticResolver.NestedDepth | static/calculator.js:32-83 | without `²`, a successful scan ends with as many `)` as `(` (plus the starting depth) |
| StaticResolver.NestedErrorSource | static/calculator.js:32-83 | without `²`, a scan that fails with anything but `Mismatched parentheses` fails with the evaluation error of a group, a run of its tokens |
| StaticResolver.StepTracks | static/calculator.js:33-79 | without `²`, one pass keeps the collected group equal to the run of tokens just before the index, and fails only with that group's evaluation error |
| StaticResolver.UnbalancedFails | static/calculator.js:81-83 | without `²`, unequal counts of `(` and `)` end in an error: `Mismatched parentheses`, or the evaluation error of a group met before the end |
| StaticResolver.OverZero | static/calculator.js:104-199 | a group `n / d` whose divisor has the value zero is parsed as that division and fails with `Division by zero` |
| StaticResolver.GroupErrorFirst | static/calculator.js:51-83 | in `(n/d)(` with a divisor of value zero, such as `(1/0)(`, the group's division by zero is thrown before the unclosed `(` is noticed |
| StaticResolver.NestedShift | static/calculator.js:32-83 | the scan of a list's tail, after a prefix it has passed, ends as a fresh scan of the tail with the earlier results in front |
| StaticResolver.PlainStaysOpen | static/calculator.js:35-41 | from depth 1 or more, tokens without parentheses keep the scan inside the group |
| StaticResolver.WalkInside | static/calculator.js:35-71 | inside a group, tokens that keep the depth at 1 or more, with no `)` followed by `²`, are collected in order, parentheses included |
| StaticResolver.GroupCollapses | static/calculator.js:42-83 | a top-level group not followed by `²`, whose interior may nest groups, is replaced by the text of the value of its resolved interior; the tokens after it are resolved as a list of their own and follow it in order; the interior's error comes first, then the rest's |
| StaticResolver.SquaredGroupAtEnd | static/calculator.js:42-50 | a final group followed by `²`, whose interior may nest groups, becomes the text of the value of `R * R` for its resolved interior R, and the `²` is removed; the interior's error is the outcome |
| StaticResolver.SquaredGroupSkipsNext | static/calculator.js:42-79 | after a squared group, the token following the `²` is dropped whatever it is, and the tokens after it are resolved as a list of their own and follow the group's value; the interior's error comes first, then the rest's |
| StaticResolver.NestedSquareLosesParen | static/calculator.js:40-64 | in `((a)²)` the inner `)` is not kept and the outer scan fails with `Mismatched parentheses` |
| StaticParser.SpliceBetween | static/calculator.js:121 | `splice(j, 1)` removes exactly the token at j |
| StaticParser.Factor | static/calculator.js:149-178 | `parseFactor` fails only with `Unexpected end of expression` and otherwise consumes at least one token, staying within the array |
| StaticParser.Term | static/calculator.js:104-147 | `parseTerm` can only shorten the array, and its next index stays within the array |
| StaticParser.Parser.ParseTerm | static/calculator.js:104-147 | both loops of `parseTerm`, with the `²` splice on the shared array, compute `Term` on the old array and leave its array in `tokens` |
| StaticParser.Parser.ParseExp | static/calculator.js:92-102 | the `+ -` loop of `parseExp` computes `Exp` and leaves its array in `tokens` |
| StaticParser.Parse | static/calculator.js:91-182 | `parse` is the tree of `parseExp(0)`; its only error is `Unexpected end of expression` |
| StaticGrammar.TermAt | static/calculator.js:104-147 | the tokens of a well-formed term, ended by a token that does not continue it, are read as the term's tree; a `²` is spliced from its position |
| StaticGrammar.SquaredTermAt | static/calculator.js:114-122 | a `²` after a term's implicit product replaces that product by the number node of its square, and disappears from the array |
| StaticGrammar.ExprAt | static/calculator.js:92-102 | a well-formed `+ -` chain of terms carrying no `²` is read to its end as a left-associative tree |
| StaticGrammar.ParseRoundTrip | static/calculator.js:91-182 | the tokens of a well-formed expression, followed by tokens that do not continue it, parse to the expression's tree |
| StaticEvaluator.Apply | static/calculator.js:191-216 | the operator step fails exactly on an unhandled operator (`Unsupported operator`) or a `/` or `÷` by zero (`Division by zero`) |
| StaticEvaluator.Evaluate | static/calculator.js:185-218 | a number node is its value; failures are division by zero or an unsupported operator only |
| StaticEvaluator.FailsIffFaulty | static/calculator.js:185-218 | evaluation fails exactly when some node has an unhandled operator or divides by a zero-valued operand |
| StaticEvaluator.HandledFailsOnlyByZero | static/calculator.js:196-213 | a tree of handled operators fails only by division by zero |
| StaticEvaluator.NoDivisionSucceeds | static/calculator.js:191-216 | a tree of handled operators without a division always has a value |
| StaticEvaluator.RootIsSqrt | static/calculator.js:202-207 | the `√` node `parseFactor` builds is the square root of its operand |
| StaticEvaluator.MinusRootIsNegatedSqrt | static/calculator.js:168-176 | `-√x` evaluates to the negated square root |
| StaticEvaluator.SignNodes | static/calculator.js:168-176 | unary `+` keeps a value and unary `-` negates it |
| StaticCalculator.CalculateExpression | static/calculator.js:1-7 | running the four stages' own loops gives `Calculate` |
| StaticCalculator.CalculateWithoutGroups | static/calculator.js:1-7 | text without parentheses goes from the tokenizer straight to the parser |
| StaticCalculator.CalculateExpressionValue | static/calculator.js:1-7 | text that lexes to a well-formed expression without parentheses or `²` has the value of its tree, and fails exactly on a faulty tree |
| StaticCalculator.CalculateGroup | static/calculator.js:1-7 | a top-level group not followed by `²`, possibly nesting groups, is replaced by its value's text and the tokens after it by their resolved form before the whole is parsed; the first error met is the result |
| StaticCalculator.UnbalancedTextFails | static/calculator.js:1-7 | without `²`, unbalanced parentheses make `calculate` throw `Mismatched parentheses`, or the evaluation error of a group met first |
| LegacyLexer.Tokenize | calculator.js:11-20 | `tokenize` returns the captured group of each match, the alternatives tried in order |
| Scanner.ScanCaptures | calculator.js:16-18 | the `exec` loop pushes `match[1]` of every match, left to right, each search starting where the last one ended, white space included |
| LegacyLexer.LegacySeparatorSplits | calculator.js:12-19 | white space, or a character no alternative can contain (`*`, `/`, `,`, say), splits the text: the tokens of `x c y` are those of x followed by those of y, so an unmatched character is passed over and the matches after it are still kept |
| LegacyLexer.LegacyTokensHaveShape | calculator.js:12 | every token is a symbol, a decimal, or a call `name(decimal)`, and never `*` or `/` |
| LegacyLexer.LegacyTokensInOrder | calculator.js:16-18 | the tokens are non-overlapping pieces of the input, in input order |
| LegacyParser.Factor | calculator.js:65-68 | `parseFactor` reads exactly one entry as a number node |
| LegacyParser.TermLoop | calculator.js:56-61 | the `* /` loop stops at the first entry that is not `*` or `/` and builds only parser operators |
| LegacyParser.ParseTerm | calculator.js:53-63 | the loop of `parseTerm` computes `Term` |
| LegacyParser.ParseExp | calculator.js:43-52 | the loop of `parseExp` computes `Exp` |
| LegacyParser.ParseEntries | calculator.js:42-71 | `parse` is the tree of `parseExp(0)` |
| LegacyParser.Parse | calculator.js:42-71 | every node of the tree is `+`, `-`, `*` or `/` |
| LegacyParser.ParseRoundTrip | calculator.js:42-71 | the entries of a sum of products, followed by an entry that is no operator, parse to its tree; `* /` bind tighter than `+ -` and both associate to the left |
| LegacyParser.TimesEndsParse | calculator.js:53-63 | a `×` as the second entry ends the parse after the first entry |
| LegacyParser.ParseStopsAtSlot | calculator.js:65-68 | an empty slot followed by a group value ends what the parser reads |
| LegacyParser.SumsOnly | calculator.js:53-63 | without `*` or `/` entries the tree holds only `+` and `-` |
| LegacyEvaluator.Evaluate | calculator.js:74-87 | the result is `undefined` exactly at an operator node outside `+ - × ÷`; a number node is its value |
| LegacyEvaluator.FlatSumValue | calculator.js:74-87 | a `+ -` chain of single entries is their left-to-right total |
| LegacyEvaluator.ProductIsUndefined | calculator.js:80-85 | a product with an operator evaluates to `undefined` |
| LegacyEvaluator.ProductSpoilsSum | calculator.js:80-85 | any explicit `*` or `/` makes a lone product `undefined` and a longer sum NaN |
| LegacyEvaluator.NoProductNoUndefined | calculator.js:74-87 | entries without `*` or `/` always evaluate to a number |
| LegacyCalculator.ParseParentheses | calculator.js:22-40 | the loop over the tokens, with its output and its stack of marks, computes `Parens` |
| LegacyCalculator.CalculateExpression | calculator.js:1-9 | `calculate` runs `parseParentheses` only when a token is `(`, then parses and evaluates |
| LegacyCalculator.ParensLayout | calculator.js:22-40 | the output is each token but `(` and `)` in order, with an empty slot and a group value for each `)` |
| LegacyCalculator.ParensLength | calculator.js:26-38 | the output has one entry fewer per `(` and one more per `)` than the input |
| LegacyCalculator.ParensTexts | calculator.js:34-35 | every token in the output is a token of the input and not a parenthesis |
| LegacyCalculator.ParensWithoutClose | calculator.js:26-38 | without `)` no group is valued: the output holds only tokens |
| LegacyCalculator.CalculateIsNumber | calculator.js:1-9 | `calculate` never returns `undefined` |
| LegacyCalculator.CalculateSum | calculator.js:1-9 | text without parentheses that lexes to a `+ -` chain of numbers has their left-to-right total |
| LegacyCalculator.FirstGroupAt | calculator.js:29-33 | after the first group the output is the tokens before and inside it, an empty slot, and the value of the inner tokens |
| LegacyCalculator.FirstCloseEndsCalculation | calculator.js:1-9 | nothing after the first `)` counts: the result is that of the tokens before it, less the `(`, followed by NaN |
| UiState.ExpressionValidation | static/main.js:97-132 | the message is that of the first failing check in the order empty, trailing operator, trailing `(`, unequal parenthesis counts, `..`; the result is valid exactly when none fails |
| UiState.FirstFailure | static/main.js:125-129 | the first failing check decides the message |
| UiState.ValidMeans | static/main.js:97-132 | valid means non-empty, ending in neither `+ - × ÷ ^ %` nor `(`, with as many `(` as `)` and no `..`, with message 'Valid expression' |
| UiState.WrappedValidation | static/main.js:97-122 | text wrapped in `( … )` adds one to each parenthesis count, and is valid exactly when the text balances its parentheses and has no `..`; otherwise the message is that of the count or the dot check |
| UiState.Updated | static/main.js:211-239 | `updateExpression` never changes `result` or `id`; `lastClick` stays set only when an operator replaces an operator |
| UiState.Calculator.constructor | static/main.js:9-12 | the fields start as `''`, 0, 0 and false |
| UiState.Calculator.UpdateExpression | static/main.js:211-239 | the fields become `Updated` of the old fields |
| UiState.Cleared | static/main.js:159-164 | `expression` becomes `''` and `lastClick` false; `result` and `id` are kept |
| UiState.Calculator.ClearCalculator | static/main.js:159-164 | the fields become `Cleared` of the old fields |
| UiState.Calculator.HandleError | static/main.js:257-262 | `handleError` has the same effect on the fields as `clearCalculator` |
| UiState.Calculated | static/main.js:166-201 | `id` grows by at most one, and only when `lastClick` is set and the expression is the result's text |
| UiState.Calculator.CalculateResult | static/main.js:166-201 | the fields become `Calculated` of the old fields |
| UiState.OperatorReplacesOperator | static/main.js:212-219 | an operator after an operator replaces it, the length and `lastClick` stay |
| UiState.SquareKey | static/main.js:221-223 | the `x²` key behaves as `²` |
| UiState.DigitAfterResult | static/main.js:225-228 | right after a result, text with a digit replaces the expression and clears `lastClick` |
| UiState.OperatorAfterResult | static/main.js:229-232 | right after a result, an operator or parenthesis continues from the result's text |
| UiState.OtherAfterResult | static/main.js:225-233 | right after a result, any other text is dropped and only `lastClick` is cleared |
| UiState.KeyAppended | static/main.js:234-237 | otherwise the key is appended |
| UiState.OperatorRun | static/main.js:212-219 | a run of operator keys after an operator keeps only the last one, at the same length |
| UiState.KeyAfterClear | static/main.js:159-164 | after clearing, the next key starts a fresh expression |
| UiState.EmptyIgnored | static/main.js:167 | `=` on an empty expression changes nothing |
| UiState.ResultShown | static/main.js:172-195 | a result that is not NaN becomes the expression's text, `lastClick` is set and `id` grows by one |
| UiState.NaNCleared | static/main.js:172-177 | a NaN result is stored and the expression cleared, `id` kept |
| UiState.ErrorCleared | static/main.js:196-198 | an exception clears the expression and keeps the previous result and `id` |
| UiState.IdCountsResults | static/main.js:192-195 | on a non-empty expression, `id` grows exactly when `lastClick` is set |
| UiState.ContinueFromResult | static/main.js:192-232 | after `=`, an operator key continues from the result's text |

## Left out

- root main.js: it only wires page clicks to the calculator.
- The page parts of static/main.js are left out: element lookup, focus and timers, history markup, `deleteAll`, and the preview and validation rendering.
- `validateAndPreCalculate`, `handleScreenInput`, `handleKeyboardInput` and `handleButtonClick` are left out. They only choose what to show, map keys onto the modelled methods, or copy the page's screen text into `expression` (`handleScreenInput`, static/main.js:34-37).
- `screen.value` is left out. It is a page element; the model keeps `expression`, which the logic reads.
- Floating point is not modelled. Sums, differences, products and quotients are exact reals; rounding, overflow and signed zero are not modelled. `Number()`, `String()`, `Math.sqrt`, `Math.pow`, `%` and `Math.PI` are parameters.
- Regular-expression internals (`lastIndex`, `exec`) are replaced by hand-written scanners.
- Strings are sequences of code points, not UTF-16 units. Every character the tokenizers care about is a single unit in UTF-16 either way.
- `calculateResult`'s `result === undefined` branch is not modelled. The static `calculate` either returns a number or throws, so that branch never runs.
- The `console.log` in `parseParentheses` is left out: it is output only.
- The test files and the module export lists are left out.
- StaticGrammar.ParseRoundTrip: stated for expressions whose terms carry no `²`. A squared term is covered term by term by StaticGrammar.SquaredTermAt, not for a whole chain.
- StaticResolver.GroupCollapses: stated for a group with no parenthesis before it, and with no `)` followed by `²` inside it; the tokens after it are any.
- StaticResolver.SquaredGroupAtEnd: stated for a group with no parenthesis before it, and with no `)` followed by `²` inside it.
- StaticResolver.SquaredGroupSkipsNext: stated for a group with no parenthesis before it, and with no `)` followed by `²` inside it; the tokens after the `²` are any.
- StaticCalculator.CalculateGroup: stated for a group with no parenthesis before it, and with no `)` followed by `²` inside it.
- StaticGrammar.ExprAt: stated for chains whose terms carry no `²`. A squared term is covered term by term by StaticGrammar.SquaredTermAt.
- LegacyCalculator.FirstCloseEndsCalculation: stated for the first group only, with no parenthesis before it or inside it.
- LegacyCalculator.CalculateSum: stated for text without parentheses; with parentheses the value comes from LegacyCalculator.FirstCloseEndsCalculation.
