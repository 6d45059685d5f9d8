# Kisalaskuri formula front end, in Dafny

Kisalaskuri evaluates the score formulas of Kipa-style competitions. A
formula such as `min(5, max(2, -2))` or `0.5*med((.a*..mukana-0))` goes
through four stages:

1. **Lexer** (`src/calc/lexer.rs`). It turns the text into tokens:
   - one token per symbol character;
   - keywords with their Finnish synonyms;
   - numbers;
   - opaque getter paths such as `..start.c.a.vartio`.
2. **Prefix rewrite** (`lispify`, `src/calc/lisp.rs`). It moves the first
   infix operator of each level in front of its left operand.
3. **Shunting-yard parser** (`src/calc/parser/mod.rs`). It keeps four
   stacks. Every reduction goes to an *applicator*
   (`src/calc/parser/applicators.rs`), which either:
   - builds the node verbatim;
   - folds it into a constant;
   - rewrites a `muk` getter product through the getter resolver
     (`src/calc/ctx.rs`).

   An older revision of the parser (`src/calc/parser.rs`) is modelled
   alongside it.
4. **Evaluator** (`eval`, `src/calc/mod.rs`). It evaluates the tree, using
   the numeric primitives of `src/kipac/mod.rs`.

The model is functional.
- The token alphabet (`Tokens`) is the union of the lexer's token enum and
  the extra variants the parser matches on. The repository's files come from
  different revisions, and the parser uses tokens that the lexer in
  `src/calc/lexer.rs` does not declare.
- `Syntax` holds the function tags, the tree and `Fun::from`.
- Each stage is a pure function over sequences. The parsers are a step
  function over a record of four sequence stacks, with the top of each
  stack at its end.
- Every `panic!`, `unimplemented!`, out-of-range index and `unwrap` on an
  empty stack is an explicit `Err`/`None`.
- Numbers are exact reals.

`eval` in `src/calc/mod.rs:30-81` returns a bare `f64` and takes no resolver.
`optimize` (`src/calc/parser/applicators.rs:26`) calls `eval(node, ctx)` and matches on a
`Result<Value, _>`. The model has one `Calc.Eval` returning a `Result`:
- its dispatch follows `src/calc/mod.rs`;
- every panic is an `Err`;
- getters are an `Err`, as `eval` panics on them (`src/calc/mod.rs:79`).

The two parser revisions build trees whose children are in opposite orders
(`LegacyParser.ParsersMirror`). The evaluator's operand convention (`res[1]`
is the left operand of `-`, `/`, `%`, `^`) matches the older revision. On
the infix tokens `12 - 2`, the older parser builds `Sub(2, 12)`, which
evaluates to 10. The current parser builds `Sub(12, 2)`, which evaluates
to `-10` (`LegacyParser.SubtractionAcrossRevisions`).

`calculate` (`src/calc/mod.rs:25-28`) runs `lispify` before the older
`parse` (`src/calc/parser.rs:97`). That `parse` reads infix input, so on
the prefix tokens `- 12 2` the leading `-` is a sign. The sign takes only
`2`, and `parse` returns the topmost fragment, dropping `12`. So the chain
as written gives `-2` for `12-2`, not the 10 its test expects
(`Calculator.SubtractionTest`). In the same way, `x + y` gives `y`, while
`*` and `/` come out right (`Calculator.AdditiveThroughLispify`,
`Calculator.MultiplicativeThroughLispify`). The model follows the code of
each file as written.

Modules, one per file:
- `Wrappers`: `Option`, `Result`.
- `Tokens`.
- `Syntax`.
- `Lexer`.
- `Lisp`.
- `Ctx`.
- `Kipac`.
- `Calc`: the evaluator.
- `Applicators`.
- `Parser`: the current parser.
- `LegacyParser`: the older one.
- `Calculator`: `calculate`, the whole chain from text to value.

## Model

| member | source | states |
|---|---|---|
| Lexer.BlankLength | src/calc/lexer.rs:67-80 | the whitespace skipped is a maximal prefix of whitespace characters: every skipped character is whitespace, and the next one is not |
| Lexer.WordLength | src/calc/lexer.rs:67-84 | `get_expr` collects a maximal prefix of alphanumerics and dots: every collected character is one, and the character after the run is not |
| Lexer.Classify | src/calc/lexer.rs:86-113 | a keyword wins; otherwise a run the number grammar accepts is `Num` of its value; otherwise it is `Expr` carrying exactly that text; the result is always a lexer-enum token and never `Empty` |
| Lexer.Lex | src/calc/lexer.rs:114-170 | a successful lex emits at most one token per input character |
| Lexer.Scan | src/calc/lexer.rs:114-170 | the lexing loop over the remaining input never emits more tokens than characters remain |
| Lexer.ScanSymbol | src/calc/lexer.rs:119-162 | each symbol character consumes exactly one character and emits exactly its token, ahead of whatever the rest of the input yields |
| Lexer.SymbolTable | src/calc/lexer.rs:119-162 | the eleven symbol characters map to ParL, ParR, BrackL, BrackR, Add, Sub, Mul, Div, Pow, Mod and Comma; no symbol is whitespace or a word character |
| Lexer.ScanSkipsBlanks | src/calc/lexer.rs:116-118 | whitespace in front of non-empty further input produces no token: the scan equals the scan of the rest |
| Lexer.ScanTrailingBlanks | src/calc/lexer.rs:49-51 | input that ends in whitespace makes `next_char` run off the end: the scan fails with `NoNextChar` |
| Lexer.ScanWord | src/calc/lexer.rs:163-166 | a maximal run of word characters yields exactly one token, classified from exactly that run, ahead of the rest of the input |
| Lexer.ScanStuck | src/calc/lexer.rs:163-166 | a character that is neither whitespace, a symbol nor a word character makes `get_expr` read an empty run and never advance; the model reports `Stuck` with that character |
| Lexer.LexAppend | src/calc/lexer.rs:114-170 | lexing is compositional: if the first part lexes and the seam does not join two word characters, the tokens of the concatenation are the first part's tokens followed by the outcome for the second part |
| Lexer.ScanAppend | src/calc/lexer.rs:114-170 | the same compositional law for the loop, for any classifier |
| Lexer.ScanPieces | src/calc/lexer.rs:114-170 | any number of separated pieces that scan on their own scan together, and their tokens come out in input order |
| Lexer.LexAlphabet | src/calc/lexer.rs:3-34 | the lexer only emits variants of its own token enum, and never `Empty` |
| Lexer.KeywordsAndSynonyms | src/calc/lexer.rs:87-104 | `pienin`/`min`, `suurin`/`max` and `mean`/`kesk` give the same token; `ss`, `med`, `mod` and `pow` are keywords whatever the number grammar accepts |
| Lexer.SumOfSquaresExample | src/calc/lexer.rs:178-181 | `ss` lexes to `[SS]` |
| Lexer.SumExample | src/calc/lisp.rs:47-53 | `5 + 2` lexes to `[Num 5, Add, Num 2]` for any number grammar that reads `5` and `2` as Rust does |
| Lisp.OperatorStep | src/calc/lisp.rs:12-19 | an operator is dropped when `infix` is set; otherwise it is placed just before the last emitted token and sets `infix`; with nothing emitted it fails |
| Lisp.OperandStep | src/calc/lisp.rs:20-36 | every non-operator token is appended unchanged; `(` clears `infix` and arms `pall`; `,` clears `infix`; `)` with `pall` armed sets `infix` and disarms `pall`; other tokens leave the flags alone |
| Lisp.LispifyKeepsOperands | src/calc/lisp.rs:6-40 | the output holds exactly the input's non-operator tokens in their original order, never more operators than the input, and its length is the input length minus the number of operators dropped |
| Lisp.LeadingOperatorFails | src/calc/lisp.rs:13-14 | an expression that starts with an infix operator fails, because the output is empty when that operator pops it |
| Lisp.PairExample | src/calc/lisp.rs:47-53 | `a + b` becomes `+ a b` |
| Lisp.InfixPairExample | src/calc/lisp.rs:12-19 | any one infix operator between two numbers moves in front of them |
| Lisp.ChainExample | src/calc/lisp.rs:55-67 | `a + b + c + d` becomes the single prefix sum `+ a b c d` |
| Lisp.GroupFirstExample | src/calc/lisp.rs:25-31 | a `)` that closes a leading group sets `infix`, so `(a + b) + c` drops the outer `+` and becomes `(+ a b) c` |
| Lisp.NestExample | src/calc/lisp.rs:69-83 | `a + (b + c)` becomes `+ a (+ b c)`: the group gets its own operator in front |
| Lisp.NestContinueExample | src/calc/lisp.rs:85-100 | `a + (b + c) + d` becomes `+ a (+ b c) d`: after the group the outer `+` is dropped and `d` is appended |
| Lisp.CallExample | src/calc/lisp.rs:102-106 | `min(a + (b + c) + d, e)` becomes `min(+ a (+ b c) d, e)` |
| Lisp.LexedSumExample | src/calc/lisp.rs:47-53 | the text `5 + 2` lexes and then rewrites to `[Add, Num 5, Num 2]` |
| Syntax.FunFromMerges | src/calc/parser/mod.rs:92-136 | `Imod` and `Mod` map to the tag `Mod`, `Ipow` and `Pow` to `Pow`, and `Tan` maps to `Cos` |
| Syntax.FunFromEmpty | src/calc/parser/mod.rs:92-136 | exactly the structural tokens, operands, `Med`, `Empty` and the brackets map to `Fun::Empty` |
| Syntax.FunFromLeftInverse | src/calc/parser/mod.rs:92-136 | apart from the merged spellings, every function token is recovered from its tag |
| Syntax.FunFromInjective | src/calc/parser/mod.rs:92-136 | two tokens with the same non-empty tag are equal or are the two spellings of one merged tag |
| Syntax.FixedArities | src/calc/parser/mod.rs:7-20 | exactly the binary operators, comparisons, `Aikavali` and `Logb` have arity 2, and exactly `If` and `Aikainterp` have arity 3; exactly `Abs`, the reducers, `Interpoloi`, `Interp`, `SS`, `List`, `Pair` and `Empty` read the arity stack, so the one-argument functions and the signs are the remaining fixed ones |
| Parser.TakeArity | src/calc/parser/mod.rs:7-20 | a fixed-arity tag leaves the counters alone; any other tag pops the top counter and uses it, and fails when there is none |
| Parser.Reduce | src/calc/parser/mod.rs:23-33 | a reduction removes exactly `n` fragments and pushes the one applicator result on them, in their original left-to-right order; it fails exactly when the counter or the fragments run out |
| Parser.Unwind | src/calc/parser/mod.rs:164-177 | unwinding leaves the operator stack cut just below (or, when kept, just above) the topmost operator at which it stops, and leaves `prev` untouched |
| Parser.Step | src/calc/parser/mod.rs:157-257 | one loop iteration records the token in `prev`; an `Empty` token is an error |
| Parser.Run | src/calc/parser/mod.rs:157-257 | after the loop, `prev` is exactly the tokens read |
| Parser.OperandStep | src/calc/parser/mod.rs:159-160 | a number or getter pushes exactly one `Leaf` or `Get` fragment and touches no other stack |
| Parser.AdditiveStep | src/calc/parser/mod.rs:193-232 | after a value, `+`, `-` and the comparisons reduce down to the innermost `(`, which stays, and are then pushed; elsewhere `+`/`-` push `Plus`/`Minus` with nothing reduced, and a comparison is an error |
| Parser.MultiplicativeStep | src/calc/parser/mod.rs:233-249 | `*`, `/` and infix modulo reduce every pending operator above the innermost `+`, `-` or `(`, which stays, and are then pushed |
| Parser.PushingSteps | src/calc/parser/mod.rs:250-254 | infix `Ipow`, `(` and function names reduce nothing and are pushed; a function name also pushes a counter of 1 |
| Parser.CommaStep | src/calc/parser/mod.rs:162-178 | a comma with no counter is an error; otherwise it reduces down to, but not past, the innermost `(`, and the top counter grows by one |
| Parser.CloseStep | src/calc/parser/mod.rs:180-192 | `)` reduces down to the innermost `(` and discards it |
| Parser.UnwindFixedArity | src/calc/parser/mod.rs:7-20 | reducing only fixed-arity operators leaves the arity stack unchanged |
| Parser.Aborts | src/calc/parser/mod.rs:258-267 | an `Empty` token aborts; after draining every operator, more than one fragment is `Too many members`, none is an error, and exactly one is the result |
| Parser.ApplicatorsAgree | src/calc/parser/mod.rs:144-268 | on getter-free input, any two sound applicators either both fail to parse or give trees that evaluate to the same result |
| Parser.FoldingPreservesMeaning | src/calc/parser/mod.rs:139-141 | the default parser (`basic`) and the verbatim one (`empty`) agree on success and on what the tree evaluates to |
| Parser.BinaryExample | src/calc/parser/mod.rs:23-33 | `x op y` for `+ - * /` and infix modulo parses to the node with its children in written order |
| Parser.PlusExample | src/calc/parser/mod.rs:288-295 | `5+7` parses to `Add(5, 7)` with `empty` and to `Leaf 12` with the default applicator |
| Parser.NegTimesExample | src/calc/parser/mod.rs:233-249 | `-x*y` parses to `Mul(Minus(x), y)`, which evaluates to `-x*y` |
| Parser.PowerExample | src/calc/parser/mod.rs:250 | infix `Ipow` reduces nothing when pushed, so `a Ipow b Ipow c` builds `Pow(a, Pow(b, c))` |
| LegacyParser.ReduceReverses | src/calc/parser.rs:13-23 | an older reduction takes exactly `n` fragments and makes them the children of one verbatim node, topmost fragment first |
| LegacyParser.ArithAgrees | src/calc/parser.rs:3-11 | on parentheses, the arithmetic operators and the signs, the two revisions agree on tag and fixed arity |
| LegacyParser.CommaOnlyCounts | src/calc/parser.rs:108-110 | a comma only adds one to the top counter (an error with none); operators and fragments stay as they are |
| LegacyParser.Failures | src/calc/parser.rs:104-129 | `Empty`, `[` and `]` abort the older parse |
| LegacyParser.AdditiveStep | src/calc/parser.rs:130-165 | `+` and `-` are binary exactly after a value, and then reduce down to the innermost `(`; elsewhere they become signs and nothing is reduced |
| LegacyParser.MultiplicativeStep | src/calc/parser.rs:166-183 | `*`, `/` and infix modulo stop reducing below `+`, `-` or `(` |
| LegacyParser.FinishTakesTop | src/calc/parser.rs:189-195 | the older result is the topmost fragment after draining; fragments below it are dropped unchecked |
| LegacyParser.ReduceMirrored | src/calc/parser.rs:13-23 | one reduction in each revision, from mirrored states, succeeds in both or in neither, and leaves them mirrored |
| LegacyParser.RunMirrored | src/calc/parser.rs:103-188 | the older token loop on plain arithmetic succeeds exactly when the newer one does, and keeps the states mirrored |
| LegacyParser.ParsersMirror | src/calc/parser.rs:97-196 | on plain arithmetic, whenever the newer verbatim parse succeeds, the older one yields the same tree with every node's children reversed; the older one fails only where the newer one does |
| LegacyParser.SubtractionAcrossRevisions | src/calc/mod.rs:59 | on the infix tokens `x - y`, before any lispify, the older parser builds `Sub(y, x)`, which evaluates to `x - y`; the newer parser builds `Sub(x, y)`, which evaluates to `y - x` |
| LegacyParser.LeftoverExample | src/calc/parser.rs:189-195 | two numbers with no operator: the older parser answers the last one, the newer one rejects the leftover fragment |
| Calculator.AdditiveThroughLispify | src/calc/mod.rs:25-28 | lispify turns `x + y` and `x - y` into `+ x y` and `- x y`; the older parser reads the leading operator as a sign over `y` alone and returns that fragment, so `calculate` gives `y` or `-y` and loses `x` |
| Calculator.MultiplicativeThroughLispify | src/calc/mod.rs:25-28 | for `*` and `/` the prefix tokens parse to the same tree as the infix ones, so `calculate` gives `x * y` and `x / y`, and a zero divisor is an evaluation error |
| Calculator.SubtractionChain | src/calc/mod.rs:25-28 | any text that lexes to `x - y` gives `-y` through `calculate`, while the older parser on the infix tokens gives `Sub(y, x)`, worth `x - y` |
| Calculator.SubtractionTest | src/calc/mod.rs:92-96 | as written, `calculate("12-2")` gives `-2`; only the infix tokens, parsed without lispify, give the tree worth the 10 that the test expects |
| Calculator.LexSubtraction | src/calc/lexer.rs:114-170 | the text `12-2` lexes to `[Num 12, Sub, Num 2]` |
| Calculator.InfixValue | src/calc/mod.rs:53-59 | the node `t(y, x)` that the older parser builds for `x t y` evaluates to `x + y`, `x - y`, `x * y` or `x / y`, and division by zero is an error |
| Calculator.PrefixParse | src/calc/parser.rs:130-195 | on the prefix tokens `t x y`, a leading `+`/`-` becomes a sign over `y` alone and a leading `*`/`/` a binary node over `y, x`; the result is the topmost fragment |
| Calculator.InfixParse | src/calc/parser.rs:130-195 | the infix tokens `x t y` parse to `t` over `y, x`, in pop order |
| Applicators.HasGet | src/calc/parser/applicators.rs:6-14 | true exactly when some child is a getter |
| Applicators.Optimize | src/calc/parser/applicators.rs:25-30 | the result is a leaf exactly when the node evaluates, and then holds its value; otherwise it is the node unchanged; either way it evaluates like the node |
| Applicators.FixMulget | src/calc/parser/applicators.rs:34-54 | the rewrite fires exactly for a multiplication with a getter child whose last two children are `muk` and a getter; the result is `muk` followed by the path of the second-to-last child |
| Applicators.Basic | src/calc/parser/applicators.rs:62-80 | without the rewrite it is `optimize`; with it, it is the resolver's fragment when the lookup succeeds and the rewritten getter otherwise |
| Applicators.ApplicatorsSound | src/calc/parser/applicators.rs:25-80 | `empty`, `optimize` and `basic` never produce a getter from getter-free children, and do not change what the node evaluates to |
| Applicators.OptimizeCongruent | src/calc/parser/applicators.rs:25-30 | folding depends only on what the children evaluate to |
| Applicators.OptimizeExample | src/calc/parser/applicators.rs:87-89 | `optimize([Leaf 5, Leaf 7], Add)` is `Leaf 12` |
| Applicators.FixMulgetExamples | src/calc/parser/applicators.rs:38-47 | `[x, muk]` rewrites to `mukx`, `[muk, x]` to `mukmuk`; no rewrite for an addition or for a single child |
| Applicators.EmptyCtxMuk | src/calc/parser/applicators.rs:67-69 | with `EmptyCtx`, a firing rewrite yields the empty marker, which the evaluator rejects |
| Ctx.EmptyCtxAnswers | src/calc/ctx.rs:17-21 | `EmptyCtx` succeeds on every path with `Empty`, answers all paths alike, and keeps to the documented shapes |
| Calc.Cond | src/calc/mod.rs:15-23 | a truth value becomes 1 or 0, and 1 exactly when it holds |
| Calc.AsIndex | src/calc/mod.rs:69 | `res[0] as usize` truncates toward zero and saturates negative values at 0 |
| Calc.Eval | src/calc/mod.rs:30-81 | a leaf is its number; the empty marker and getters fail; a node fails with its first failing child's error, and otherwise applies its tag to the children's values |
| Calc.EvalAll | src/calc/mod.rs:35-38 | every child is evaluated, in order, into exactly one operand; the loop fails exactly when some child fails |
| Calc.EvalNode | src/calc/mod.rs:34-78 | a node whose children evaluate to `vs` applies its tag to exactly `vs` |
| Calc.EvalCongruent | src/calc/mod.rs:34-78 | a node's result depends only on its children's results |
| Calc.OperandOrder | src/calc/mod.rs:48-60 | `-`, `/`, `%` and `^` take `res[1]` as the left operand; division by zero is an error |
| Calc.SubtractsFirstFromSecond | src/calc/mod.rs:59 | the tree `Sub(a, b)` evaluates to `b - a` |
| Calc.AddIsSum | src/calc/mod.rs:53 | `Add` and `Sum` both sum every operand, whatever their number |
| Calc.ComparisonIsBoolean | src/calc/mod.rs:63-68 | a comparison succeeds exactly with two or more operands, and then yields 1 or 0 |
| Calc.ComparisonsComplementary | src/calc/mod.rs:63-68 | the pairs Eq/Neq, Ge/Lt and Gt/Le always sum to 1 |
| Calc.IfSelects | src/calc/mod.rs:69 | `If` succeeds exactly when operand `trunc(res[0]) + 1` exists, and then yields it |
| Calc.Signs | src/calc/mod.rs:61-62 | `Minus` negates and `Plus` returns the first operand; with none both fail |
| Calc.NoCase | src/calc/mod.rs:76 | the tags with no case (Empty, SS, List, Pair, Interp) fail whatever their operands |
| Calc.DerivedFunctions | src/calc/mod.rs:50-56 | `Aikainterp` is `interpoloi(res0, res1, res1+res2, res2, 0)`, and `Logb` is `ln(res0)/ln(res1)` |
| Calc.MinMaxReduce | src/calc/mod.rs:51-52 | `min` and `max` succeed exactly on a non-empty operand list and give its least and greatest element |
| Calc.MeanReduce | src/calc/mod.rs:55 | `kesk` succeeds exactly on a non-empty list, and its value times the count is the sum |
| Calc.MedianReduce | src/calc/mod.rs:54 | `med` succeeds exactly on a non-empty list and gives the median |
| Calc.NotFiniteExactly | src/calc/mod.rs:49-61 | evaluation fails as non-finite exactly on a zero divisor of `/` or `%`, a `logb` base whose logarithm is 0, an empty `min`, `max` or `kesk`, and `interpoloi`/`aikainterp` with equal abscissae; every other operation with its operands present gives no such error |
| Calc.MinExamples | src/calc/mod.rs:122-126 | `min(5, 10, 2)` is 2 and `min(5, -10, 2)` is -10, as trees |
| Calc.IfExamples | src/calc/mod.rs:69 | `if(0, a, b, c)` selects `a` and `if(2, a, b, c)` selects `c` |
| Calc.MeanAndAddExamples | src/calc/mod.rs:53-55 | `kesk(1, 2, 3)` is 2, and `Add(5, 7)` is 12 |
| Kipac.Aikavali | src/kipac/mod.rs:58-64 | the result is `b - a`, or `b - a` plus one day; it is `b - a` exactly when `a <= b` |
| Kipac.AikavaliWithinDay | src/kipac/mod.rs:58-64 | for two times of day, the interval lies within one day and leads from `a` to `b`, possibly across midnight |
| Kipac.Abs | src/kipac/mod.rs:66-68 | the result is non-negative and is `x` or `-x` |
| Kipac.Floor | src/kipac/mod.rs:78-80 | the greatest integral value not above `x` |
| Kipac.Ceil | src/kipac/mod.rs:82-84 | the least integral value not below `x` |
| Kipac.Trunc | src/kipac/mod.rs:94-96 | the integral value between 0 and `x` within distance 1 of `x` (rounding toward zero) |
| Kipac.Kmod | src/kipac/mod.rs:94-96 | the float remainder exists exactly for a non-zero divisor; it is smaller than the divisor in magnitude, has the sign of the dividend (or is 0), and leaves a whole number of divisors |
| Kipac.RemainderBound | src/kipac/mod.rs:94-96 | the truncated remainder is smaller than the divisor in magnitude |
| Kipac.RemainderSign | src/kipac/mod.rs:94-96 | the truncated remainder is zero or has the sign of the dividend |
| Kipac.Interpoloi | src/kipac/mod.rs:103-105 | defined exactly when `x1 != x2`; the result lies on the line through `(x1, y1)` and `(x2, 0)`, and `y2` is ignored |
| Kipac.InterpoloiEndpoints | src/kipac/mod.rs:103-105 | the interpolation gives `y1` at `x1` and 0 at `x2`, whatever `y2` is |
| Kipac.SumAppend | src/kipac/mod.rs:115-117 | the sum of a concatenation is the sum of the sums |
| Kipac.SumBounds | src/kipac/mod.rs:115-117 | `n` values between `lo` and `hi` sum to between `n*lo` and `n*hi` |
| Kipac.Mean | src/kipac/mod.rs:119-123 | defined exactly for a non-empty list; the mean times the length is the sum |
| Kipac.MinFrom | src/kipac/mod.rs:107-109 | the `f64::min` fold is a lower bound of every element and of the seed, and is one of them |
| Kipac.MaxFrom | src/kipac/mod.rs:111-113 | the `f64::max` fold is an upper bound of every element and of the seed, and is one of them |
| Kipac.Min | src/kipac/mod.rs:107-109 | a non-empty list has a minimum, which is an element and bounds every element from below |
| Kipac.Max | src/kipac/mod.rs:111-113 | a non-empty list has a maximum, which is an element and bounds every element from above |
| Kipac.MeanWithinRange | src/kipac/mod.rs:107-123 | the mean of a non-empty list lies between its minimum and maximum |
| Kipac.Insert | src/kipac/mod.rs:137-141 | inserting into a sorted list keeps it sorted and adds exactly that element |
| Kipac.Sort | src/kipac/mod.rs:137-141 | the result is sorted and is a permutation of the input |
| Kipac.SortedUnique | src/kipac/mod.rs:137-141 | two sorted permutations of the same values are the same list, so the sort order is unique |
| Kipac.Median | src/kipac/mod.rs:125-134 | defined exactly for a non-empty list |
| Kipac.SortedMedian | src/kipac/mod.rs:125-134 | on a sorted list the median is the middle element for an odd length, and the average of the two middle elements for an even one |
| Kipac.MedianPermutationInvariant | src/kipac/mod.rs:125-141 | the median depends only on which values occur, not on their order |
| Kipac.MedianWithinRange | src/kipac/mod.rs:125-134 | the median of a non-empty list lies between its minimum and maximum |
| Kipac.PrimitiveTests | src/kipac/mod.rs:147-198 | the repository's cases for `aikavali`, `abs`, `floor`, `ceil` and `kmod`, plus three extra `kmod` cases (`kmod(12, 2)`, `kmod(17, 5)`, `kmod(14, 4)`) |
| Kipac.MaxMinTests | src/kipac/mod.rs:210-218 | `max` of the test list is 5, `min` is -10, and `min([0, 1])` is 0 |
| Kipac.MeanTest | src/kipac/mod.rs:220-222 | `mean([1, 2, 3])` is 2 |
| Kipac.MedianTest | src/kipac/mod.rs:224-226 | `median([1, 2, 3])` is 2 |

## Left out

- `src/main.rs` (the stdin/stdout loop) and `benches/kilac.rs` (the benchmark harness) are I/O and timing glue. They are not part of this model.
- `calculate` (`src/calc/mod.rs:25-28`) is `Calculator.Calculate`. It calls a free `lex(&s)` that `src/calc/lexer.rs` does not define; the model uses `Lexer.Lex`, the model of `Lexer::lex`. The older `eval` panics where `Calc.Eval` returns an `Err`. Of the end-to-end tests (`src/calc/mod.rs:87-130`):
  - `test_sub` is stated on the text (`Calculator.SubtractionTest`);
  - `test_add`, `test_mul` and `test_div` follow at the token level from `Calculator.AdditiveThroughLispify` and `Calculator.MultiplicativeThroughLispify`;
  - `test_mod`, `test_pow`, `test_arithmetic`, `test_min` and `unary` are not stated as lemmas.

  Other evaluator facts are stated on hand-built trees (`Calc.MinExamples`).
- The transcendental functions (`log10`, `ln`, `sqrt`, `exp`, `powf`, the trig functions) are fields of the `Calc.Math` parameter, not definitions. Rust's `str::parse::<f64>` is the `num` parameter of `Lexer.Lex`. `DecimalNumber` is one instance, used for the worked examples; it does not accept `inf`, `NaN` or `infinity` spellings.
- Lexer.IsBlank / Lexer.IsAlphanumeric / Lexer.Scan: the character classes follow Rust's `char::is_whitespace` and `char::is_alphanumeric` only up to U+00FF. For a letter such as `α`, or a space such as U+3000, the source makes an `Expr` token or skips the character; the model stops with `Stuck`.
- Lexer.Scan: the input is a sequence of characters, not UTF-8 bytes. So the byte-offset stepping of `consume_char` (`src/calc/lexer.rs:59-65`) is not modelled. When the last character is multi-byte (e.g. `pää`), its `unwrap_or((1, ' '))` advances one byte into that character, and the next slice panics. The model lexes such input normally.
- Lexer.ScanStuck: where the source's loop never advances and so never ends, the model stops with `Err(Stuck(c))`. Where it panics on trailing whitespace, the model returns `Err(NoNextChar)`.
- The long `interpoloi(...)` lexer test (`src/calc/lexer.rs:183-245`) is not stated as a lemma. `Lexer.ScanPieces` and `Lexer.LexAppend` give the route to it, piece by piece, but the sixty-token instance is not spelled out.
- Calc.Apply: `Err(NotFinite)` stands for exactly the inputs that have no real value: `/` or `%` by zero, `logb` with `ln(res[1]) == 0`, an empty `min`, `max` or `kesk`, and `interpoloi` or `aikainterp` with equal abscissae (`Calc.NotFiniteExactly`). There the source computes `±inf` or `NaN`. Other non-finite results of the source are ordinary `Ok` reals here:
  - overflow: `1e308*10` is `inf` in the source, and any finite real in the model; the same holds for `+`, `-`, `sum` and `/`;
  - the `Calc.Math` functions: `ln(0)` is `-inf` and `sqrt(-1)` is `NaN` in the source, while the model returns whatever real the `Math` parameter gives;
  - `f64` rounding is not modelled.
  So the effects of `inf` and `NaN` are lost. A comparison never sees `NaN`, while in the source every comparison with `NaN` is false (`Eq` gives 0, `Neq` gives 1). `optimize` never folds to `Leaf(inf)`.
- Calc.Eval: where an operand would be `NaN` or `±inf` because of a `NotFinite` case, the model fails instead of evaluating on. For example, an `If` whose selector is `NaN` picks `res[1]` in the source (`NaN as usize` is 0); in the model it fails. Where the operand would be non-finite because of overflow or a `Math` function, the model evaluates on with an ordinary real.
- Kipac.Kmod: `a % 0` is `NaN` in the source; here it is `None`. An infinite dividend is not representable.
- Kipac.Mean: the mean of an empty list is `0/0 = NaN` in the source; here it is `None`.
- Kipac.Min / Kipac.Max: the source folds from a `NaN` seed with `f64::min`/`f64::max`, which ignore `NaN`. So a `NaN` element is skipped, and an empty list gives `NaN`. The model has no `NaN`: an empty list gives `None`, and no element is ever skipped.
- Kipac.Interpoloi: with `x1 == x2` the source divides by zero and returns `±inf` or `NaN`; here it is `None`.
- Kipac.Sort / Kipac.Median: `partial_cmp().unwrap()` panics on `NaN` in the source. There is no `NaN` to sort here.
- Applicators.Optimize: because of the `Calc.Apply` choice above, `optimize` does not fold a node in a `NotFinite` case (e.g. `1/0` stays a node, where the source builds `Leaf(inf)`). A node that overflows, or whose `Math` function gives `inf` or `NaN` in the source, folds to the ordinary real the model computes. For every finite result it folds as the source does.
- The older parser's `[` and `]` are `unimplemented!` in the source, so the model gives `Err(Unsupported)` (`LegacyParser.Failures`). The current parser's treatment of them (push, with a counter) is modelled as written.
- Overflow of the `usize` arity counters is not modelled.
