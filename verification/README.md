# Verified models of the Fluid Framework's self-contained algorithms

A Dafny model of nine components of the repository whose logic stands on its own, with proofs of what they
promise. `dafny verify dfyconfig.toml` checks the whole project.

| component | files |
|---|---|
| the math engine: exact constants, matching and substitution, the rewrite rules, coefficients of polynomials, linear equations | `MathExpr`, `MathConstants`, `MathMatch`, `MathInstances`, `MathRules`, `MathClash`, `MathSimplify`, `MathSettled`, `MathNormalize`, `MathUnsafe`, `MathPoly`, `MathSolve`, `MathRoots` |
| its lexer, parser and printer, and the rule tables as text | `MathLexer`, `MathLexStream`, `MathTokens`, `MathParser`, `MathGrammar`, `MathComplete`, `MathText`, `MathPrinter`, `MathShortest`, `MathRoundTrip`, `MathRuleText` |
| the ProseMirror bridge: the piece table of the transaction builder, slices as flat operations | `TombstoneText`, `PieceTable`, `SliceOps`, `SliceEdges` |
| the longest increasing subsequence | `Lis` |
| the range tracker | `RangeTracker` |
| the heap with positions | `Heap` |
| the restartable timer and the promise timer | `Timer`, `EventLoop` |
| the promise cache | `PromiseCache`, `EventLoop` |
| token lists | `TokenList` |
| what several of them use | `Common`, `Options` |

Code that the repository writes as expressions and recursion is modelled by functions. Code that changes things
step by step is modelled by classes and methods with the same fields, loops and branches, each proved against a
function or a property of its old state; the lemmas are about those functions. The clock, timeouts and the
settling of promises are steps of a state machine, and the lemmas speak about every sequence of steps.

Numbers of type INTEGER are mathematical integers with JavaScript's truncated remainder, REAL is a mathematical
real, and the ticks of clocks are integers.

## Where the code does less than it promises

Each of these is stated by a lemma that gives the input, next to one that says exactly when the code does what it
is meant to do.

- Literal matching drops its flag below a binary operator, so a rule that repeats a name can fire on different
  terms: `3(2p)+3(2q)` becomes `6(2p)` and in the end `12p` (`UnsafeFiringLosesValue`, `LiteralMatchExact`).
- The printer never parenthesises a unary minus and writes nothing for a product: `a(-b)` prints as `a-b`, and 2
  times 3 as `23` (`LostTrees`, `RoundTripExactly`).
- A product of variables without a number loses its coefficient (`SquareIsLost`, `AccumExact`).
- A `?name` or `:type` token does not include its mark, so such texts are not tiled by their tokens
  (`MarkIsUntiled`, `TokensTile`).
- A timer restarted for longer falls back to the older duration on the next restart without one
  (`OlderDurationReturns`, `OmittedDurationOfCalls`).
- The rejection of a promise that has already been removed takes out the newer promise of the same key
  (`StaleRejection`, `RejectionIsOwn`).
- With the base of a range tracker moved beyond its last primary, a pair below the base is accepted and puts the
  ranges out of order, though the answers stay right (`AddBelowBase`, `AddOrdered`, for whole runs `RunOrdered`).
- A fragment rebuilt from a slice that is open only at its end is reported as open at its start too when the open
  block is an only child (`OpenStartReported`, `OpenStartComesBack`).
- A slice whose first block is open at its start loses that block, and its content is put outside, unless it is
  bare and another block follows (`SplitParagraph`, `ComesBackIff`).
- A removal that spans a deleted thing is refused although the text it covers is contiguous (`RemoveAcrossGap`,
  `AcceptedIffNeighbours`).
- When an inserted thing is split, both halves carry the whole text: after `xy` and a `z` in between the text is
  `xzy`, but the things carry `xyzxy` (`InsertInside`, `CarriedIff`; on the calls, `AddSequencedDelta`).
- When a removal is spread over several things, each carries the length of the whole: with `ab` annotated in `abcd`
  and `bc` removed, the things carry 4 (`RemoveAcrossMark`, `RemovedIff`; on the calls, `AddSequencedDelta`).

## Model

| member | source | states |
|---|---|---|
| Lis.Lis | examples/data-objects/flow-util-lib/src/lis.ts:10-77 | for every integer array the result is a strictly increasing subsequence of it, and none is longer |
| Lis.Place | examples/data-objects/flow-util-lib/src/lis.ts:28-67 | one turn of the main loop: the table of best tails stays right for one more element, whatever the branch |
| Lis.SearchTail | examples/data-objects/flow-util-lib/src/lis.ts:43-55 | the binary search finds the first tail that is not smaller |
| Lis.Reconstruct | examples/data-objects/flow-util-lib/src/lis.ts:69-76 | following the predecessors from the last tail, overwriting the table, yields an increasing subsequence as long as the table |
| Lis.DominatesStep | examples/data-objects/flow-util-lib/src/lis.ts:57-66 | each tail stays the least end of an increasing subsequence of its length when one tail is replaced or appended |
| Lis.TableRecord | examples/data-objects/flow-util-lib/src/lis.ts:33-39 | recording an element in the table keeps every invariant of the table: tails, ranks and predecessor chains |
| Lis.ChainStep | examples/data-objects/flow-util-lib/src/lis.ts:61-65 | the recorded predecessor is smaller, earlier and one rank lower |
| Lis.NoneLonger | examples/data-objects/flow-util-lib/src/lis.ts:69-71 | no increasing subsequence is longer than the table of tails |
| MathConstants.GcdScale | examples/data-objects/math/src/mathExpr.ts:949-957 | gcd(ka, kb) = k gcd(a, b) for every nonzero k of either sign, with the truncated remainder |
| MathConstants.Bezout | examples/data-objects/math/src/mathExpr.ts:949-957 | the signed gcd divides both numbers and is a combination of them |
| MathConstants.SimplifyCanonical | examples/data-objects/math/src/mathExpr.ts:986-997 | two fractions simplify to the identical constant if and only if they are equal, for all nonzero denominators of any sign |
| MathConstants.GcdNatural | examples/data-objects/math/src/mathExpr.ts:949-957 | of two natural numbers the gcd is a natural number, so it is the greatest common divisor |
| MathConstants.SimplifyIsLowest | examples/data-objects/math/src/mathExpr.ts:986-997 | a fraction becomes an integer if and only if it is one, and a fraction without a common factor otherwise |
| MathConstants.SimplifyIdempotent | examples/data-objects/math/src/mathExpr.ts:986-997 | a simplified fraction simplifies to itself |
| MathConstants.SimplifyKeepsValue | examples/data-objects/math/src/mathExpr.ts:986-997 | simplifying keeps the value of the fraction |
| MathConstants.NegateValue | examples/data-objects/math/src/mathExpr.ts:927-936 | negation negates the value and undoes itself, for integers, rationals and reals |
| MathConstants.IsNegativeValue | examples/data-objects/math/src/mathExpr.ts:938-947 | a constant counts as negative exactly when its value is below zero, whatever the signs of a fraction |
| MathConstants.PromoteKeepsValues | examples/data-objects/math/src/mathExpr.ts:999-1028 | promotion brings two constants to one type without changing their values |
| MathConstants.LcmFactors | examples/data-objects/math/src/mathExpr.ts:959-961 | the least common multiple is a multiple of both, with the exact cofactors that lcd divides out |
| MathConstants.LcmIsLeast | examples/data-objects/math/src/mathExpr.ts:959-961 | every common multiple is a multiple of it |
| MathConstants.LcdKeepsValues | examples/data-objects/math/src/mathExpr.ts:963-984 | lcd brings two fractions to one denominator and keeps both values |
| MathConstants.RationalOpExact | examples/data-objects/math/src/mathExpr.ts:900-925 | the operations on rationals give the exact value of the operation on the values |
| MathConstants.ApplyBinopExact | examples/data-objects/math/src/mathExpr.ts:1324-1355 | constant folding across integers, rationals and reals gives a constant of exactly the value of the operation, and is defined for every nonzero divisor, and for powers if and only if the exponent is natural |
| MathConstants.ApplyBinopForm | examples/data-objects/math/src/mathExpr.ts:1324-1355 | integers stay integers except that they divide to lowest terms, a real makes the result real, fractions multiply and divide to lowest terms and are added over their common denominator |
| MathMatch.Environment.BindName | examples/data-objects/math/src/mathExpr.ts:1188-1206 | binding into the environment in place agrees with the binding function, for a new name and for a repeated one |
| MathMatch.Environment.MatchInto | examples/data-objects/math/src/mathExpr.ts:1220-1317 | matching that writes into the environment agrees with the matching function in result and bindings |
| MathMatch.SubstMeaning | examples/data-objects/math/src/mathExpr.ts:1711-1737 | a substituted template has the value of the template with its names standing for the values of what they are bound to |
| MathMatch.MatchExtends | examples/data-objects/math/src/mathExpr.ts:1188-1206 | a match never changes a name that is bound |
| MathMatch.MatchSound | examples/data-objects/math/src/mathExpr.ts:1220-1317 | after a match the pattern, read with the bindings, has the value of the expression, whenever repeated names are bound to expressions that literal matching can compare |
| MathMatch.MatchSoundUnop | examples/data-objects/math/src/mathExpr.ts:1220-1317 | the same for a unary minus in the pattern, also against a negative constant |
| MathMatch.MatchThenSubst | examples/data-objects/math/src/mathExpr.ts:1711-1737 | without repeated names, match followed by substitution gives back the value of the expression under every valuation |
| MathMatch.LiteralMatchSound | examples/data-objects/math/src/mathExpr.ts:1220-1317 | literal matching accepts only expressions alike the term, while the term is safe |
| MathMatch.AlikeMatches | examples/data-objects/math/src/mathExpr.ts:1220-1317 | and it accepts every expression alike the term, binding nothing |
| MathMatch.LiteralMatchExact | examples/data-objects/math/src/mathExpr.ts:1220-1317 | literal matching accepts exactly the expressions alike the term if and only if no variable lies below a binary operator of the term, where the literal flag is dropped |
| MathInstances.InstanceMatches | examples/data-objects/math/src/mathExpr.ts:1188-1317 | whatever is put in for the names of a pattern, each of its type and repeated ones comparable: matching the result succeeds and binds exactly that |
| MathInstances.MatchIsInstance | examples/data-objects/math/src/mathExpr.ts:1188-1317 | a pattern without repeated names that matches binds exactly its names, each to an expression of its type, and the expression is that instance of the pattern |
| MathInstances.MatchConstantIff | examples/data-objects/math/src/mathExpr.ts:882-895 | a constant matches the same number and nothing else: fractions as they are written, an integer a fraction over 1, a real whatever has its value |
| MathRules.UnitRulesHold | examples/data-objects/math/src/mathExpr.ts:1944-1947 | the rules for 1 and 0 keep the value for all operands |
| MathRules.NegativeConstantRulesHold | examples/data-objects/math/src/mathExpr.ts:1948-1952 | the rules that move the sign of a negative constant keep the value |
| MathRules.ProductRulesHold | examples/data-objects/math/src/mathExpr.ts:1954-1959 | reassociation and the distributive laws keep the value |
| MathRules.ConstantFirstRulesHold | examples/data-objects/math/src/mathExpr.ts:1961-1964 | the rules that move constants to the front keep the value |
| MathRules.NegativeFactorRulesHold | examples/data-objects/math/src/mathExpr.ts:1965-1966 | the rules for a negated right factor keep the value |
| MathRules.MinusRulesHold | examples/data-objects/math/src/mathExpr.ts:1967-1972 | the rules that turn double signs around keep the value |
| MathRules.SumRulesHold | examples/data-objects/math/src/mathExpr.ts:1973-1977 | the rules that open parenthesised sums keep the value |
| MathRules.LikeTermRulesHold | examples/data-objects/math/src/mathExpr.ts:1979-1980 | the rules that combine like terms keep the value when the exec step folds the coefficients |
| MathRules.FoldRulesHold | examples/data-objects/math/src/mathExpr.ts:1981-1986 | the rules that fold the constants of a sum keep the value |
| MathRules.BothSidesRuleHolds | examples/data-objects/math/src/mathExpr.ts:1988-1991 | each of the four rules that collect a linear equation keeps its truth for every x |
| MathRules.NormalizerRulesHold | examples/data-objects/math/src/mathExpr.ts:1373-1382 | the rules that clear fractions keep the truth of the equation wherever no divisor is zero |
| MathSimplify.ExecSound | examples/data-objects/math/src/mathExpr.ts:1786-1832 | the names set by an exec step have the values that its rule relies on |
| MathSimplify.TablesAreSound | examples/data-objects/math/src/mathExpr.ts:1942-1992 | every rule of both tables is sound under every assignment of values |
| MathSimplify.FiringSound | examples/data-objects/math/src/mathExpr.ts:1758-1784 | a rule that matches, runs its exec step and substitutes keeps the value wherever the expression has one, if the names it repeats are bound safely |
| MathSimplify.BuildIfMatchIsFiring | examples/data-objects/math/src/mathExpr.ts:1758-1784 | the table search returns a firing of one of its rules |
| MathSimplify.RewritePreserves | examples/data-objects/math/src/mathExpr.ts:1902-2088 | one rewrite or constant fold at any subterm keeps the value of the whole |
| MathSimplify.RunPreserves | examples/data-objects/math/src/mathExpr.ts:1902-2088 | so does any finite chain of them |
| MathSimplify.SimplifyPreserves | examples/data-objects/math/src/mathExpr.ts:1902-2088 | when simplifyExpr returns and every rule fired safely on the way, the result has the value of the input under every valuation |
| MathSimplify.NormalizePreserves | examples/data-objects/math/src/mathExpr.ts:1373-1383 | the same for normalize |
| MathSettled.RuleFires | examples/data-objects/math/src/mathExpr.ts:1758-1784 | a rule fires on every instance of its pattern whose constants its exec step wants, and gives that instance of its template |
| MathSettled.FirstRuleFires | examples/data-objects/math/src/mathExpr.ts:1758-1784 | of the rules that apply the first in the table fires |
| MathSettled.OutermostFirst | examples/data-objects/math/src/mathExpr.ts:1902-2088 | a rule that applies to the whole is used before anything inside, and its result takes the place of the whole |
| MathSettled.OperandsNext | examples/data-objects/math/src/mathExpr.ts:2002-2010 | when none applies the operands are simplified, and the whole again if one of them has changed |
| MathSettled.SimplifySettles | examples/data-objects/math/src/mathExpr.ts:1902-2088 | in a result no two numbers are left to be folded, no rule of the table applies to any operation, no minus stands over a number and every fraction below is in lowest terms; an unchanged result is the expression itself |
| MathSettled.SettledStays | examples/data-objects/math/src/mathExpr.ts:1902-2088 | such an expression is given back as it is |
| MathSettled.NumbersFold | examples/data-objects/math/src/mathExpr.ts:1935-1940 | two numbers are folded at once into a number of exactly their value and in the form of the operation |
| MathSettled.MoreFuel | examples/data-objects/math/src/mathExpr.ts:1902-2088 | a run that has ended ends in the same way with a larger bound |
| MathNormalize.NormalizeClears | examples/data-objects/math/src/mathExpr.ts:1371-1383 | normalizing is multiplying by the denominators of the sides, whatever they are, and simplifying |
| MathNormalize.NormalizeSettles | examples/data-objects/math/src/mathExpr.ts:1371-1383 | so a normalized equation is settled as well |
| MathUnsafe.UnsafeFiringLosesValue | examples/data-objects/math/src/mathExpr.ts:1902-1992 | without safe bindings it is false: through the table, simplifyExpr makes 6(2p) and in the end 12p of 3(2p)+3(2q), which is another value |
| MathUnsafe.SumFires | examples/data-objects/math/src/mathExpr.ts:1758-1784 | the table search passes over every rule before the like terms and fires that one |
| MathClash.ClashNoMatch | examples/data-objects/math/src/mathExpr.ts:1226-1317 | a pattern whose shape differs from the expression does not match, whatever is bound |
| MathRuleText.SimplifierTextsRead | examples/data-objects/math/src/mathExpr.ts:1942-1992 | the parser turns the 43 rule texts of the simplifier, pattern and template, into exactly the rules proved sound |
| MathRuleText.NormalizerTextsRead | examples/data-objects/math/src/mathExpr.ts:1375-1377 | the same for the three texts of the normalizer |
| MathRuleText.TextsBuild | examples/data-objects/math/src/mathExpr.ts:1758-1784 | buildIfMatch over texts, each parsed when it is used, gives the result of the table search over the rules that the texts are read as |
| MathRuleText.SimplifierBuilds | examples/data-objects/math/src/mathExpr.ts:1758-1784 | so rewriting by the texts of simplifyExpr is rewriting by its rules, for every expression |
| MathRuleText.NormalizerBuilds | examples/data-objects/math/src/mathExpr.ts:1373-1382 | the same for normalize |
| MathRuleText.TextsPreserve | examples/data-objects/math/src/mathExpr.ts:1758-1784 | and what either table of texts makes of an expression has its value, when the rule fires safely |
| MathRuleText.SoundReads | examples/data-objects/math/src/mathExpr.ts:1213-1217 | parsing the text of a word gives the expression of the word |
| MathPoly.Coefficients.AddAt | examples/data-objects/math/src/mathExpr.ts:1552-1647 | adding a term to a slot of the coefficient array in place |
| MathPoly.Coefficients.Accumulate | examples/data-objects/math/src/mathExpr.ts:1552-1647 | the recursive accumulation in place agrees with its function |
| MathPoly.WalkProduct | examples/data-objects/math/src/mathExpr.ts:1448-1523 | the walk over a product finds its numeric factor and its degree |
| MathPoly.AccumValue | examples/data-objects/math/src/mathExpr.ts:1552-1647 | the polynomial gains the signed value of the expression, less the products without a number, for every x |
| MathPoly.AccumExact | examples/data-objects/math/src/mathExpr.ts:1552-1647 | accumulation is exact for every x if and only if every product that is not negated has a numeric factor |
| MathPoly.SquareIsLost | examples/data-objects/math/src/mathExpr.ts:1448-1523 | x times x gets a slot without a coefficient |
| MathPoly.EquationValue | examples/data-objects/math/src/mathExpr.ts:1552-1673 | for an equation the polynomial is left side minus right side |
| MathSolve.LinearEquationValue | examples/data-objects/math/src/mathExpr.ts:1552-1673 | a linear equation is true exactly where v is minus the coefficient of degree 0 over that of degree 1 |
| MathSolve.SolvePolyFindsRoot | examples/data-objects/math/src/mathExpr.ts:1675-1705 | with a nonzero coefficient of degree 1 the simplified quotient is the root, whatever the variables stand for |
| MathSolve.SolveAnswers | examples/data-objects/math/src/mathExpr.ts:1675-1705 | whenever solve ends, every rule fired safely and the normalized equation is linear in v, its answer is true exactly where the equation that was given is, and is v = root |
| MathSolve.LinearHasAnswer | examples/data-objects/math/src/mathExpr.ts:1675-1705 | for a linear equation solve never says that there is no answer |
| MathRoots.SolveExactly | examples/data-objects/math/src/mathExpr.ts:1675-1705 | for a linear equation whose summands are tidy solve answers v = root with a number in lowest terms, the only one for which the equation is true; otherwise the first summand that is not tidy decides: on a minus sign or a fraction the run never ends, else the normalized equation is handed back |
| MathRoots.SumOfProductsIs | examples/data-objects/math/src/mathExpr.ts:1847-1900 | the test is passed by sums and differences of products that nest to the left and start with no power, and the first summand that is not one decides |
| MathRoots.RootSimplifies | examples/data-objects/math/src/mathExpr.ts:1675-1705 | the quotient -c0/c1 is always simplified to a number in lowest terms, which is the root |
| MathRoots.NoSlopeNoAnswer | examples/data-objects/math/src/mathExpr.ts:1675-1705 | without a slope solve never answers, unless the equation is handed back |
| MathLexer.LexItems | examples/data-objects/math/src/mathExpr.ts:615-813 | well-formed items anywhere in a text are read one by one into their tokens, the command stack being as before |
| MathLexer.LexArgs | examples/data-objects/math/src/mathExpr.ts:737-762 | the operands of an open command are read, each closing brace counts one down, and the last takes the command off the stack |
| MathLexer.LexWellFormed | examples/data-objects/math/src/mathExpr.ts:615-813 | a well-formed text is lexed to its end into the tokens of its items, and no command stays open |
| MathLexer.StepLeaf | examples/data-objects/math/src/mathExpr.ts:665-812 | one turn of the loop reads one item that opens no command |
| MathLexer.CharactersAre | examples/data-objects/math/src/mathExpr.ts:556-563 | the letters and digits of the lexer, one by one |
| MathLexer.PunctuationLexes | examples/data-objects/math/src/mathExpr.ts:665-812 | each punctuation mark is a token of its own kind |
| MathLexer.StrayIsSkipped | examples/data-objects/math/src/mathExpr.ts:730-812 | characters that mean nothing, an opening brace included, are passed over |
| MathLexStream.Lexer.Get | examples/data-objects/math/src/mathExpr.ts:540-551 | reading a character never leaves the text |
| MathLexStream.Lexer.LexId | examples/data-objects/math/src/mathExpr.ts:567-577 | reads the longest run of letters |
| MathLexStream.Lexer.LexNumber | examples/data-objects/math/src/mathExpr.ts:650-663 | reads the longest run of digits |
| MathLexStream.Lexer.LexSpace | examples/data-objects/math/src/mathExpr.ts:601-613 | reads the longest run of spaces as one token |
| MathLexStream.Lexer.LexBackslash | examples/data-objects/math/src/mathExpr.ts:579-599 | a command is looked up and pushed when it takes operands; an unknown one fails |
| MathLexStream.Lexer.LexCloseBrace | examples/data-objects/math/src/mathExpr.ts:737-762 | a closing brace ends an operand of the innermost command |
| MathLexStream.Lexer.LexOther | examples/data-objects/math/src/mathExpr.ts:665-812 | every other character, as one step of the lexer |
| MathLexStream.Lexer.LexSuperscript | examples/data-objects/math/src/mathExpr.ts:710-730 | a superscript or subscript is pushed as a command with one operand |
| MathLexStream.Lexer.LexNext | examples/data-objects/math/src/mathExpr.ts:615-813 | one turn of the loop is one step of the lexer, whatever the character |
| MathLexStream.Lexer.LexCharStream | examples/data-objects/math/src/mathExpr.ts:615-813 | the loop over the stream, with its tokens and its command stack, computes the recursive definition |
| MathTokens.CommandsClosed | examples/data-objects/math/src/mathExpr.ts:579-813 | in a well-formed text each command of arity n gets n-1 middle tokens and one end token, its endTok, properly nested: whatever opens after the command and before one of these tokens is closed before it |
| MathTokens.ArgsBalanced | examples/data-objects/math/src/mathExpr.ts:579-813 | the same for the operands of one command, whose own middle and end tokens stand outside all inner commands |
| MathTokens.OwnDepthConcat | examples/data-objects/math/src/mathExpr.ts:737-762 | tokens put one after the other keep the depth of every middle and end token |
| MathTokens.TokensTile | examples/data-objects/math/src/mathExpr.ts:615-813 | the tokens tile the text without gaps if and only if it has no ?name or :type, whose mark belongs to no token |
| MathTokens.MarkIsUntiled | examples/data-objects/math/src/mathExpr.ts:615-813 | the only token of ?a starts at 1 |
| MathTokens.PosAtToken | examples/data-objects/math/src/mathExpr.ts:328-338 | the position of a token is the total length of the tokens before it |
| MathTokens.TokenAtPos | examples/data-objects/math/src/mathExpr.ts:340-347 | finds the first token that starts at the position |
| MathTokens.PositionRoundTrip | examples/data-objects/math/src/mathExpr.ts:328-347 | on tokens that tile a text posAtToken is the start of the token and tokenAtPos finds it again |
| MathTokens.TilesPositions | examples/data-objects/math/src/mathExpr.ts:328-338 | on such tokens the total of the lengths is the position |
| MathParser.TokenStream.Primary | examples/data-objects/math/src/mathExpr.ts:2178-2236 | reading a primary from the stream agrees with the function |
| MathParser.TokenStream.Leading | examples/data-objects/math/src/mathExpr.ts:2238-2256 | the primary at the start of an expression, negated after a minus sign |
| MathParser.TokenStream.Expression | examples/data-objects/math/src/mathExpr.ts:2238-2301 | the precedence loop over the stream agrees with the recursive definition |
| MathGrammar.PrimaryReads | examples/data-objects/math/src/mathExpr.ts:2178-2236 | a parenthesised tree, a number, a name or a pattern variable is read as itself |
| MathGrammar.ParseReads | examples/data-objects/math/src/mathExpr.ts:2238-2301 | every syntax tree that fits the precedences is read from its tokens into its expression, to its last token |
| MathGrammar.OperatorsNest | examples/data-objects/math/src/mathExpr.ts:203-211 | of two operators between three operands the second takes the middle one if and only if it binds tighter: implication is the loosest, then equality, sums and products |
| MathComplete.PrimaryComplete | examples/data-objects/math/src/mathExpr.ts:2178-2236 | a primary read without an error is one of the grammar over exactly the tokens consumed |
| MathComplete.ExprComplete | examples/data-objects/math/src/mathExpr.ts:2238-2301 | whatever is read without an error, and without a parenthesis open at the end of the input, is the expression of a fitting syntax tree over exactly the tokens consumed; the next token cannot continue it |
| MathText.ParseTextReads | examples/data-objects/math/src/mathExpr.ts:1213-1217 | lexing and parsing the text of a fitting tree gives its expression, when no leaf runs into the next |
| MathPrinter.DecimalIsNumber | examples/data-objects/math/src/mathExpr.ts:2213-2214 | the decimal text of a number is read back as the number |
| MathPrinter.PrintIsText | examples/data-objects/math/src/mathExpr.ts:1042-1111 | the printed text is that of one syntax tree |
| MathPrinter.PrintableFits | examples/data-objects/math/src/mathExpr.ts:1077-1094 | with the parentheses the printer shows, that tree fits the precedences |
| MathShortest.PrintedIsShortest | examples/data-objects/math/src/mathExpr.ts:1042-1111 | no text of the grammar that means the tree and keeps its marks is shorter than what is printed |
| MathShortest.PrintedSpells | examples/data-objects/math/src/mathExpr.ts:1042-1111 | and for the trees that can be read back the printed text is one of these |
| MathShortest.MinimalParentheses | examples/data-objects/math/src/mathExpr.ts:1077-1094 | so without marks every parenthesis is called for: no text of the grammar that means the tree is shorter |
| MathShortest.MarkedInParens | examples/data-objects/math/src/mathExpr.ts:1077-1094 | a marked operation is printed in parentheses, wherever it stands |
| MathPrinter.TreeOfPrinted | examples/data-objects/math/src/mathExpr.ts:1042-1111 | that tree means the expression, up to the parenthesized marks |
| MathPrinter.ParserUndoesPrinter | examples/data-objects/math/src/mathExpr.ts:1042-1111 | the parser undoes the printer on printable trees of letters, integers, +, -, product, = and unary minus |
| MathRoundTrip.TreeScan | examples/data-objects/math/src/mathExpr.ts:2238-2301 | what was read has as many products as places where one is implied, balanced parentheses and no doubled sign |
| MathRoundTrip.PrintScan | examples/data-objects/math/src/mathExpr.ts:1042-1111 | printing loses one such place for each bad right factor and doubles a sign for each minus over a sign |
| MathRoundTrip.RoundTripExactly | examples/data-objects/math/src/mathExpr.ts:1042-1111 | the parser undoes the printer if and only if the tree is printable: unary minus stands over no constant and no unary minus and is no right factor, and no number follows a factor that ends in one |
| MathRoundTrip.LostTrees | examples/data-objects/math/src/mathExpr.ts:1108-1111 | a(-b) prints as a-b, 2 times 3 as 23, minus 5 as the constant -5, and minus minus a as --a |
| TokenList.FindToken | examples/data-objects/flow-util-lib/src/tokenlist.ts:8-27 | the search that skips from space to space finds the first place where the token stands between spaces or ends, for every list and every token |
| TokenList.NoneAfter | examples/data-objects/flow-util-lib/src/tokenlist.ts:10 | no token can start between a failed occurrence and the next space |
| TokenList.FindAgreesWithSplit | examples/data-objects/flow-util-lib/src/tokenlist.ts:8-27 | for a nonempty token without spaces that place is the start of the first piece equal to it when the list is split on spaces, and there is none if there is no such piece |
| TokenList.SplitJoins | examples/data-objects/flow-util-lib/src/tokenlist.ts:8-27 | joining the pieces of a list gives the list back |
| TokenList.JoinSplits | examples/data-objects/flow-util-lib/src/tokenlist.ts:8-27 | splitting joined pieces gives the pieces back |
| TokenList.UnsetRemovesOnePiece | examples/data-objects/flow-util-lib/src/tokenlist.ts:38-49 | unset takes out the first piece equal to the token with one space, and nothing else |
| TokenList.SetAddsOnce | examples/data-objects/flow-util-lib/src/tokenlist.ts:30-36 | set appends the token as a piece unless it is one, and doing it again changes nothing |
| TokenList.UnsetUndoesSet | examples/data-objects/flow-util-lib/src/tokenlist.ts:30-49 | unset undoes set when the token was absent |
| TokenList.Toggle.Compute | examples/data-objects/flow-util-lib/src/tokenlist.ts:51-62 | exactly the tokens of the list move from toAdd to toRemove; the others keep their order |
| RangeTracker.AddAnswers | common/lib/common-utils/src/rangeTracker.ts:94-135 | after add the tracker answers the new secondary from the new primary on, and as before below it |
| RangeTracker.AddRefines | common/lib/common-utils/src/rangeTracker.ts:94-135 | add keeps the refinement of the log of pairs |
| RangeTracker.AddOrdered | common/lib/common-utils/src/rangeTracker.ts:94-135 | an accepted pair keeps the ranges disjoint and in order if and only if it repeats the last secondary or does not lie below the base |
| RangeTracker.RebaseAnswers | common/lib/common-utils/src/rangeTracker.ts:167-193 | moving the base changes no answer from the new base on |
| RangeTracker.RebaseRefines | common/lib/common-utils/src/rangeTracker.ts:167-193 | moving the base keeps the refinement, wherever it is moved |
| RangeTracker.RebaseOrdered | common/lib/common-utils/src/rangeTracker.ts:167-193 | moving the base keeps the ranges disjoint and in order, wherever it is moved |
| RangeTracker.GetMonotone | common/lib/common-utils/src/rangeTracker.ts:143-160 | later primaries never have smaller secondaries |
| RangeTracker.RunRefines | common/lib/common-utils/src/rangeTracker.ts:94-193 | after any sequence of adds and base moves the tracker answers, from its base on, the secondary of the last accepted pair at or below the primary; the end of the head range is lastSecondary |
| RangeTracker.RunOrdered | common/lib/common-utils/src/rangeTracker.ts:94-193 | the ranges are disjoint and in order throughout a run if and only if each of its accepted pairs repeats the last secondary or does not lie below the base of its time |
| RangeTracker.DiagonalIsOneRange | common/lib/common-utils/src/rangeTracker.ts:94-135 | pairs that each go one further than the last in both numbers are kept in one range, however many they are |
| RangeTracker.ReachedInPlace | common/lib/common-utils/src/rangeTracker.ts:94-193 | which holds in every run that moves the base no further than the last primary |
| RangeTracker.AddBelowBase | common/lib/common-utils/src/rangeTracker.ts:94-193 | with the base moved to 10 beyond the only primary 0, the pair (5, 1) is accepted and puts the ranges out of order |
| RangeTracker.RangeTracker.constructor | common/lib/common-utils/src/rangeTracker.ts:63-75 | one pair, one range of length 0 |
| RangeTracker.RangeTracker.Restore | common/lib/common-utils/src/rangeTracker.ts:63-75 | a restored tracker is in the state that was written, whatever it is, and continues from it |
| RangeTracker.RangeTracker.Serialize | common/lib/common-utils/src/rangeTracker.ts:80-86 | the snapshot is the state |
| RangeTracker.RangeTracker.Add | common/lib/common-utils/src/rangeTracker.ts:94-135 | refused exactly when a number falls back; otherwise the pair is logged and the ranges are those of the specification |
| RangeTracker.RangeTracker.FindSegment | common/lib/common-utils/src/rangeTracker.ts:146-154 | the scan ends behind the range that answers |
| RangeTracker.RangeTracker.Get | common/lib/common-utils/src/rangeTracker.ts:143-160 | the answer is that of the log; below the base an assertion fails |
| RangeTracker.RangeTracker.UpdateBase | common/lib/common-utils/src/rangeTracker.ts:167-193 | the base moves, the log stays, and answers from there on are kept |
| Heap.SwapUp | common/lib/common-utils/src/heap.ts:134-141 | exchanging a node with a larger parent moves the one broken place up |
| Heap.SwapDown | common/lib/common-utils/src/heap.ts:147-160 | exchanging a node with its smaller child moves the broken place down |
| Heap.ChangeBreaksAt | common/lib/common-utils/src/heap.ts:96-106 | changing one value breaks the order only around it |
| Heap.BrokenUp | common/lib/common-utils/src/heap.ts:99-106 | a node below its parent is below its children, so only the way up is broken |
| Heap.RootIsLeast | common/lib/common-utils/src/heap.ts:66-68 | in heap order nothing is below the root, for any total preorder |
| Heap.RemovedRest | common/lib/common-utils/src/heap.ts:113-117 | exchanging with the last slot and dropping it removes exactly one element and leaves the sentinel |
| Heap.Heap.constructor | common/lib/common-utils/src/heap.ts:57-59 | an empty heap with the sentinel in slot 0 |
| Heap.Heap.Swap | common/lib/common-utils/src/heap.ts:162-168 | two nodes change places and know it; no value changes |
| Heap.Heap.Fixup | common/lib/common-utils/src/heap.ts:134-141 | heap order is restored on the way up; nodes are only rearranged and the sentinel stays |
| Heap.Heap.LeastChild | common/lib/common-utils/src/heap.ts:149-153 | the smaller of one or two children |
| Heap.Heap.Fixdown | common/lib/common-utils/src/heap.ts:147-160 | heap order is restored on the way down; nodes are only rearranged and the sentinel stays |
| Heap.Heap.Update | common/lib/common-utils/src/heap.ts:99-106 | heap order is restored around one node, whichever way it is broken |
| Heap.Heap.Add | common/lib/common-utils/src/heap.ts:88-94 | one node with the value joins; order, positions and sentinel are kept |
| Heap.Heap.TakeOut | common/lib/common-utils/src/heap.ts:113-117 | the node leaves by exchange with the last slot; only the node that takes its place may be out of order |
| Heap.Heap.Peek | common/lib/common-utils/src/heap.ts:66-68 | a node that no value is below, or none |
| Heap.Heap.Get | common/lib/common-utils/src/heap.ts:75-80 | the value that leaves is a minimum, and exactly it leaves |
| Heap.Heap.Remove | common/lib/common-utils/src/heap.ts:113-123 | exactly the given node leaves; order, positions and sentinel are kept |
| Heap.Rekey | common/lib/common-utils/src/heap.ts:96-106 | changing one value and calling update replaces exactly that value in a valid heap |
| Heap.Drain | common/lib/common-utils/src/heap.ts:75-80 | draining yields a sorted permutation of the contents |
| Timer.BeginImplements | common/lib/common-utils/src/timer.ts:85-87 | a start clears the old timeout, sets one and begins a new wait |
| Timer.RestartImplements | common/lib/common-utils/src/timer.ts:109-137 | all three branches of restart begin a new wait with the new duration and handler |
| Timer.FireRunsOrRearms | common/lib/common-utils/src/timer.ts:150-163 | the assertion of the callback holds; it runs the pending handler, not before its deadline, or arms the timeout for the rest of a restart |
| Timer.StepImplements | common/lib/common-utils/src/timer.ts:85-163 | every call, every tick and every firing keeps the invariant: exactly one timeout is live while the timer runs, none otherwise, and it stands for the last start or restart |
| Timer.RunImplements | common/lib/common-utils/src/timer.ts:65-169 | so does every sequence of them; handlers run in order of their starts, each once at most and never early, each armed again once at most |
| Timer.LastStartRuns | common/lib/common-utils/src/timer.ts:65-169 | a start or restart that is not followed by another or by a clear: its handler runs at most once, at its deadline or later, and it waits until then |
| Timer.TwoFiringsRun | common/lib/common-utils/src/timer.ts:65-169 | however late timeouts are, the second firing after such a start has run its handler, so it runs exactly once |
| Timer.LastStartRunsOnTime | common/lib/common-utils/src/timer.ts:65-169 | with punctual timeouts the handler has not run before the deadline, and once the clock has passed the deadline it has run exactly once, exactly at the deadline |
| Timer.PunctualRunsOnTime | common/lib/common-utils/src/timer.ts:65-169 | with punctual timeouts every handler runs exactly at its deadline |
| Timer.OmittedDuration | common/lib/common-utils/src/timer.ts:114 | after a restart for ms, an omitted duration is ms again if and only if ms did not exceed the remaining time or was the omitted duration before |
| Timer.OmittedDurationOfCalls | common/lib/common-utils/src/timer.ts:109-137 | on the calls: started for d0 and restarted for ms at t1, it is ms if and only if that ends no later than the start would have, or ms is d0 |
| Timer.OlderDurationReturns | common/lib/common-utils/src/timer.ts:114 | started for 10 and restarted for 20, a restart without a duration waits 10 |
| Timer.Timer.Clear | common/lib/common-utils/src/timer.ts:92-98 | the timeout is cleared and the timer stops |
| Timer.Timer.StartCore | common/lib/common-utils/src/timer.ts:139-148 | clears, then sets one timeout |
| Timer.Timer.Start | common/lib/common-utils/src/timer.ts:85-87 | a step of the state machine |
| Timer.Timer.Restart | common/lib/common-utils/src/timer.ts:109-137 | a step of the state machine, branch by branch |
| Timer.Timer.OnTimeout | common/lib/common-utils/src/timer.ts:150-163 | the callback of the state machine, assertion included |
| Timer.ResolveSettles | common/lib/common-utils/src/timer.ts:223-228 | resolving the waiting promise leaves every promise resolved exactly once |
| Timer.PromiseTimer.Clear | common/lib/common-utils/src/timer.ts:215-221 | the waiting promise, if any, is resolved as cancelled |
| Timer.PromiseTimer.Start | common/lib/common-utils/src/timer.ts:208-213 | cancels the waiting promise and makes the only waiting one |
| Timer.PromiseTimer.OnTimeout | common/lib/common-utils/src/timer.ts:223-228 | the handler runs, both assertions hold and the waiting promise is resolved as timed out |
| PromiseCache.CancelKeeps | common/lib/common-utils/src/promiseCache.ts:59-65 | cancelling takes out the one timeout of the key |
| PromiseCache.ScheduleKeeps | common/lib/common-utils/src/promiseCache.ts:44-54 | scheduling an absent key arms one timeout for its new residence |
| PromiseCache.GetImplements | common/lib/common-utils/src/promiseCache.ts:113-118 | a hit moves the timeout of a sliding entry and of no other |
| PromiseCache.AddImplements | common/lib/common-utils/src/promiseCache.ts:134-160 | an absent key gets a promise and a timeout; a present one is a hit |
| PromiseCache.FireImplements | common/lib/common-utils/src/promiseCache.ts:48-51 | a timeout that fires finds its entry and removes it; the second cancel of its callback does nothing |
| PromiseCache.StepImplements | common/lib/common-utils/src/promiseCache.ts:33-160 | every step keeps it: the cached keys are the keys with a live timeout, one each, due at the deadline of the present residence |
| PromiseCache.RunImplements | common/lib/common-utils/src/promiseCache.ts:33-160 | so does every sequence of steps |
| PromiseCache.EndsExactly | common/lib/common-utils/src/promiseCache.ts:113-160 | exactly removal, expiry and a rejection under the key take its entry out, and work starts only for absent keys |
| PromiseCache.WorkIsShared | common/lib/common-utils/src/promiseCache.ts:134-160 | until then the key keeps its promise and no other work is started for it, however often it is added |
| PromiseCache.PunctualExpiry | common/lib/common-utils/src/promiseCache.ts:33-77 | with punctual timeouts an entry expires exactly the duration after its insertion, or after its last hit when sliding |
| PromiseCache.PunctualRunsArePrompt | common/lib/common-utils/src/promiseCache.ts:33-77 | and no entry ever outstays its deadline |
| PromiseCache.RejectionIsOwn | common/lib/common-utils/src/promiseCache.ts:149-154 | a rejection takes out no promise but its own if and only if its key holds that promise or none |
| PromiseCache.StaleRejection | common/lib/common-utils/src/promiseCache.ts:149-154 | removed and added again, a key loses its new promise to the rejection of the old one |
| PromiseCache.GarbageCollector.Schedule | common/lib/common-utils/src/promiseCache.ts:44-54 | a step of the state machine |
| PromiseCache.GarbageCollector.Cancel | common/lib/common-utils/src/promiseCache.ts:59-65 | a step of the state machine |
| PromiseCache.GarbageCollector.Update | common/lib/common-utils/src/promiseCache.ts:70-76 | a step of the state machine |
| PromiseCache.PromiseCache.Get | common/lib/common-utils/src/promiseCache.ts:113-118 | the promise under the key, or none |
| PromiseCache.PromiseCache.Remove | common/lib/common-utils/src/promiseCache.ts:123-126 | the entry and its timeout go; tells whether there was one |
| PromiseCache.PromiseCache.AddOrGet | common/lib/common-utils/src/promiseCache.ts:134-160 | the promise under the key; its work is started exactly when the key was absent |
| PromiseCache.PromiseCache.Add | common/lib/common-utils/src/promiseCache.ts:168-180 | tells whether the key was absent |
| PromiseCache.PromiseCache.OnTimeout | common/lib/common-utils/src/promiseCache.ts:48-51 | the callback of the garbage collector |
| PromiseCache.PromiseCache.OnRejected | common/lib/common-utils/src/promiseCache.ts:149-154 | the rejection handler |
| TombstoneText.EditShows | examples/data-objects/prosemirror/src/fluidBridge.ts:118-210 | what is accepted edits the flat text directly: inserts are spliced in and not annotated, removals are gone, annotations cover the range; nothing changes the original text |
| TombstoneText.RunShowsEdits | examples/data-objects/prosemirror/src/fluidBridge.ts:118-227 | after any run of accepted ranges the text is the original with the same edits spliced in directly, and after any run kept and deleted characters in order are the original |
| TombstoneText.AcceptedIffNeighbours | examples/data-objects/prosemirror/src/fluidBridge.ts:137-148 | unless an empty text was inserted, a removal or annotation is accepted if and only if it starts inside the text and covers characters that were neighbours in the original text |
| TombstoneText.KeptRunIff | examples/data-objects/prosemirror/src/fluidBridge.ts:146-164 | original characters with nothing deleted or inserted in between are those with consecutive places in the original text |
| TombstoneText.SeamlessEdit | examples/data-objects/prosemirror/src/fluidBridge.ts:166-175 | only the insertion of an empty text leaves a place that is in the way without being visible |
| TombstoneText.SeamlessRun | examples/data-objects/prosemirror/src/fluidBridge.ts:212-227 | so after a run that inserts no empty text the condition on neighbours decides what is accepted |
| TombstoneText.Conserved | examples/data-objects/prosemirror/src/fluidBridge.ts:150-175 | the visible and the deleted characters are as many as the original and the inserted ones |
| PieceTable.FindIndex | examples/data-objects/prosemirror/src/fluidBridge.ts:124-133 | the walk over the things finds the spot of a visible position, and ends behind them exactly when the text does |
| PieceTable.SplitInPlace | examples/data-objects/prosemirror/src/fluidBridge.ts:100-116 | two pieces in place of one stand for the same text with tombstones |
| PieceTable.ChangedPiece | examples/data-objects/prosemirror/src/fluidBridge.ts:150-156 | deleting or annotating a piece changes each of its characters |
| PieceTable.CoveredAll | examples/data-objects/prosemirror/src/fluidBridge.ts:146-164 | when the loop stops, what it has covered is the edit, and the range is accepted if and only if all of it is covered |
| PieceTable.WholeSplit | examples/data-objects/prosemirror/src/fluidBridge.ts:105-113 | after splitting a thing each inserted thing is as long as the text it carries if and only if that was so before and the thing that was split is not an inserted one |
| PieceTable.InsideIff | examples/data-objects/prosemirror/src/fluidBridge.ts:124-133 | while no inserted thing has been split, a range splits one if and only if it starts inside an inserted text |
| PieceTable.CarriedIff | examples/data-objects/prosemirror/src/fluidBridge.ts:273 | the texts that the inserted things carry, read one after the other, are the inserted text if and only if no inserted thing was split |
| PieceTable.RemovedIff | examples/data-objects/prosemirror/src/fluidBridge.ts:270-271 | the lengths that the deleted things carry add up to at least what was deleted, and to exactly that if and only if each of them is all that its range removed |
| PieceTable.InsertInside | examples/data-objects/prosemirror/src/fluidBridge.ts:105-111 | a builder inserts xy and then z in between: the text is xzy, but the things carry xyzxy |
| PieceTable.RemoveAcrossMark | examples/data-objects/prosemirror/src/fluidBridge.ts:146-164 | a builder over abcd annotates ab and then removes bc: two characters are gone, but the things carry a length of 4 |
| PieceTable.RemoveAcrossGap | examples/data-objects/prosemirror/src/fluidBridge.ts:137-148 | a builder over abcdef removes c and then refuses to remove b and d in one range |
| PieceTable.Builder.constructor | examples/data-objects/prosemirror/src/fluidBridge.ts:88-98 | one ether thing: the text, all of it original and unmarked, with nothing inserted or deleted |
| PieceTable.Builder.SplitAt | examples/data-objects/prosemirror/src/fluidBridge.ts:100-116 | splits in place and returns the thing that starts at the position; both halves keep the event of the whole, and nothing changes in the text |
| PieceTable.Builder.Locate | examples/data-objects/prosemirror/src/fluidBridge.ts:124-133 | the loop that looks for the position |
| PieceTable.Builder.Insert | examples/data-objects/prosemirror/src/fluidBridge.ts:166-175 | accepted exactly inside the text or at its end; the new thing carries the range and with it the text |
| PieceTable.Builder.Change | examples/data-objects/prosemirror/src/fluidBridge.ts:150-156 | one ether thing is deleted or annotated and carries the range from then on |
| PieceTable.Builder.Begin | examples/data-objects/prosemirror/src/fluidBridge.ts:137-145 | the thing that starts at the position of a removal or annotation; none if and only if the position is not in the text |
| PieceTable.Builder.Cover | examples/data-objects/prosemirror/src/fluidBridge.ts:137-164 | accepted exactly over original characters with nothing deleted or inserted in between; a refused range leaves behind what was covered before the obstacle |
| PieceTable.Builder.AddRange | examples/data-objects/prosemirror/src/fluidBridge.ts:118-210 | accepted if and only if the text with tombstones accepts the range, whose edit is the new state, events included, also when it is refused; an accepted range edits the flat text directly; the inserted things stay whole if and only if it does not start inside one, and the deleted things exact if and only if a removal that starts in an ether thing ends in it |
| PieceTable.Builder.AddSequencedDelta | examples/data-objects/prosemirror/src/fluidBridge.ts:212-227 | succeeds if and only if each range is accepted in its turn; then the flat text has all the edits, and the state is that of the edits up to the first refused range in any case. The things carry exactly the inserted text if and only if no range on the way started inside an inserted text, and exactly the deleted lengths if and only if every removal on the way lay in one thing |
| SliceOps.FeedClosed | examples/data-objects/prosemirror/src/fluidBridge.ts:503-586 | the segments of a closed node put exactly that node on top of the stack |
| SliceOps.FeedSlice | examples/data-objects/prosemirror/src/fluidBridge.ts:503-586 | the segments of a slice rebuild its nodes, the right edge staying open |
| SliceOps.RoundTrip | examples/data-objects/prosemirror/src/fluidBridge.ts:369-601 | flattening and rebuilding a slice closed at its start gives the same tree; it is open at its end as deep as asked, as far as its right edge goes |
| SliceOps.OpsRoundTrip | examples/data-objects/prosemirror/src/fluidBridge.ts:369-601 | the same through the operations, whatever their positions |
| SliceOps.OpenEndIs | examples/data-objects/prosemirror/src/fluidBridge.ts:359-366 | getOpenEnd counts the open blocks of the right edge |
| SliceOps.OpenStartIs | examples/data-objects/prosemirror/src/fluidBridge.ts:350-357 | getOpenStart counts the open blocks that are only children |
| SliceOps.OpenStartComesBack | examples/data-objects/prosemirror/src/fluidBridge.ts:350-357 | so the rebuilt start is closed, as the slice was, if and only if the slice is closed at its end or its first level is not a single block |
| SliceOps.OpenStartReported | examples/data-objects/prosemirror/src/fluidBridge.ts:350-357 | a paragraph alone, closed at its start and open at its end, comes back as open at its start |
| SliceEdges.ComesBackIff | examples/data-objects/prosemirror/src/fluidBridge.ts:495-601 | a slice that may be open on both sides is rebuilt to the same tree if and only if no block is open at its start, or the open blocks hold nothing but each other and another block follows them |
| SliceEdges.ChainIsOpen | examples/data-objects/prosemirror/src/fluidBridge.ts:350-366 | such a slice is open at its start as deep as its open blocks go, and at its end as deep as asked, as far as its right edge goes |
| SliceEdges.FeedBehind | examples/data-objects/prosemirror/src/fluidBridge.ts:536-560 | a node whose end came without a begin is put before the next block, and the leaves that come first go before it |
| SliceEdges.EdgeIs | examples/data-objects/prosemirror/src/fluidBridge.ts:503-586 | what the open blocks of a left edge leave behind: nothing but nested open nodes when they are bare, and otherwise their content without them |
| SliceEdges.SplitParagraph | examples/data-objects/prosemirror/src/fluidBridge.ts:495-601 | two empty paragraphs that are open where they meet come back; with a letter before the split they do not |
| SliceOps.Generate | examples/data-objects/prosemirror/src/fluidBridge.ts:495-601 | the loop with its stack of nodes computes the specification |
| SliceOps.OpList.EmitAll | examples/data-objects/prosemirror/src/fluidBridge.ts:461-473 | the children emit the segments of the flattened content at the running positions |
| SliceOps.OpList.EmitNode | examples/data-objects/prosemirror/src/fluidBridge.ts:398-493 | one node emits its flattened segments and returns how far they reach: its characters, inline nodes and two for each block, less its open levels |
| SliceOps.SliceToGroupOps | examples/data-objects/prosemirror/src/fluidBridge.ts:369-390 | the operations of a slice are its flattened segments, in order, each starting where the one before it ends |
| SliceOps.EmittedFollow | examples/data-objects/prosemirror/src/fluidBridge.ts:380-396 | each operation starts where the one before it ends, which is as many positions on as its text has characters, or one for a marker; at the insertion point the gap is added |
| SliceOps.NodesReach | examples/data-objects/prosemirror/src/fluidBridge.ts:398-493 | without a gap a slice reaches as far as its characters and inline nodes count, with two for each block, less one for each level that is open at its start and each that is open at its end |
| SliceOps.GapShiftsOnce | examples/data-objects/prosemirror/src/fluidBridge.ts:380-396 | the first operation that would start at the insertion point without the gap and all after it are shifted by the gap, once; the others stay where they are without it |

## Left out

- Floating-point rounding, negative zero and NaN: integers and reals are exact; the largest safe integer plays no part.
- Powers with a negative or fractional exponent: the folding of constants is undefined there.
- MathSimplify.SimplifyPreserves: the simplifier has no measure, so its function takes a bound on the number of turns; the result is proved for every bound that suffices, and termination is not claimed. MoreFuel says that a larger bound changes nothing.
- MathSimplify.FiringSound: needs the names that a pattern repeats to be bound to expressions without binary operators below; without that it is false.
- MathPoly.AccumExact: covers sums, differences and unary minus of constants, v, powers of v and products of these; unary minus inside products and coefficients with other symbols are not modelled.
- MathPoly.Coefficients.AddAt: a slot of the coefficient array has a number and no symbolic part.
- MathPoly.Coefficients.Accumulate: every variable is taken for v, since terms with other symbols have no place in the array.
- MathSolve.SolveAnswers: needs the normalized equation to be linear in v and every rule to have fired safely; a run that does not end is Lost, as when isSumOfProducts meets a minus sign or a fraction and calls itself for ever. SolveExactly says which equations these are.
- MathRoots.NoSlopeNoAnswer: does not tell undefined from a division by a slope that is zero but not written as 0.
- MathInstances.MatchIsInstance: for patterns without repeated names; what a repeated name is compared with is the business of LiteralMatchExact.
- In the parser: commands and their operands, Greek variables, subscripts and superscripts, tuples, and the parentheses left open at the end of input, which are read but not recorded; a tree read with an error node is not described.
- MathParser.TokenStream.Primary: commands and tuples end as Outside, and parentheses left open are not recorded.
- MathParser.TokenStream.Expression: a command between operands ends as Outside.
- MathLexStream.Lexer.LexCharStream: which symbol a superscript or subscript modifies is not recorded.
- MathLexStream.Lexer.LexSuperscript: which symbol a superscript or subscript modifies is not recorded.
- In the lexer: which symbol a superscript or subscript modifies, and infix commands that carry an arity without braces.
- In the printer: fractions, calls, subscripts, pattern variables, rationals and reals, and the operators written as commands; integers, letters, +, -, product, = and unary minus are covered.
- Text positions that parsed expressions carry (minChar).
- MathComplete.ExprComplete: names are single letters, as in the text of the rules.
- TokenList.FindAgreesWithSplit: for tokens without spaces; FindToken itself is proved for every token.
- An undefined secondary number in a range tracker: secondaries are integers.
- Heap.Heap.Get: needs a nonempty heap; on an empty one the code fails on the missing node.
- The sentinel value of the number comparer, Number.MIN_VALUE, which is not the least number: the heap never compares the sentinel.
- Two readings of the clock within one callback: a callback sees one tick.
- Handlers of a promise timer that call the timer again, and asynchronous functions of a promise cache that call the cache again.
- The values and the errors of promises: a promise is its number, a rejection is a step that may happen to any promise that was started.
- PieceTable.Builder.Cover: the two copies of the loop, for removals and annotations, are one method.
- TombstoneText.AcceptedIffNeighbours: where an empty text was inserted it lies in the way of a removal without being visible; Accepts counts it, and AddRange is proved for it. SeamlessRun says when there is no such place.
- build, which groups the things of a transaction builder into steps of the editor library: that library is not part of this model; of what build reads, the model has the texts and the lengths that the things carry.
- Marks of nodes, and the properties of block nodes, which generateFragment drops.
- SliceOps.OpList.EmitNode: the properties made from marks are not emitted.
- SliceOps.GapShiftsOnce: for a distance of at least 0, as lengths are.
- SliceOps.Generate: marks made from the properties of segments are not rebuilt; the stack holds values and a closed node is put into its parent, where the code shares the node object between the stack and the parent from the start; that sharing is not modelled.
- Lis.Lis: the result is a new sequence; the code returns the table it has overwritten, and for an empty input the input array itself.
- Katex, DOM, server, git and view code, BatchManager, RateLimiter, bsearch, Template, EventForwarder and Scheduler: they are glue or would only add easy members.
