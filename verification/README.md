# maths-parsing, modelled in Dafny

A model of a small recursive-descent parser for arithmetic expressions. The
model covers the program's successive drafts:

- the token scanner of `src/lexer.py`;
- the token-level parser of `maths_parser_python/parser.py`
  (`E -> T {(+|-) T}`, `T -> F {(*|/) F}`, `F -> ID | NUMBER | (E) | -F`);
- the expression tree with its fully parenthesised rendering and its
  evaluation (`maths_parser_python/nodetypes.py` and the copies of those
  classes in `parser.py` and `main.py`);
- the constant-folding `simplify` of `src/nodetypes.py`, with its
  Integer and Float constructors;
- the earlier one-character scanner and parser of
  `maths_parser_python/main.py`.

Everything is pure:

- The scanner state is an index into the input.
- A parse function returns the tree and the position after it, or `None`.
- Evaluation returns a `Result` over exact reals.
- `simplify` returns a new tree; the input tree is a value and never changes.

Files, one module each:

| file | module | contents |
|---|---|---|
| `results.dfy` | `Results` | `Option` and `Result` |
| `chars.dfy` | `Chars` | the character classes |
| `numerals.dfy` | `Numerals` | digit text and its value: `int(text)` and `str(n)` |
| `ast.dfy` | `Ast` | the tree, `Render` (`__str__`) and `Eval` (`eval`) |
| `lexer.dfy` | `Lexer` | `Lexer.next` as `Next`; the tokens up to END as `Tokens` |
| `token_parser.dfy` | `TokenParser` | `parse` with `parse_expr` / `parse_term` / `parse_factor` |
| `roundtrip.dfy` | `RoundTrip` | scanning a rendered tree yields exactly its tokens |
| `reparse.dfy` | `Reparse` | parsing those tokens rebuilds the tree |
| `layout.dfy` | `Layout` | where the pieces of a rendering sit in a text |
| `simplifier.dfy` | `Simplifier` | `simplify` and the folding of literals |
| `char_parser.dfy` | `CharParser` | the sentinel scanner and parser of `main.py` |
| `scenarios.dfy` | `Scenarios` | the example inputs of the program's own scripts, as lemmas |
| `script_parses.dfy` | `ScriptParses` | the scripts' unbracketed inputs, parsed step by step from their text |

Three consequences of the code that are easy to miss:

- `parser.py` has no rule for a decimal point, though the scanner makes a
  DOT token. So `"3.14"` parses the Integer 3 and then fails on the trailing
  `.` token (`Scenarios.DecimalIsRejected`).
- A digit always starts a NUMBER, and a NUMBER is a run of digits only. So
  `"897asdfasdf987"` lexes as NUMBER `897` followed by IDENTIFIER
  `asdfasdf987` (`Scenarios.GluedTokens`), and its parse fails on the
  trailing identifier (`Scenarios.GluedIsRejected`).
- Python integers are unbounded, so the model uses `int`, and reals for
  every value.

## Model

| member | source | states |
|---|---|---|
| Lexer.SkipSpaceStops | src/lexer.py:42-44 | the whitespace loop passes over space, tab, CR and LF only, and stops at the first other character |
| Lexer.RunIsMaximal | src/lexer.py:94-108 | the identifier and number loops consume a run as long as possible: every character inside continues it and the one after cannot |
| Lexer.Next | src/lexer.py:64-92 | one call of `next`: the index never moves back, and it moves forward for every token except END |
| Lexer.NextScans | src/lexer.py:64-108 | `next` meets the step's independent specification: whitespace skipped; END at NUL or past the input; otherwise a non-empty lexeme equal to the slice it covers, classified by its first character and, for identifiers and numbers, maximal |
| Lexer.ScanIsUnique | src/lexer.py:64-108 | maximal munch makes the step deterministic: the only result meeting the specification is the one `next` returns |
| Lexer.RunScans | src/lexer.py:94-108 | a letter starts an IDENTIFIER and a digit a NUMBER, whose lexeme is the maximal run that follows |
| Lexer.IdentifierRun | src/lexer.py:52-58 | a letter followed by letters, digits and `_` is identifier text |
| Lexer.NumberRun | src/lexer.py:47-49 | a run of digits is a numeral |
| Lexer.RunEndUnique | src/lexer.py:97-98 | two maximal runs from the same index end at the same index |
| Lexer.ScanStart | src/lexer.py:66-69 | a token starts exactly where the whitespace skip stops |
| Lexer.EndRepeats | src/lexer.py:32-35 | END does not advance, so the call after END returns END again from the same index |
| Lexer.Tokens | src/lexer.py:64-92 | the tokens up to the first END: END comes last and only there, and every token has the shape the scanner gives it |
| Lexer.TokensArePulls | src/lexer.py:64-92 | reading the collected tokens by position is the same as pulling `next` on demand, including every pull after END |
| Lexer.PullsAfterEnd | src/lexer.py:89-90 | once END is reached, every further pull returns END |
| Lexer.TokensStep | src/lexer.py:64-92 | one non-END step puts its token in front of the tokens scanned from where it stopped |
| Lexer.LexemeIsClean | src/lexer.py:42-44 | no lexeme holds whitespace or NUL |
| Lexer.StepUnspaced | src/lexer.py:61-62 | one step covers whitespace and then exactly its lexeme |
| Lexer.TokensReproduceInput | src/lexer.py:99-100 | scanning stops at the first NUL or the end of the input, and the concatenated lexemes are the scanned text with its whitespace removed |
| Lexer.ScanBeforeNul | src/lexer.py:89-90 | a step that meets the specification ends before a NUL, and looks at nothing after it |
| Lexer.NulEndsInput | src/lexer.py:33-35 | a NUL in the input acts as its end: the tokens are those of the input cut at the NUL |
| Numerals.NatText | src/nodetypes.py:190 | `str(n)` of a natural number is canonical digit text whose value is `n` |
| Numerals.IntText | src/nodetypes.py:190 | `str(v)` of any integer: digit text with at most one leading minus, which `int` reads back as `v` |
| Numerals.CanonicalRoundTrip | src/nodetypes.py:190-193 | `str(int(t)) == t` for canonical digit text, so `int` and `str` are inverse on what `str` writes |
| Numerals.LeadingDigitBound | src/nodetypes.py:193 | a numeral's value is at least its leading digit's |
| Ast.IntegerOfText | src/nodetypes.py:191-193 | an Integer built from text keeps the text verbatim as what it renders, with the value `int` reads from it |
| Ast.IntegerOfValue | src/nodetypes.py:188-190 | an Integer built from an int renders `str(value)`: canonical digits, with a leading minus for a negative value |
| Ast.FloatOfValue | src/nodetypes.py:206-208 | a Float built from a value evaluates to that value and renders its formatting |
| Ast.Apply | maths_parser_python/nodetypes.py:27-49 | an operator applied to two values fails exactly on division by zero |
| Ast.Eval | maths_parser_python/nodetypes.py:27-78 | a successful evaluation has every name of the tree bound; an unbound-name failure names a name of the tree missing from the environment |
| Ast.EvalSucceedsWhenBound | maths_parser_python/nodetypes.py:66-67 | without division, evaluation succeeds exactly when every name of the tree is bound |
| Ast.EvalIsLocal | maths_parser_python/nodetypes.py:66-67 | evaluation reads the environment only at the names the tree mentions |
| TokenParser.Leaf | maths_parser_python/parser.py:139-143 | an IDENTIFIER token becomes an Identifier and a NUMBER token an Integer, each rendering the lexeme verbatim, the Integer holding the lexeme's value |
| TokenParser.ParseFactor | maths_parser_python/parser.py:136-160 | a factor, when found, consumes at least one token and starts with an identifier, a number, `(` or `-` |
| TokenParser.ParseTerm | maths_parser_python/parser.py:115-134 | a term, when found, consumes at least one token and starts like a factor |
| TokenParser.ParseExpr | maths_parser_python/parser.py:94-113 | an expression, when found, consumes at least one token and starts like a factor |
| TokenParser.Parse | maths_parser_python/parser.py:91-164 | a successful parse builds only Integers holding a numeral and its value, identifiers, and operator nodes over them |
| TokenParser.ExprKeepsTokens | maths_parser_python/parser.py:94-160 | parsing keeps every operand and operator token it consumes, in order, and drops only brackets |
| TokenParser.ParseKeepsTokens | maths_parser_python/parser.py:162-164 | a successful parse consumes every token before END, and the tree holds exactly the input's operand and operator tokens, in order |
| TokenParser.ExprBalanced | maths_parser_python/parser.py:94-160 | every run of tokens a parse function consumes has balanced brackets: each `)` closes an earlier `(` of the run and each `(` is closed within it |
| TokenParser.ParseBalancesBrackets | maths_parser_python/parser.py:136-164 | a successful parse has read an input whose brackets are balanced, so an unmatched `(` or `)` anywhere makes `parse` fail |
| TokenParser.PrecedenceAndAssociativity | maths_parser_python/parser.py:99-134 | of two operators between three operands the tighter one groups first, and of two alike the left one does |
| TokenParser.LeftGroupsTighter | maths_parser_python/parser.py:120-134 | a leading `*` or `/` groups its two operands first |
| TokenParser.RightGroupsTighter | maths_parser_python/parser.py:99-134 | in `a + b * c` the product groups first |
| TokenParser.SameLevelGroupsLeft | maths_parser_python/parser.py:99-113 | `+` and `-` chains fold to the left |
| TokenParser.NegationBindsTightest | maths_parser_python/parser.py:155-160 | a minus sign negates the one factor after it, before any binary operator applies |
| RoundTrip.LexRendered | maths_parser_python/nodetypes.py:12-21 | scanning the rendering of a parsable tree yields exactly the tree's tokens, brackets included |
| RoundTrip.RenderedTokens | src/lexer.py:64-108 | the tokens of a whole rendering are the tree's own tokens, then END |
| RoundTrip.LexesTokens | src/lexer.py:64-92 | a chain of scanner steps is a prefix of the collected tokens |
| Reparse.FactorOfRender | maths_parser_python/parser.py:136-160 | wherever a parsable tree's tokens appear, `parse_factor` reads exactly that tree back |
| Reparse.ParseOfRender | maths_parser_python/parser.py:91-164 | rendering is a right inverse of parsing: every tree the parser can build is parsed back from its own text |
| Reparse.ReparseIsFixedPoint | maths_parser_python/parser.py:171-173 | re-parsing the rendering of a parse gives the same parse |
| Reparse.RenderIsInjective | maths_parser_python/nodetypes.py:12-21 | two parsable trees with the same rendering are the same tree |
| Layout.BinaryPieces | maths_parser_python/nodetypes.py:12-13 | a binary node renders as `(`, left, space, symbol, space, right, `)` |
| Layout.NegatePieces | maths_parser_python/nodetypes.py:20-21 | a negation renders as `(-`, argument, `)` with no space |
| Simplifier.Fold | src/nodetypes.py:24-33 | two literals fold to a literal holding the operator's value: an Integer exactly when both are Integers and, for `/`, the `%` test passes; failure exactly on a zero divisor |
| Simplifier.FoldIntegers | src/nodetypes.py:141-151 | two Integers fold to an Integer holding the value, except a non-exact quotient, which gives a Float; a zero divisor fails |
| Simplifier.FoldNegate | src/nodetypes.py:162-172 | negation folds an Integer to an Integer and a Float to a Float holding the negated value, and keeps any other argument under a negation |
| Simplifier.Simplify | src/nodetypes.py:6-172 | the result mentions the same names as the input and has nothing left to fold; the only failure is a zero divisor |
| Simplifier.SimplifyPreservesEval | src/nodetypes.py:61-172 | simplifying never changes what a tree evaluates to, in any environment, failures included |
| Simplifier.FoldPreservesEval | src/nodetypes.py:74-75 | a folded literal evaluates as the operator node it replaces |
| Simplifier.FoldNegatePreservesEval | src/nodetypes.py:166-170 | a folded negation evaluates as the negation it replaces |
| Simplifier.SimplifyFailsOnlyWhereEvalFails | src/nodetypes.py:148 | simplifying fails only on trees whose evaluation fails in every environment |
| Simplifier.ExactQuotientAsReal | src/nodetypes.py:148-150 | when the `%` test passes, the integer quotient is the true quotient |
| Simplifier.FoldedIsFixed | src/nodetypes.py:6 | a tree with nothing left to fold simplifies to itself |
| Simplifier.SimplifyIsIdempotent | src/nodetypes.py:19-35 | simplifying twice is simplifying once |
| Simplifier.FoldedClosedIsLiteral | src/nodetypes.py:24-33 | a fully folded tree without names is one literal |
| Simplifier.ClosedTreeFolds | src/nodetypes.py:61-172 | a tree without names simplifies exactly when it evaluates, to one literal holding its value |
| Simplifier.IntegerTreeFoldsToInteger | src/nodetypes.py:61-127 | a tree of Integers under `+ - *` and negation simplifies to one Integer holding the tree's value, which simplifies to itself |
| Simplifier.OperatorOverNameIsKept | src/nodetypes.py:35 | an operator over a name is not folded: it keeps its operator over its simplified children |
| CharParser.Sentinel | maths_parser_python/main.py:92-93 | the scanner's text is the input followed by one NUL |
| CharParser.SkipBlanksStops | maths_parser_python/main.py:102-104 | the skip passes over the blank ` ` only, and stops at any other character |
| CharParser.Advance | maths_parser_python/main.py:98-104 | `scanToken` always moves the scanner forward, and never past the end of the text from inside it |
| CharParser.SentinelPersists | maths_parser_python/main.py:98-107 | once the scanner reaches the sentinel, `next` returns NUL after any number of further scans |
| CharParser.OneCharacterClasses | maths_parser_python/main.py:217-236 | on one character, `is_identifier` is the letter class and `is_integer` the digit class; `is_integer` holds of the empty text |
| CharParser.ParseFactor | maths_parser_python/main.py:185-215 | a factor, when found, consumes input and starts with a letter, a digit, `(` or `-`; the scanner never moves back |
| CharParser.ParseTerm | maths_parser_python/main.py:156-183 | a term, when found, consumes input and starts like a factor |
| CharParser.ParseExpr | maths_parser_python/main.py:127-154 | an expression, when found, consumes input and starts like a factor |
| CharParser.Parse | maths_parser_python/main.py:122-125 | a parse that does not end on a NUL fails, and the error names the character of the input it stopped on, never NUL; a tree it builds has one-character leaves |
| CharParser.ExprKeepsCharacters | maths_parser_python/main.py:127-215 | the characters a parse function consumes, with blanks and brackets dropped, are exactly its tree's leaves and operator symbols in order, a negation counting as its `-` |
| CharParser.ParseKeepsCharacters | maths_parser_python/main.py:122-125 | a tree `parse` returns holds exactly the letters, digits and operator characters of the input before its first NUL, in order; blanks and brackets are the only characters it reads without a trace |
| CharParser.FactorOfRender | maths_parser_python/main.py:185-215 | wherever the rendering of a tree of one-character leaves appears, `_parseFactor` reads exactly that tree back |
| CharParser.ParseOfRender | maths_parser_python/main.py:122-215 | every tree this parser can build is parsed back from its own rendering |
| Scenarios.NamedTokens | src/lexer.py:64-108 | `"identifier + 69 * 8"` lexes as an identifier, `+`, `69`, `*`, `8`, END |
| Scenarios.NamedParses | maths_parser_python/parser.py:167-168 | `"identifier + 69 * 8"` parses with the product grouped first |
| Scenarios.NamedRenders | maths_parser_python/parser.py:168 | that tree renders as `"(identifier + (69 * 8))"` |
| Scenarios.SmallParses | maths_parser_python/parser.py:179 | `"x + 5 * 2"` parses as `x + (5 * 2)` |
| Scenarios.SmallRendersAndEvaluates | maths_parser_python/parser.py:180-181 | that tree renders as `"(x + (5 * 2))"` and evaluates to 22 with x = 12 |
| Scenarios.NestedRendersAndEvaluates | maths_parser_python/main.py:85-87 | `(7 + (5 * 2))` renders as itself and evaluates to 17 |
| Scenarios.NestedParsesByTokens | maths_parser_python/parser.py:171-173 | the token parser reads `"(7 + (5 * 2))"` as that tree |
| Scenarios.NestedParsesByCharacters | maths_parser_python/main.py:241-245 | the character parser reads `"(7 + (5 * 2))"` as that tree |
| Scenarios.MixedRenders | maths_parser_python/main.py:247-249 | the tree of `"6 + (-4 + (3*x+7) * y * 9 / (4 + 3))"` renders as `"(6 + ((-4) + (((((3 * x) + 7) * y) * 9) / (4 + 3))))"` |
| Scenarios.MixedEvaluates | maths_parser_python/main.py:250 | that tree evaluates to 74 with x = 7 and y = 2 |
| Scenarios.MixedReparses | maths_parser_python/main.py:247-249 | the character parser reads that rendering back as the same tree |
| Scenarios.QuotientsRenders | maths_parser_python/parser.py:183-184 | the tree of `"x / 7 + 42 * 8 / (8 - 6)"` renders as `"((x / 7) + ((42 * 8) / (8 - 6)))"` |
| Scenarios.QuotientsEvaluates | maths_parser_python/parser.py:185 | that tree evaluates to 172 with x = 28 |
| Scenarios.QuotientsReparses | maths_parser_python/parser.py:183-184 | the token parser reads that rendering back as the same tree |
| Scenarios.GluedTokens | src/lexer.py:73-74 | `"897asdfasdf987"` lexes as NUMBER `897`, IDENTIFIER `asdfasdf987`, END |
| Scenarios.GluedIsRejected | maths_parser_python/parser.py:162-163 | its parse fails on the trailing identifier |
| Scenarios.DecimalTokens | src/lexer.py:87-88 | `"3.14"` lexes as NUMBER `3`, DOT, NUMBER `14`, END |
| Scenarios.DecimalIsRejected | maths_parser_python/parser.py:162-163 | its parse fails on the trailing `.` |
| Scenarios.UnclosedTokensGiveNoTree | maths_parser_python/parser.py:145-153 | `"(7"` gives no tree: END stands where `)` should |
| Scenarios.TrailingAfterOperand | maths_parser_python/parser.py:162-163 | an operand followed by a token that is no operator and not END fails on that token |
| Scenarios.ThreeOperandParse | maths_parser_python/parser.py:162-164 | three operands and two operators parse by precedence and left association |
| Scenarios.LeadingZerosKept | maths_parser_python/nodetypes.py:73-78 | the NUMBER `"007"` renders as `"007"` and evaluates to 7 |
| Scenarios.EmptyGivesNoTree | maths_parser_python/main.py:122-125 | the character parser returns no tree for `""` without failing |
| Scenarios.DanglingOperatorGivesNoTree | maths_parser_python/main.py:136-138 | `"7+"` gives no tree, without failing |
| Scenarios.UnclosedGivesNoTree | maths_parser_python/main.py:201-205 | `"(7"` gives no tree, without failing |
| Scenarios.TwoDigitsLeaveOne | maths_parser_python/main.py:190-193 | `"12"` reads the factor `1` and fails on the leftover `2` |
| Scenarios.LeadingPlusIsLeftOver | maths_parser_python/main.py:214-215 | `"+7"` finds no factor and fails on the `+` |
| Scenarios.TabIsLeftOver | maths_parser_python/main.py:103-104 | a tab is not skipped by the character scanner and is left over |
| Scenarios.ExactQuotientFolds | src/nodetypes.py:145-150 | `6 / 3` folds to the Integer `2`, which renders as `"2"` |
| Scenarios.NegatedIntegerFolds | src/nodetypes.py:166-167 | `-(4)` renders as `"(-4)"` and folds to the Integer `-4`, which renders without brackets |
| ScriptParses.SymbolScan | src/lexer.py:64-92 | after at most one blank, an operator or bracket character is one token of its kind and the scanner stands just past it |
| ScriptParses.DigitScan | src/lexer.py:102-108 | a digit with no digit after it is a one-character NUMBER |
| ScriptParses.TwoDigitScan | src/lexer.py:102-108 | two digits with no digit after them are one two-character NUMBER |
| ScriptParses.LetterScan | src/lexer.py:94-100 | a letter with no identifier character after it is a one-character IDENTIFIER |
| ScriptParses.EndScan | src/lexer.py:89-90 | at the end of the text the scanner gives END and does not move |
| ScriptParses.QuotientsTokens | src/lexer.py:64-108 | `"x / 7 + 42 * 8 / (8 - 6)"` lexes as thirteen tokens, with `42` as one NUMBER, then END |
| ScriptParses.QuotientsParses | maths_parser_python/parser.py:183-184 | that text parses to the tree whose rendering the script checks: `x / 7` and `(42 * 8) / (8 - 6)` are grouped first, and the `*` `/` chain folds to the left |
| ScriptParses.MixedTokens | src/lexer.py:64-108 | `"6 + (-4 + (3*x+7) * y * 9 / (4 + 3))"` lexes as twenty-four one-character tokens, then END, the blanks between some of them skipped |
| ScriptParses.MixedParsesByTokens | maths_parser_python/parser.py:175-176 | the token parser reads that text as the tree whose rendering the script checks, with the minus sign on the `4` alone |
| ScriptParses.MixedParsesByCharacters | maths_parser_python/main.py:247-249 | the character parser reads `"6 + (-4 + (3*x+7) * y * 9 / (4 + 3))"` as the same tree, skipping the blanks that stand between some of its characters |

## Left out

- Float arithmetic. Python floats, IEEE rounding and `int(a / b)` on large
  integers are not modelled. Every value is an exact real and division is
  exact.
- The text of a folded Float. `str(float)` is a parameter `fmt` of type
  `FloatFormat` (`src/nodetypes.py:204-219`). The model assumes nothing
  about it.
- `Float(text)`. No parser builds a Float literal, so building one from text
  is not modelled.
- Simplifier.FoldIntegers: the exact-quotient branch builds `int(a / b)`.
  The model keeps the exact quotient instead. The two agree only while
  `a / b` is exact in a float.
- Simplifier.Fold: folds through `FoldIntegers`, so the same exact quotient
  applies.
- `int(text)` also accepts signs, underscores and surrounding whitespace.
  The model reads only the texts the scanner gives it: a run of digits, or
  `str` of an integer.
- `maths_parser/src/main.h`. It is an unfinished C++ header with no
  behaviour.
- The `if __name__ == '__main__'` block and the top-level `assert`s. They
  are not modelled as code. Each example they check is a lemma in
  `Scenarios` or `ScriptParses`.
- Python's recursion limit. `scanToken` (`maths_parser_python/main.py:98-104`)
  calls itself once per blank. Both parsers recurse once per bracket level
  and once per leading `-`, and `__str__`, `eval` and `simplify` recurse once
  per tree level. Past about a thousand levels Python raises
  `RecursionError`. The model's `CharParser.SkipBlanks`, the parse
  functions, `Ast.Render`, `Ast.Eval` and `Simplifier.Simplify` have no depth
  limit and succeed on such inputs.
- Ast.Apply: fails only on a zero divisor. In Python, `/` on two ints also
  raises `OverflowError` when an operand or the quotient is too large for a
  float. With exact reals this cannot happen, so `Ast.Eval`,
  `Simplifier.FoldIntegers` and `Simplifier.Simplify` never report it either.
- Python mechanics are not modelled: `copy.copy`, the shared default `env={}`,
  `__repr__`, and dispatch on the `symbol` class attribute. All trees are
  values, so `simplify` cannot change its input.
- Python's failure kinds are merged:
  - A failed tuple unpack of `None` (a `TypeError`) and `None` itself are
    `NoTree`.
  - A failed `assert` is `Trailing` or `Leftover`.
  - `KeyError` is `Unbound`.
  - `ZeroDivisionError` is `DivisionByZero`.
- `UnaryOperator.simplify` (`src/nodetypes.py:45-52`) is not modelled. The
  only unary operator, Negate, overrides it.
- The `ValueError` branches of the Integer and Float constructors are not
  modelled. Typing rules them out.
- CharParser.IsIdentifierString requires non-empty text. The original
  indexes the first character without a check and raises `IndexError` on
  empty text. The parser only ever asks about one character.
