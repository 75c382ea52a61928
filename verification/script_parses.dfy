/** The example inputs of the program's scripts that are written without
    full brackets, parsed from their text: `"x / 7 + 42 * 8 / (8 - 6)"` by the
    token parser, and `"6 + (-4 + (3*x+7) * y * 9 / (4 + 3))"` by the token
    parser and by the character parser. Each parse is taken apart into the
    steps the parse functions make, stated over any token sequence or text
    with the right pieces in the right places. */
module ScriptParses {
  import opened Results
  import opened Ast
  import opened Lexer
  import opened Numerals
  import opened Chars
  import opened RoundTrip
  import TP = TokenParser
  import CP = CharParser
  import Reparse
  import Scenarios

  // Steps of the token parser

  /** An IDENTIFIER or NUMBER token is a whole factor. */
  lemma OperandFactor(toks: seq<Token>, p: nat)
    requires ValidTokens(toks) && p < |toks| && TP.IsOperandToken(toks[p])
    ensures TP.ParseFactor(toks, p) == Some(TP.Parsed(TP.Leaf(toks[p]), p + 1))
  {
  }

  /** A term is its first factor, then the loop. */
  lemma TermFrom(toks: seq<Token>, p: nat, f: TP.Parsed)
    requires ValidTokens(toks) && p <= |toks| && TP.ParseFactor(toks, p) == Some(f)
    ensures TP.ParseTerm(toks, p) == TP.TermTail(toks, f.tree, f.next)
  {
  }

  /** One turn of the `parse_term` loop over `op` and the factor after it. */
  lemma TermTurn(toks: seq<Token>, acc: Expr, p: nat, op: BinOp, f: TP.Parsed)
    requires ValidTokens(toks) && p < |toks| && TP.Parsable(acc)
    requires toks[p] == TP.OperatorToken(op) && TP.Level(op) == 2
    requires TP.ParseFactor(toks, p + 1) == Some(f)
    ensures TP.TermTail(toks, acc, p) == TP.TermTail(toks, Binary(op, acc, f.tree), f.next)
  {
  }

  /** The `parse_term` loop stops at anything but `*` and `/`. */
  lemma TermEnds(toks: seq<Token>, acc: Expr, p: nat)
    requires ValidTokens(toks) && p <= |toks| && TP.Parsable(acc)
    requires At(toks, p).kind != Asterisk && At(toks, p).kind != Slash
    ensures TP.TermTail(toks, acc, p) == Some(TP.Parsed(acc, p))
  {
  }

  /** An expression is its first term, then the loop. */
  lemma ExprFrom(toks: seq<Token>, p: nat, t: TP.Parsed)
    requires ValidTokens(toks) && p <= |toks| && TP.ParseTerm(toks, p) == Some(t)
    ensures TP.ParseExpr(toks, p) == TP.ExprTail(toks, t.tree, t.next)
  {
  }

  /** One turn of the `parse_expr` loop over `op` and the term after it. */
  lemma ExprTurn(toks: seq<Token>, acc: Expr, p: nat, op: BinOp, t: TP.Parsed)
    requires ValidTokens(toks) && p < |toks| && TP.Parsable(acc)
    requires toks[p] == TP.OperatorToken(op) && TP.Level(op) == 1
    requires TP.ParseTerm(toks, p + 1) == Some(t)
    ensures TP.ExprTail(toks, acc, p) == TP.ExprTail(toks, Binary(op, acc, t.tree), t.next)
  {
  }

  /** The `parse_expr` loop stops at anything but `+` and `-`. */
  lemma ExprEnds(toks: seq<Token>, acc: Expr, p: nat)
    requires ValidTokens(toks) && p <= |toks| && TP.Parsable(acc)
    requires At(toks, p).kind != Plus && At(toks, p).kind != Minus
    ensures TP.ExprTail(toks, acc, p) == Some(TP.Parsed(acc, p))
  {
  }

  /** A minus sign negates the factor after it. */
  lemma NegatedOperand(toks: seq<Token>, p: nat, f: TP.Parsed)
    requires ValidTokens(toks) && p < |toks| && toks[p].kind == Minus
    requires TP.ParseFactor(toks, p + 1) == Some(f)
    ensures TP.ParseFactor(toks, p) == Some(TP.Parsed(Negate(f.tree), f.next))
  {
  }

  /** The tree of a NUMBER token with a known value. */
  lemma NumberLeaf(lex: string, v: int)
    requires IsNumeral(lex) && DecimalValue(lex) == v
    ensures TP.Leaf(Token(Number, lex)) == Integer(lex, v)
  {
  }

  // One step of the token scanner over a one-character token, with at most
  // one blank before it

  /** An operator or bracket character. */
  lemma SymbolScan(s: string, i: nat, j: nat)
    requires j < |s| && (j == i || (j == i + 1 && s[i] == ' '))
    requires !IsSpace(s[j]) && s[j] != '\0' && !IsLetter(s[j]) && !IsDigit(s[j])
    ensures Next(s, i) == (Token(AtomKind(s[j]), [s[j]]), j + 1)
  {
    assert s[j..j + 1] == [s[j]];
    assert ScansTo(s, i, Token(AtomKind(s[j]), [s[j]]), j + 1);
    ScanIsUnique(s, i, Token(AtomKind(s[j]), [s[j]]), j + 1);
  }

  /** A digit with no digit after it. */
  lemma DigitScan(s: string, i: nat, j: nat)
    requires j < |s| && (j == i || (j == i + 1 && s[i] == ' '))
    requires IsDigit(s[j]) && !IsDigit(Peek(s, j + 1))
    ensures Next(s, i) == (Token(Number, [s[j]]), j + 1)
  {
    assert s[j..j + 1] == [s[j]];
    assert ScansTo(s, i, Token(Number, [s[j]]), j + 1);
    ScanIsUnique(s, i, Token(Number, [s[j]]), j + 1);
  }

  /** A letter with no identifier character after it. */
  lemma LetterScan(s: string, i: nat, j: nat)
    requires j < |s| && (j == i || (j == i + 1 && s[i] == ' '))
    requires IsLetter(s[j]) && !IsIdentChar(Peek(s, j + 1))
    ensures Next(s, i) == (Token(Kind.Identifier, [s[j]]), j + 1)
  {
    assert s[j..j + 1] == [s[j]];
    assert ScansTo(s, i, Token(Kind.Identifier, [s[j]]), j + 1);
    ScanIsUnique(s, i, Token(Kind.Identifier, [s[j]]), j + 1);
  }

  /** Two digits with no digit after them. */
  lemma TwoDigitScan(s: string, i: nat, j: nat)
    requires j + 1 < |s| && (j == i || (j == i + 1 && s[i] == ' '))
    requires IsDigit(s[j]) && IsDigit(s[j + 1]) && !IsDigit(Peek(s, j + 2))
    ensures Next(s, i) == (Token(Number, [s[j], s[j + 1]]), j + 2)
  {
    assert s[j..j + 2] == [s[j], s[j + 1]];
    assert ScansTo(s, i, Token(Number, [s[j], s[j + 1]]), j + 2);
    ScanIsUnique(s, i, Token(Number, [s[j], s[j + 1]]), j + 2);
  }

  /** The end of the text. */
  lemma EndScan(s: string)
    ensures Next(s, |s|) == (EndToken, |s|)
  {
    assert ScansTo(s, |s|, EndToken, |s|);
    ScanIsUnique(s, |s|, EndToken, |s|);
  }

  // "x / 7 + 42 * 8 / (8 - 6)"

  const QuotientsText := "x / 7 + 42 * 8 / (8 - 6)"

  /** Its tokens before END, in three runs. */
  const QuotientsFront :=
    [Token(Kind.Identifier, "x"), Token(Slash, "/"), Token(Number, "7"), Token(Plus, "+"), Token(Number, "42")]
  const QuotientsMiddle := [Token(Asterisk, "*"), Token(Number, "8"), Token(Slash, "/"), Token(LParen, "(")]
  const QuotientsBack := [Token(Number, "8"), Token(Minus, "-"), Token(Number, "6"), Token(RParen, ")")]

  // Each call of `next` on the text, then the runs of tokens those calls give

  lemma QuotientsScan0() ensures Next(QuotientsText, 0) == (Token(Kind.Identifier, "x"), 1) {
    assert QuotientsText[0] == 'x' && QuotientsText[1] == ' ';
    LetterScan(QuotientsText, 0, 0);
  }
  lemma QuotientsScan1() ensures Next(QuotientsText, 1) == (Token(Slash, "/"), 3) {
    assert QuotientsText[1] == ' ' && QuotientsText[2] == '/';
    SymbolScan(QuotientsText, 1, 2);
  }
  lemma QuotientsScan2() ensures Next(QuotientsText, 3) == (Token(Number, "7"), 5) {
    assert QuotientsText[3] == ' ' && QuotientsText[4] == '7' && QuotientsText[5] == ' ';
    DigitScan(QuotientsText, 3, 4);
  }
  lemma QuotientsScan3() ensures Next(QuotientsText, 5) == (Token(Plus, "+"), 7) {
    assert QuotientsText[5] == ' ' && QuotientsText[6] == '+';
    SymbolScan(QuotientsText, 5, 6);
  }
  lemma QuotientsScan4() ensures Next(QuotientsText, 7) == (Token(Number, "42"), 10) {
    assert QuotientsText[7] == ' ' && QuotientsText[8] == '4' && QuotientsText[9] == '2' && QuotientsText[10] == ' ';
    TwoDigitScan(QuotientsText, 7, 8);
  }
  lemma QuotientsScan5() ensures Next(QuotientsText, 10) == (Token(Asterisk, "*"), 12) {
    assert QuotientsText[10] == ' ' && QuotientsText[11] == '*';
    SymbolScan(QuotientsText, 10, 11);
  }
  lemma QuotientsScan6() ensures Next(QuotientsText, 12) == (Token(Number, "8"), 14) {
    assert QuotientsText[12] == ' ' && QuotientsText[13] == '8' && QuotientsText[14] == ' ';
    DigitScan(QuotientsText, 12, 13);
  }
  lemma QuotientsScan7() ensures Next(QuotientsText, 14) == (Token(Slash, "/"), 16) {
    assert QuotientsText[14] == ' ' && QuotientsText[15] == '/';
    SymbolScan(QuotientsText, 14, 15);
  }
  lemma QuotientsScan8() ensures Next(QuotientsText, 16) == (Token(LParen, "("), 18) {
    assert QuotientsText[16] == ' ' && QuotientsText[17] == '(';
    SymbolScan(QuotientsText, 16, 17);
  }
  lemma QuotientsScan9() ensures Next(QuotientsText, 18) == (Token(Number, "8"), 19) {
    assert QuotientsText[18] == '8' && QuotientsText[19] == ' ';
    DigitScan(QuotientsText, 18, 18);
  }
  lemma QuotientsScan10() ensures Next(QuotientsText, 19) == (Token(Minus, "-"), 21) {
    assert QuotientsText[19] == ' ' && QuotientsText[20] == '-';
    SymbolScan(QuotientsText, 19, 20);
  }
  lemma QuotientsScan11() ensures Next(QuotientsText, 21) == (Token(Number, "6"), 23) {
    assert QuotientsText[21] == ' ' && QuotientsText[22] == '6' && QuotientsText[23] == ')';
    DigitScan(QuotientsText, 21, 22);
  }
  lemma QuotientsScan12() ensures Next(QuotientsText, 23) == (Token(RParen, ")"), 24) {
    assert QuotientsText[23] == ')';
    SymbolScan(QuotientsText, 23, 23);
  }
  lemma QuotientsScan13() ensures Next(QuotientsText, 24) == (EndToken, 24) {
    EndScan(QuotientsText);
  }

  lemma QuotientsLexesFront()
    ensures Lexes(QuotientsText, 0, QuotientsFront, 10)
  {
    QuotientsScan0(); QuotientsScan1(); QuotientsScan2(); QuotientsScan3(); QuotientsScan4();
    var (t0, t1, t2, t3, t4) := (Token(Kind.Identifier, "x"), Token(Slash, "/"), Token(Number, "7"),
                                 Token(Plus, "+"), Token(Number, "42"));
    assert Lexes(QuotientsText, 10, [], 10);
    assert Lexes(QuotientsText, 7, [t4], 10) by { assert [t4][1..] == []; }
    assert Lexes(QuotientsText, 5, [t3, t4], 10) by { assert [t3, t4][1..] == [t4]; }
    assert Lexes(QuotientsText, 3, [t2, t3, t4], 10) by { assert [t2, t3, t4][1..] == [t3, t4]; }
    assert Lexes(QuotientsText, 1, [t1, t2, t3, t4], 10) by { assert [t1, t2, t3, t4][1..] == [t2, t3, t4]; }
    assert Lexes(QuotientsText, 0, [t0, t1, t2, t3, t4], 10) by {
      assert [t0, t1, t2, t3, t4][1..] == [t1, t2, t3, t4];
    }
  }

  lemma QuotientsLexesMiddle()
    ensures Lexes(QuotientsText, 10, QuotientsMiddle, 18)
  {
    QuotientsScan5(); QuotientsScan6(); QuotientsScan7(); QuotientsScan8();
    var (t5, t6, t7, t8) := (Token(Asterisk, "*"), Token(Number, "8"), Token(Slash, "/"), Token(LParen, "("));
    assert Lexes(QuotientsText, 18, [], 18);
    assert Lexes(QuotientsText, 16, [t8], 18) by { assert [t8][1..] == []; }
    assert Lexes(QuotientsText, 14, [t7, t8], 18) by { assert [t7, t8][1..] == [t8]; }
    assert Lexes(QuotientsText, 12, [t6, t7, t8], 18) by { assert [t6, t7, t8][1..] == [t7, t8]; }
    assert Lexes(QuotientsText, 10, [t5, t6, t7, t8], 18) by { assert [t5, t6, t7, t8][1..] == [t6, t7, t8]; }
  }

  lemma QuotientsLexesBack()
    ensures Lexes(QuotientsText, 18, QuotientsBack, 24)
  {
    QuotientsScan9(); QuotientsScan10(); QuotientsScan11(); QuotientsScan12();
    var (t9, t10, t11, t12) :=
      (Token(Number, "8"), Token(Minus, "-"), Token(Number, "6"), Token(RParen, ")"));
    assert Lexes(QuotientsText, 24, [], 24);
    assert Lexes(QuotientsText, 23, [t12], 24) by { assert [t12][1..] == []; }
    assert Lexes(QuotientsText, 21, [t11, t12], 24) by { assert [t11, t12][1..] == [t12]; }
    assert Lexes(QuotientsText, 19, [t10, t11, t12], 24) by { assert [t10, t11, t12][1..] == [t11, t12]; }
    assert Lexes(QuotientsText, 18, [t9, t10, t11, t12], 24) by { assert [t9, t10, t11, t12][1..] == [t10, t11, t12]; }
  }

  /** The input lexes as its thirteen tokens and END. */
  lemma QuotientsTokens()
    ensures Tokens(QuotientsText, 0) == QuotientsFront + QuotientsMiddle + QuotientsBack + [EndToken]
  {
    var (a, b, c) := (QuotientsFront, QuotientsMiddle, QuotientsBack);
    QuotientsLexesFront(); QuotientsLexesMiddle(); QuotientsLexesBack();
    LexesChain3(QuotientsText, 0, a, 10, b, 18, c, 24);
    QuotientsScan13();
    Scenarios.ScannedThenEnd(QuotientsText, 0, a + b + c, 24);
  }

  /** `x / 7`, stopped by the `+`. */
  lemma QuotientsLeftTerm(toks: seq<Token>)
    requires ValidTokens(toks) && |toks| >= 4
    requires toks[0] == Token(Kind.Identifier, "x") && toks[1] == Token(Slash, "/")
    requires toks[2] == Token(Number, "7") && toks[3] == Token(Plus, "+")
    ensures TP.ParseTerm(toks, 0) == Some(TP.Parsed(Binary(Div, Expr.Identifier("x"), Integer("7", 7)), 3))
  {
    Scenarios.ShortNumerals("7");
    NumberLeaf("7", 7);
    OperandFactor(toks, 0);
    OperandFactor(toks, 2);
    var x := TP.Leaf(toks[0]);
    var seven := TP.Leaf(toks[2]);
    TermTurn(toks, x, 1, Div, TP.Parsed(seven, 3));
    TermEnds(toks, Binary(Div, x, seven), 3);
    TermFrom(toks, 0, TP.Parsed(x, 1));
  }

  /** `(8 - 6)` as a factor. */
  lemma QuotientsBracket(toks: seq<Token>)
    requires ValidTokens(toks) && |toks| >= 13
    requires toks[8] == Token(LParen, "(") && toks[9] == Token(Number, "8") && toks[10] == Token(Minus, "-")
    requires toks[11] == Token(Number, "6") && toks[12] == Token(RParen, ")")
    ensures TP.ParseFactor(toks, 8) == Some(TP.Parsed(Binary(Subtract, Integer("8", 8), Integer("6", 6)), 13))
  {
    Scenarios.ShortNumerals("8"); Scenarios.ShortNumerals("6");
    NumberLeaf("8", 8); NumberLeaf("6", 6);
    var (eight, six) := (Integer("8", 8), Integer("6", 6));
    OperandFactor(toks, 9);
    TermEnds(toks, eight, 10);
    TermFrom(toks, 9, TP.Parsed(eight, 10));
    OperandFactor(toks, 11);
    TermEnds(toks, six, 12);
    TermFrom(toks, 11, TP.Parsed(six, 12));
    ExprTurn(toks, eight, 10, Subtract, TP.Parsed(six, 12));
    ExprEnds(toks, Binary(Subtract, eight, six), 12);
    ExprFrom(toks, 9, TP.Parsed(eight, 10));
    Reparse.Bracketed(toks, 8, TP.Parsed(Binary(Subtract, eight, six), 12));
  }

  /** `42 * 8`, with the loop of `parse_term` going on after it. */
  lemma QuotientsProduct(toks: seq<Token>)
    requires ValidTokens(toks) && |toks| >= 8
    requires toks[4] == Token(Number, "42") && toks[5] == Token(Asterisk, "*") && toks[6] == Token(Number, "8")
    ensures TP.Parsable(Binary(Mult, Integer("42", 42), Integer("8", 8)))
    ensures TP.ParseTerm(toks, 4) == TP.TermTail(toks, Binary(Mult, Integer("42", 42), Integer("8", 8)), 7)
  {
    Scenarios.ShortNumerals("42"); Scenarios.ShortNumerals("8");
    NumberLeaf("42", 42); NumberLeaf("8", 8);
    var (n42, n8) := (Integer("42", 42), Integer("8", 8));
    OperandFactor(toks, 4);
    OperandFactor(toks, 6);
    TermTurn(toks, n42, 5, Mult, TP.Parsed(n8, 7));
    TermFrom(toks, 4, TP.Parsed(n42, 5));
  }

  /** `42 * 8 / (8 - 6)`, stopped by END. */
  lemma QuotientsRightTerm(toks: seq<Token>, bracket: Expr)
    requires ValidTokens(toks) && |toks| == 14 && toks[13] == EndToken
    requires toks[4] == Token(Number, "42") && toks[5] == Token(Asterisk, "*")
    requires toks[6] == Token(Number, "8") && toks[7] == Token(Slash, "/")
    requires TP.ParseFactor(toks, 8) == Some(TP.Parsed(bracket, 13))
    ensures TP.ParseTerm(toks, 4)
         == Some(TP.Parsed(Binary(Div, Binary(Mult, Integer("42", 42), Integer("8", 8)), bracket), 13))
  {
    QuotientsProduct(toks);
    var product := Binary(Mult, Integer("42", 42), Integer("8", 8));
    TermTurn(toks, product, 7, Div, TP.Parsed(bracket, 13));
    TermEnds(toks, Binary(Div, product, bracket), 13);
  }

  /** The parse of a text whose tokens parse to `tree` and stop at END. */
  lemma ParseOfTokens(s: string, tree: Expr, n: nat)
    requires TP.ParseExpr(Tokens(s, 0), 0) == Some(TP.Parsed(tree, n))
    requires At(Tokens(s, 0), n).kind == End
    ensures TP.Parse(s) == Ok(tree)
  {
  }

  /** The token sequence of the quotient script parses to its tree, ending
      just before END. */
  lemma QuotientsExpr(toks: seq<Token>)
    requires ValidTokens(toks) && |toks| == 14 && toks[13] == EndToken
    requires toks[0] == Token(Kind.Identifier, "x") && toks[1] == Token(Slash, "/")
    requires toks[2] == Token(Number, "7") && toks[3] == Token(Plus, "+")
    requires toks[4] == Token(Number, "42") && toks[5] == Token(Asterisk, "*")
    requires toks[6] == Token(Number, "8") && toks[7] == Token(Slash, "/")
    requires toks[8] == Token(LParen, "(") && toks[9] == Token(Number, "8") && toks[10] == Token(Minus, "-")
    requires toks[11] == Token(Number, "6") && toks[12] == Token(RParen, ")")
    ensures TP.ParseExpr(toks, 0) == Some(TP.Parsed(Scenarios.Quotients, 13))
  {
    QuotientsLeftTerm(toks);
    QuotientsBracket(toks);
    var bracket := Binary(Subtract, Integer("8", 8), Integer("6", 6));
    QuotientsRightTerm(toks, bracket);
    var left := Binary(Div, Expr.Identifier("x"), Integer("7", 7));
    var right := Binary(Div, Binary(Mult, Integer("42", 42), Integer("8", 8)), bracket);
    ExprTurn(toks, left, 3, Add, TP.Parsed(right, 13));
    ExprEnds(toks, Binary(Add, left, right), 13);
    ExprFrom(toks, 0, TP.Parsed(left, 3));
  }

  lemma QuotientsFrontAt(toks: seq<Token>, rest: seq<Token>)
    requires toks == QuotientsFront + rest
    ensures toks[0] == Token(Kind.Identifier, "x") && toks[1] == Token(Slash, "/")
    ensures toks[2] == Token(Number, "7") && toks[3] == Token(Plus, "+") && toks[4] == Token(Number, "42")
  {
  }

  lemma QuotientsMiddleAt(toks: seq<Token>, front: seq<Token>, rest: seq<Token>)
    requires |front| == 5 && toks == front + QuotientsMiddle + rest
    ensures toks[5] == Token(Asterisk, "*") && toks[6] == Token(Number, "8")
    ensures toks[7] == Token(Slash, "/") && toks[8] == Token(LParen, "(")
  {
  }

  lemma QuotientsBackAt(toks: seq<Token>, front: seq<Token>)
    requires |front| == 9 && toks == front + QuotientsBack + [EndToken]
    ensures |toks| == 14 && toks[13] == EndToken
    ensures toks[9] == Token(Number, "8") && toks[10] == Token(Minus, "-")
    ensures toks[11] == Token(Number, "6") && toks[12] == Token(RParen, ")")
  {
  }

  /** Any text with the quotient script's tokens parses to its tree. */
  lemma QuotientsParseOf(s: string)
    requires Tokens(s, 0) == QuotientsFront + QuotientsMiddle + QuotientsBack + [EndToken]
    ensures TP.Parse(s) == Ok(Scenarios.Quotients)
  {
    var toks := Tokens(s, 0);
    QuotientsFrontAt(toks, QuotientsMiddle + QuotientsBack + [EndToken]);
    QuotientsMiddleAt(toks, QuotientsFront, QuotientsBack + [EndToken]);
    QuotientsBackAt(toks, QuotientsFront + QuotientsMiddle);
    QuotientsExpr(toks);
    ParseOfTokens(s, Scenarios.Quotients, 13);
  }

  /** The script's `parse("x / 7 + 42 * 8 / (8 - 6)")`: the quotient on the
      left and the chain `42 * 8 / (8 - 6)` on the right group first, and
      that chain folds to the left. */
  lemma QuotientsParses()
    ensures TP.Parse(QuotientsText) == Ok(Scenarios.Quotients)
  {
    QuotientsTokens();
    QuotientsParseOf(QuotientsText);
  }

  // "6 + (-4 + (3*x+7) * y * 9 / (4 + 3))", read by the token parser

  const MixedText := "6 + (-4 +" + " (3*x+7) * y * 9 / (4 + 3))"

  /** Its tokens before END, in five runs. */
  const MixedTokensFront :=
    [Token(Number, "6"), Token(Plus, "+"), Token(LParen, "("),
     Token(Minus, "-"), Token(Number, "4")]
  const MixedTokensInner :=
    [Token(Plus, "+"), Token(LParen, "("), Token(Number, "3"),
     Token(Asterisk, "*"), Token(Kind.Identifier, "x")]
  const MixedTokensClose :=
    [Token(Plus, "+"), Token(Number, "7"), Token(RParen, ")"),
     Token(Asterisk, "*"), Token(Kind.Identifier, "y")]
  const MixedTokensQuotient :=
    [Token(Asterisk, "*"), Token(Number, "9"), Token(Slash, "/"),
     Token(LParen, "("), Token(Number, "4")]
  const MixedTokensBack := [Token(Plus, "+"), Token(Number, "3"), Token(RParen, ")"), Token(RParen, ")")]

  // Each call of `next` on the text, then the runs of tokens those calls give

  lemma MixedScan0() ensures Next(MixedText, 0) == (Token(Number, "6"), 1) {
    assert MixedText[0] == '6' && MixedText[1] == ' ';
    DigitScan(MixedText, 0, 0);
  }
  lemma MixedScan1() ensures Next(MixedText, 1) == (Token(Plus, "+"), 3) {
    assert MixedText[1] == ' ' && MixedText[2] == '+';
    SymbolScan(MixedText, 1, 2);
  }
  lemma MixedScan2() ensures Next(MixedText, 3) == (Token(LParen, "("), 5) {
    assert MixedText[3] == ' ' && MixedText[4] == '(';
    SymbolScan(MixedText, 3, 4);
  }
  lemma MixedScan3() ensures Next(MixedText, 5) == (Token(Minus, "-"), 6) {
    assert MixedText[5] == '-';
    SymbolScan(MixedText, 5, 5);
  }
  lemma MixedScan4() ensures Next(MixedText, 6) == (Token(Number, "4"), 7) {
    assert MixedText[6] == '4' && MixedText[7] == ' ';
    DigitScan(MixedText, 6, 6);
  }
  lemma MixedScan5() ensures Next(MixedText, 7) == (Token(Plus, "+"), 9) {
    assert MixedText[7] == ' ' && MixedText[8] == '+';
    SymbolScan(MixedText, 7, 8);
  }
  lemma MixedScan6() ensures Next(MixedText, 9) == (Token(LParen, "("), 11) {
    assert MixedText[9] == ' ' && MixedText[10] == '(';
    SymbolScan(MixedText, 9, 10);
  }
  lemma MixedScan7() ensures Next(MixedText, 11) == (Token(Number, "3"), 12) {
    assert MixedText[11] == '3' && MixedText[12] == '*';
    DigitScan(MixedText, 11, 11);
  }
  lemma MixedScan8() ensures Next(MixedText, 12) == (Token(Asterisk, "*"), 13) {
    assert MixedText[12] == '*';
    SymbolScan(MixedText, 12, 12);
  }
  lemma MixedScan9() ensures Next(MixedText, 13) == (Token(Kind.Identifier, "x"), 14) {
    assert MixedText[13] == 'x' && MixedText[14] == '+';
    LetterScan(MixedText, 13, 13);
  }
  lemma MixedScan10() ensures Next(MixedText, 14) == (Token(Plus, "+"), 15) {
    assert MixedText[14] == '+';
    SymbolScan(MixedText, 14, 14);
  }
  lemma MixedScan11() ensures Next(MixedText, 15) == (Token(Number, "7"), 16) {
    assert MixedText[15] == '7' && MixedText[16] == ')';
    DigitScan(MixedText, 15, 15);
  }
  lemma MixedScan12() ensures Next(MixedText, 16) == (Token(RParen, ")"), 17) {
    assert MixedText[16] == ')';
    SymbolScan(MixedText, 16, 16);
  }
  lemma MixedScan13() ensures Next(MixedText, 17) == (Token(Asterisk, "*"), 19) {
    assert MixedText[17] == ' ' && MixedText[18] == '*';
    SymbolScan(MixedText, 17, 18);
  }
  lemma MixedScan14() ensures Next(MixedText, 19) == (Token(Kind.Identifier, "y"), 21) {
    assert MixedText[19] == ' ' && MixedText[20] == 'y' && MixedText[21] == ' ';
    LetterScan(MixedText, 19, 20);
  }
  lemma MixedScan15() ensures Next(MixedText, 21) == (Token(Asterisk, "*"), 23) {
    assert MixedText[21] == ' ' && MixedText[22] == '*';
    SymbolScan(MixedText, 21, 22);
  }
  lemma MixedScan16() ensures Next(MixedText, 23) == (Token(Number, "9"), 25) {
    assert MixedText[23] == ' ' && MixedText[24] == '9' && MixedText[25] == ' ';
    DigitScan(MixedText, 23, 24);
  }
  lemma MixedScan17() ensures Next(MixedText, 25) == (Token(Slash, "/"), 27) {
    assert MixedText[25] == ' ' && MixedText[26] == '/';
    SymbolScan(MixedText, 25, 26);
  }
  lemma MixedScan18() ensures Next(MixedText, 27) == (Token(LParen, "("), 29) {
    assert MixedText[27] == ' ' && MixedText[28] == '(';
    SymbolScan(MixedText, 27, 28);
  }
  lemma MixedScan19() ensures Next(MixedText, 29) == (Token(Number, "4"), 30) {
    assert MixedText[29] == '4' && MixedText[30] == ' ';
    DigitScan(MixedText, 29, 29);
  }
  lemma MixedScan20() ensures Next(MixedText, 30) == (Token(Plus, "+"), 32) {
    assert MixedText[30] == ' ' && MixedText[31] == '+';
    SymbolScan(MixedText, 30, 31);
  }
  lemma MixedScan21() ensures Next(MixedText, 32) == (Token(Number, "3"), 34) {
    assert MixedText[32] == ' ' && MixedText[33] == '3' && MixedText[34] == ')';
    DigitScan(MixedText, 32, 33);
  }
  lemma MixedScan22() ensures Next(MixedText, 34) == (Token(RParen, ")"), 35) {
    assert MixedText[34] == ')';
    SymbolScan(MixedText, 34, 34);
  }
  lemma MixedScan23() ensures Next(MixedText, 35) == (Token(RParen, ")"), 36) {
    assert MixedText[35] == ')';
    SymbolScan(MixedText, 35, 35);
  }
  lemma MixedScan24() ensures Next(MixedText, 36) == (EndToken, 36) {
    EndScan(MixedText);
  }

  lemma MixedLexesFront()
    ensures Lexes(MixedText, 0, MixedTokensFront, 7)
  {
    MixedScan0(); MixedScan1(); MixedScan2(); MixedScan3(); MixedScan4();
    var (t0, t1, t2, t3, t4) :=
      (Token(Number, "6"), Token(Plus, "+"), Token(LParen, "("), Token(Minus, "-"), Token(Number, "4"));
    assert Lexes(MixedText, 7, [], 7);
    assert Lexes(MixedText, 6, [t4], 7) by { assert [t4][1..] == []; }
    assert Lexes(MixedText, 5, [t3, t4], 7) by { assert [t3, t4][1..] == [t4]; }
    assert Lexes(MixedText, 3, [t2, t3, t4], 7) by { assert [t2, t3, t4][1..] == [t3, t4]; }
    assert Lexes(MixedText, 1, [t1, t2, t3, t4], 7) by { assert [t1, t2, t3, t4][1..] == [t2, t3, t4]; }
    assert Lexes(MixedText, 0, [t0, t1, t2, t3, t4], 7) by { assert [t0, t1, t2, t3, t4][1..] == [t1, t2, t3, t4]; }
  }

  lemma MixedLexesInner()
    ensures Lexes(MixedText, 7, MixedTokensInner, 14)
  {
    MixedScan5(); MixedScan6(); MixedScan7(); MixedScan8(); MixedScan9();
    var (t5, t6, t7, t8, t9) :=
      (Token(Plus, "+"), Token(LParen, "("), Token(Number, "3"), Token(Asterisk, "*"), Token(Kind.Identifier, "x"));
    assert Lexes(MixedText, 14, [], 14);
    assert Lexes(MixedText, 13, [t9], 14) by { assert [t9][1..] == []; }
    assert Lexes(MixedText, 12, [t8, t9], 14) by { assert [t8, t9][1..] == [t9]; }
    assert Lexes(MixedText, 11, [t7, t8, t9], 14) by { assert [t7, t8, t9][1..] == [t8, t9]; }
    assert Lexes(MixedText, 9, [t6, t7, t8, t9], 14) by { assert [t6, t7, t8, t9][1..] == [t7, t8, t9]; }
    assert Lexes(MixedText, 7, [t5, t6, t7, t8, t9], 14) by { assert [t5, t6, t7, t8, t9][1..] == [t6, t7, t8, t9]; }
  }

  lemma MixedLexesClose()
    ensures Lexes(MixedText, 14, MixedTokensClose, 21)
  {
    MixedScan10(); MixedScan11(); MixedScan12(); MixedScan13(); MixedScan14();
    var (t10, t11, t12, t13, t14) :=
      (Token(Plus, "+"), Token(Number, "7"), Token(RParen, ")"), Token(Asterisk, "*"), Token(Kind.Identifier, "y"));
    assert Lexes(MixedText, 21, [], 21);
    assert Lexes(MixedText, 19, [t14], 21) by { assert [t14][1..] == []; }
    assert Lexes(MixedText, 17, [t13, t14], 21) by { assert [t13, t14][1..] == [t14]; }
    assert Lexes(MixedText, 16, [t12, t13, t14], 21) by { assert [t12, t13, t14][1..] == [t13, t14]; }
    assert Lexes(MixedText, 15, [t11, t12, t13, t14], 21) by { assert [t11, t12, t13, t14][1..] == [t12, t13, t14]; }
    assert Lexes(MixedText, 14, [t10, t11, t12, t13, t14], 21) by {
      assert [t10, t11, t12, t13, t14][1..] == [t11, t12, t13, t14];
    }
  }

  lemma MixedLexesQuotient()
    ensures Lexes(MixedText, 21, MixedTokensQuotient, 30)
  {
    MixedScan15(); MixedScan16(); MixedScan17(); MixedScan18(); MixedScan19();
    var (t15, t16, t17, t18, t19) :=
      (Token(Asterisk, "*"), Token(Number, "9"), Token(Slash, "/"), Token(LParen, "("), Token(Number, "4"));
    assert Lexes(MixedText, 30, [], 30);
    assert Lexes(MixedText, 29, [t19], 30) by { assert [t19][1..] == []; }
    assert Lexes(MixedText, 27, [t18, t19], 30) by { assert [t18, t19][1..] == [t19]; }
    assert Lexes(MixedText, 25, [t17, t18, t19], 30) by { assert [t17, t18, t19][1..] == [t18, t19]; }
    assert Lexes(MixedText, 23, [t16, t17, t18, t19], 30) by { assert [t16, t17, t18, t19][1..] == [t17, t18, t19]; }
    assert Lexes(MixedText, 21, [t15, t16, t17, t18, t19], 30) by {
      assert [t15, t16, t17, t18, t19][1..] == [t16, t17, t18, t19];
    }
  }

  lemma MixedLexesBack()
    ensures Lexes(MixedText, 30, MixedTokensBack, 36)
  {
    MixedScan20(); MixedScan21(); MixedScan22(); MixedScan23();
    var (t20, t21, t22, t23) :=
      (Token(Plus, "+"), Token(Number, "3"), Token(RParen, ")"), Token(RParen, ")"));
    assert Lexes(MixedText, 36, [], 36);
    assert Lexes(MixedText, 35, [t23], 36) by { assert [t23][1..] == []; }
    assert Lexes(MixedText, 34, [t22, t23], 36) by { assert [t22, t23][1..] == [t23]; }
    assert Lexes(MixedText, 32, [t21, t22, t23], 36) by { assert [t21, t22, t23][1..] == [t22, t23]; }
    assert Lexes(MixedText, 30, [t20, t21, t22, t23], 36) by { assert [t20, t21, t22, t23][1..] == [t21, t22, t23]; }
  }


  /** The input lexes as its twenty-four tokens and END. */
  lemma MixedTokens()
    ensures Tokens(MixedText, 0)
         == MixedTokensFront + MixedTokensInner + MixedTokensClose + MixedTokensQuotient + MixedTokensBack + [EndToken]
  {
    MixedLexesFront(); MixedLexesInner(); MixedLexesClose(); MixedLexesQuotient(); MixedLexesBack();
    LexesChain3(MixedText, 0, MixedTokensFront, 7, MixedTokensInner, 14, MixedTokensClose, 21);
    LexesChain3(MixedText, 0, MixedTokensFront + MixedTokensInner + MixedTokensClose, 21,
                MixedTokensQuotient, 30, MixedTokensBack, 36);
    MixedScan24();
    Scenarios.ScannedThenEnd(MixedText, 0,
      MixedTokensFront + MixedTokensInner + MixedTokensClose + MixedTokensQuotient + MixedTokensBack, 36);
  }

  /** Where each run of tokens sits, given that the tokens from `n` on are
      the run and then `rest`. */
  lemma MixedTokensFrontAt(toks: seq<Token>, n: nat, rest: seq<Token>)
    requires n <= |toks| && toks[n..] == MixedTokensFront + rest
    ensures toks[n] == Token(Number, "6") && toks[n + 1] == Token(Plus, "+") && toks[n + 2] == Token(LParen, "(")
    ensures toks[n + 3] == Token(Minus, "-") && toks[n + 4] == Token(Number, "4")
    ensures toks[n + 5..] == rest
  {
    assert forall j :: 0 <= j < 5 ==> toks[n + j] == toks[n..][j];
  }

  lemma MixedTokensInnerAt(toks: seq<Token>, n: nat, rest: seq<Token>)
    requires n <= |toks| && toks[n..] == MixedTokensInner + rest
    ensures toks[n] == Token(Plus, "+") && toks[n + 1] == Token(LParen, "(") && toks[n + 2] == Token(Number, "3")
    ensures toks[n + 3] == Token(Asterisk, "*") && toks[n + 4] == Token(Kind.Identifier, "x")
    ensures toks[n + 5..] == rest
  {
    assert forall j :: 0 <= j < 5 ==> toks[n + j] == toks[n..][j];
  }

  lemma MixedTokensCloseAt(toks: seq<Token>, n: nat, rest: seq<Token>)
    requires n <= |toks| && toks[n..] == MixedTokensClose + rest
    ensures toks[n] == Token(Plus, "+") && toks[n + 1] == Token(Number, "7") && toks[n + 2] == Token(RParen, ")")
    ensures toks[n + 3] == Token(Asterisk, "*") && toks[n + 4] == Token(Kind.Identifier, "y")
    ensures toks[n + 5..] == rest
  {
    assert forall j :: 0 <= j < 5 ==> toks[n + j] == toks[n..][j];
  }

  lemma MixedTokensQuotientAt(toks: seq<Token>, n: nat, rest: seq<Token>)
    requires n <= |toks| && toks[n..] == MixedTokensQuotient + rest
    ensures toks[n] == Token(Asterisk, "*") && toks[n + 1] == Token(Number, "9") && toks[n + 2] == Token(Slash, "/")
    ensures toks[n + 3] == Token(LParen, "(") && toks[n + 4] == Token(Number, "4")
    ensures toks[n + 5..] == rest
  {
    assert forall j :: 0 <= j < 5 ==> toks[n + j] == toks[n..][j];
  }

  lemma MixedTokensBackAt(toks: seq<Token>, n: nat, rest: seq<Token>)
    requires n <= |toks| && toks[n..] == MixedTokensBack + rest
    ensures toks[n] == Token(Plus, "+") && toks[n + 1] == Token(Number, "3") && toks[n + 2] == Token(RParen, ")")
    ensures toks[n + 3] == Token(RParen, ")")
    ensures toks[n + 4..] == rest
  {
    assert forall j :: 0 <= j < 4 ==> toks[n + j] == toks[n..][j];
  }

  /** `3 * x` inside the first bracket, stopped by the `+`. */
  lemma TokenThreeTimesX(toks: seq<Token>)
    requires ValidTokens(toks) && |toks| > 10
    requires toks[7] == Token(Number, "3") && toks[8] == Token(Asterisk, "*")
    requires toks[9] == Token(Kind.Identifier, "x") && toks[10] == Token(Plus, "+")
    ensures TP.ParseTerm(toks, 7) == Some(TP.Parsed(Binary(Mult, Integer("3", 3), Expr.Identifier("x")), 10))
  {
    Scenarios.ShortNumerals("3");
    NumberLeaf("3", 3);
    OperandFactor(toks, 7);
    OperandFactor(toks, 9);
    var (three, x) := (Integer("3", 3), Expr.Identifier("x"));
    TermTurn(toks, three, 8, Mult, TP.Parsed(x, 10));
    TermEnds(toks, Binary(Mult, three, x), 10);
    TermFrom(toks, 7, TP.Parsed(three, 8));
  }

  /** `(3 * x + 7)` as a factor. */
  lemma TokenInnerSum(toks: seq<Token>)
    requires ValidTokens(toks) && |toks| > 12
    requires toks[6] == Token(LParen, "(") && toks[7] == Token(Number, "3") && toks[8] == Token(Asterisk, "*")
    requires toks[9] == Token(Kind.Identifier, "x") && toks[10] == Token(Plus, "+")
    requires toks[11] == Token(Number, "7") && toks[12] == Token(RParen, ")")
    ensures TP.ParseFactor(toks, 6)
         == Some(TP.Parsed(Binary(Add, Binary(Mult, Integer("3", 3), Expr.Identifier("x")), Integer("7", 7)), 13))
  {
    TokenThreeTimesX(toks);
    var (product, seven) := (Binary(Mult, Integer("3", 3), Expr.Identifier("x")), Integer("7", 7));
    Scenarios.ShortNumerals("7");
    NumberLeaf("7", 7);
    OperandFactor(toks, 11);
    TermEnds(toks, seven, 12);
    TermFrom(toks, 11, TP.Parsed(seven, 12));
    ExprTurn(toks, product, 10, Add, TP.Parsed(seven, 12));
    ExprEnds(toks, Binary(Add, product, seven), 12);
    ExprFrom(toks, 7, TP.Parsed(product, 10));
    Reparse.Bracketed(toks, 6, TP.Parsed(Binary(Add, product, seven), 12));
  }

  /** `(4 + 3)` as a factor, followed by the closing `)`. */
  lemma TokenLastSum(toks: seq<Token>)
    requires ValidTokens(toks) && |toks| > 23
    requires toks[18] == Token(LParen, "(") && toks[19] == Token(Number, "4") && toks[20] == Token(Plus, "+")
    requires toks[21] == Token(Number, "3") && toks[22] == Token(RParen, ")") && toks[23] == Token(RParen, ")")
    ensures TP.ParseFactor(toks, 18) == Some(TP.Parsed(Binary(Add, Integer("4", 4), Integer("3", 3)), 23))
  {
    Scenarios.ShortNumerals("4"); Scenarios.ShortNumerals("3");
    NumberLeaf("4", 4); NumberLeaf("3", 3);
    var (four, three) := (Integer("4", 4), Integer("3", 3));
    OperandFactor(toks, 19);
    TermEnds(toks, four, 20);
    TermFrom(toks, 19, TP.Parsed(four, 20));
    OperandFactor(toks, 21);
    TermEnds(toks, three, 22);
    TermFrom(toks, 21, TP.Parsed(three, 22));
    ExprTurn(toks, four, 20, Add, TP.Parsed(three, 22));
    ExprEnds(toks, Binary(Add, four, three), 22);
    ExprFrom(toks, 19, TP.Parsed(four, 20));
    Reparse.Bracketed(toks, 18, TP.Parsed(Binary(Add, four, three), 22));
  }

  /** `a * y * 9`, with the loop of `parse_term` going on after it. */
  lemma TokenProductStart(toks: seq<Token>, a: Expr)
    requires ValidTokens(toks) && |toks| > 17 && TP.ParseFactor(toks, 6) == Some(TP.Parsed(a, 13))
    requires toks[13] == Token(Asterisk, "*") && toks[14] == Token(Kind.Identifier, "y")
    requires toks[15] == Token(Asterisk, "*") && toks[16] == Token(Number, "9")
    ensures TP.Parsable(Binary(Mult, Binary(Mult, a, Expr.Identifier("y")), Integer("9", 9)))
    ensures TP.ParseTerm(toks, 6)
         == TP.TermTail(toks, Binary(Mult, Binary(Mult, a, Expr.Identifier("y")), Integer("9", 9)), 17)
  {
    Scenarios.ShortNumerals("9");
    NumberLeaf("9", 9);
    var (y, nine) := (Expr.Identifier("y"), Integer("9", 9));
    OperandFactor(toks, 14);
    OperandFactor(toks, 16);
    TermTurn(toks, a, 13, Mult, TP.Parsed(y, 15));
    TermTurn(toks, Binary(Mult, a, y), 15, Mult, TP.Parsed(nine, 17));
    TermFrom(toks, 6, TP.Parsed(a, 13));
  }

  /** `a * y * 9 / d`, for the bracketed factors `a` and `d`, folds to the
      left and stops at the `)` after it. */
  lemma TokenProductChain(toks: seq<Token>, a: Expr, d: Expr)
    requires ValidTokens(toks) && |toks| > 23 && TP.ParseFactor(toks, 6) == Some(TP.Parsed(a, 13))
    requires toks[13] == Token(Asterisk, "*") && toks[14] == Token(Kind.Identifier, "y")
    requires toks[15] == Token(Asterisk, "*") && toks[16] == Token(Number, "9") && toks[17] == Token(Slash, "/")
    requires TP.ParseFactor(toks, 18) == Some(TP.Parsed(d, 23)) && toks[23] == Token(RParen, ")")
    ensures TP.ParseTerm(toks, 6)
         == Some(TP.Parsed(Binary(Div, Binary(Mult, Binary(Mult, a, Expr.Identifier("y")), Integer("9", 9)), d), 23))
  {
    TokenProductStart(toks, a);
    var product := Binary(Mult, Binary(Mult, a, Expr.Identifier("y")), Integer("9", 9));
    TermTurn(toks, product, 17, Div, TP.Parsed(d, 23));
    TermEnds(toks, Binary(Div, product, d), 23);
  }

  /** `(-4 + p)` as a factor, where `p` is the term from token 6 to the
      closing `)` at token 23. */
  lemma TokenOuterBracket(toks: seq<Token>, p: Expr)
    requires ValidTokens(toks) && |toks| > 23
    requires toks[2] == Token(LParen, "(") && toks[3] == Token(Minus, "-")
    requires toks[4] == Token(Number, "4") && toks[5] == Token(Plus, "+")
    requires TP.ParseTerm(toks, 6) == Some(TP.Parsed(p, 23)) && toks[23] == Token(RParen, ")")
    ensures TP.ParseFactor(toks, 2) == Some(TP.Parsed(Binary(Add, Negate(Integer("4", 4)), p), 24))
  {
    Scenarios.ShortNumerals("4");
    NumberLeaf("4", 4);
    var four := Integer("4", 4);
    OperandFactor(toks, 4);
    NegatedOperand(toks, 3, TP.Parsed(four, 5));
    TermEnds(toks, Negate(four), 5);
    TermFrom(toks, 3, TP.Parsed(Negate(four), 5));
    ExprTurn(toks, Negate(four), 5, Add, TP.Parsed(p, 23));
    ExprEnds(toks, Binary(Add, Negate(four), p), 23);
    ExprFrom(toks, 3, TP.Parsed(Negate(four), 5));
    Reparse.Bracketed(toks, 2, TP.Parsed(Binary(Add, Negate(four), p), 23));
  }

  /** `6 + b`, for the bracketed factor `b` that runs up to END. */
  lemma TokenOuterSum(toks: seq<Token>, b: Expr)
    requires ValidTokens(toks) && |toks| == 25 && toks[24] == EndToken
    requires toks[0] == Token(Number, "6") && toks[1] == Token(Plus, "+")
    requires TP.ParseFactor(toks, 2) == Some(TP.Parsed(b, 24))
    ensures TP.ParseExpr(toks, 0) == Some(TP.Parsed(Binary(Add, Integer("6", 6), b), 24))
  {
    Scenarios.ShortNumerals("6");
    NumberLeaf("6", 6);
    var six := Integer("6", 6);
    OperandFactor(toks, 0);
    TermEnds(toks, six, 1);
    TermFrom(toks, 0, TP.Parsed(six, 1));
    TermEnds(toks, b, 24);
    TermFrom(toks, 2, TP.Parsed(b, 24));
    ExprTurn(toks, six, 1, Add, TP.Parsed(b, 24));
    ExprEnds(toks, Binary(Add, six, b), 24);
    ExprFrom(toks, 0, TP.Parsed(six, 1));
  }

  /** The token sequence of the mixed script parses to its tree, ending
      just before END. */
  lemma MixedExpr(toks: seq<Token>)
    requires ValidTokens(toks) && |toks| == 25 && toks[24] == EndToken
    requires toks[0] == Token(Number, "6") && toks[1] == Token(Plus, "+") && toks[2] == Token(LParen, "(")
    requires toks[3] == Token(Minus, "-") && toks[4] == Token(Number, "4") && toks[5] == Token(Plus, "+")
    requires toks[6] == Token(LParen, "(") && toks[7] == Token(Number, "3") && toks[8] == Token(Asterisk, "*")
    requires toks[9] == Token(Kind.Identifier, "x") && toks[10] == Token(Plus, "+")
    requires toks[11] == Token(Number, "7") && toks[12] == Token(RParen, ")") && toks[13] == Token(Asterisk, "*")
    requires toks[14] == Token(Kind.Identifier, "y") && toks[15] == Token(Asterisk, "*")
    requires toks[16] == Token(Number, "9") && toks[17] == Token(Slash, "/") && toks[18] == Token(LParen, "(")
    requires toks[19] == Token(Number, "4") && toks[20] == Token(Plus, "+") && toks[21] == Token(Number, "3")
    requires toks[22] == Token(RParen, ")") && toks[23] == Token(RParen, ")")
    ensures TP.ParseExpr(toks, 0) == Some(TP.Parsed(Scenarios.Mixed, 24))
  {
    TokenInnerSum(toks);
    TokenLastSum(toks);
    var a := Binary(Add, Binary(Mult, Integer("3", 3), Expr.Identifier("x")), Integer("7", 7));
    var d := Binary(Add, Integer("4", 4), Integer("3", 3));
    TokenProductChain(toks, a, d);
    var p := Binary(Div, Binary(Mult, Binary(Mult, a, Expr.Identifier("y")), Integer("9", 9)), d);
    TokenOuterBracket(toks, p);
    var b := Binary(Add, Negate(Integer("4", 4)), p);
    TokenOuterSum(toks, b);
  }

  /** Six runs of tokens, joined from the right instead of the left. */
  lemma Regroup(a: seq<Token>, b: seq<Token>, c: seq<Token>, d: seq<Token>, e: seq<Token>, z: seq<Token>)
    ensures a + b + c + d + e + z == a + (b + (c + (d + (e + z))))
  {
  }

  /** Any text with the mixed script's tokens parses to its tree. */
  lemma MixedParseOf(s: string)
    requires Tokens(s, 0)
          == MixedTokensFront + MixedTokensInner + MixedTokensClose + MixedTokensQuotient + MixedTokensBack + [EndToken]
    ensures TP.Parse(s) == Ok(Scenarios.Mixed)
  {
    var toks := Tokens(s, 0);
    var (f, i, c, q, k) :=
      (MixedTokensFront, MixedTokensInner, MixedTokensClose, MixedTokensQuotient, MixedTokensBack);
    Regroup(f, i, c, q, k, [EndToken]);
    assert toks[0..] == toks;
    MixedTokensFrontAt(toks, 0, i + (c + (q + (k + [EndToken]))));
    MixedTokensInnerAt(toks, 5, c + (q + (k + [EndToken])));
    MixedTokensCloseAt(toks, 10, q + (k + [EndToken]));
    MixedTokensQuotientAt(toks, 15, k + [EndToken]);
    MixedTokensBackAt(toks, 20, [EndToken]);
    MixedExpr(toks);
    ParseOfTokens(s, Scenarios.Mixed, 24);
  }

  /** The script's `parse("6 + (-4 + (3*x+7) * y * 9 / (4 + 3))")`: the
      unbracketed sums and products group as the grammar says, the minus
      sign binds to the `4` alone, and the `*` and `/` chain folds to the
      left. */
  lemma MixedParsesByTokens()
    ensures TP.Parse(MixedText) == Ok(Scenarios.Mixed)
  {
    MixedTokens();
    MixedParseOf(MixedText);
  }

  // Steps of the character parser, on a text `t` that already carries the
  // sentinel

  /** `scanToken` onto the next character when it is not a blank. */
  lemma Step(t: string, q: nat)
    requires q + 1 < |t| && t[q + 1] != ' '
    ensures CP.Advance(t, q) == q + 1
  {
    CP.NoBlank(t, q + 1);
  }

  /** `scanToken` over one blank. */
  lemma StepOver(t: string, q: nat)
    requires q + 2 < |t| && t[q + 1] == ' ' && t[q + 2] != ' '
    ensures CP.Advance(t, q) == q + 2
  {
    CP.OneBlank(t, q + 1);
  }

  /** A digit is a whole factor. */
  lemma DigitFactor(t: string, q: nat, v: nat)
    requires q < |t| && IsDigit(t[q]) && DigitValue(t[q]) == v
    ensures CP.ParseFactor(t, q) == CP.Parsed(Some(Integer([t[q]], v)), CP.Advance(t, q))
  {
    Scenarios.ShortNumerals([t[q]]);
    CP.OneCharacterClasses(t[q]);
  }

  /** A letter is a whole factor. */
  lemma LetterFactor(t: string, q: nat)
    requires q < |t| && IsLetter(t[q])
    ensures CP.ParseFactor(t, q) == CP.Parsed(Some(Expr.Identifier([t[q]])), CP.Advance(t, q))
  {
    CP.OneCharacterClasses(t[q]);
  }

  /** A minus sign negates the factor after it. */
  lemma NegatedFactor(t: string, q: nat, e: Expr, m: nat)
    requires q < |t| && t[q] == '-'
    requires CP.ParseFactor(t, CP.Advance(t, q)) == CP.Parsed(Some(e), m)
    ensures CP.ParseFactor(t, q) == CP.Parsed(Some(Negate(e)), m)
  {
    CP.OneCharacterClasses('-');
  }

  lemma CharTermFrom(t: string, q: nat, e: Expr, m: nat)
    requires q <= |t| && CP.ParseFactor(t, q) == CP.Parsed(Some(e), m)
    ensures CP.ParseTerm(t, q) == CP.TermTail(t, e, m)
  {
  }

  lemma CharTermTurn(t: string, acc: Expr, p: nat, op: BinOp, e: Expr, m: nat)
    requires p < |t| && CP.CharParsable(acc) && (op == Mult || op == Div) && t[p] == Symbol(op)
    requires CP.ParseFactor(t, CP.Advance(t, p)) == CP.Parsed(Some(e), m)
    ensures CP.TermTail(t, acc, p) == CP.TermTail(t, Binary(op, acc, e), m)
  {
  }

  lemma CharTermEnds(t: string, acc: Expr, p: nat)
    requires p <= |t| && CP.CharParsable(acc) && CP.Cur(t, p) != '*' && CP.Cur(t, p) != '/'
    ensures CP.TermTail(t, acc, p) == CP.Parsed(Some(acc), p)
  {
  }

  lemma CharExprFrom(t: string, q: nat, e: Expr, m: nat)
    requires q <= |t| && CP.ParseTerm(t, q) == CP.Parsed(Some(e), m)
    ensures CP.ParseExpr(t, q) == CP.ExprTail(t, e, m)
  {
  }

  lemma CharExprTurn(t: string, acc: Expr, p: nat, op: BinOp, e: Expr, m: nat)
    requires p < |t| && CP.CharParsable(acc) && (op == Add || op == Subtract) && t[p] == Symbol(op)
    requires CP.ParseTerm(t, CP.Advance(t, p)) == CP.Parsed(Some(e), m)
    ensures CP.ExprTail(t, acc, p) == CP.ExprTail(t, Binary(op, acc, e), m)
  {
  }

  lemma CharExprEnds(t: string, acc: Expr, p: nat)
    requires p <= |t| && CP.CharParsable(acc) && CP.Cur(t, p) != '+' && CP.Cur(t, p) != '-'
    ensures CP.ExprTail(t, acc, p) == CP.Parsed(Some(acc), p)
  {
  }

  /** The parse of a text whose expression, read from its first character,
      ends at the sentinel. */
  lemma ParseOfChars(s: string, e: Expr, m: nat)
    requires |s| > 0 && s[0] != ' '
    requires CP.ParseExpr(CP.Sentinel(s), 0) == CP.Parsed(Some(e), m) && CP.Cur(CP.Sentinel(s), m) == '\0'
    ensures CP.Parse(s) == Ok(Some(e))
  {
    CP.NoBlank(CP.Sentinel(s), 0);
  }

  // "6 + (-4 + (3*x+7) * y * 9 / (4 + 3))", read by the character parser

  /** `3*x` inside the first bracket, stopped by the `+`. */
  lemma CharThreeTimesX(t: string)
    requires |t| > 15 && t[11] == '3' && t[12] == '*' && t[13] == 'x' && t[14] == '+'
    ensures CP.ParseTerm(t, 11) == CP.Parsed(Some(Binary(Mult, Integer("3", 3), Expr.Identifier("x"))), 14)
  {
    Step(t, 11);
    Step(t, 13);
    DigitFactor(t, 11, 3);
    LetterFactor(t, 13);
    var (three, x) := (Integer("3", 3), Expr.Identifier("x"));
    CharTermTurn(t, three, 12, Mult, x, 14);
    CharTermEnds(t, Binary(Mult, three, x), 14);
    CharTermFrom(t, 11, three, 12);
  }

  /** `(3*x+7)`, written without blanks, as a factor. */
  lemma CharInnerSum(t: string)
    requires |t| > 18 && t[10] == '(' && t[11] == '3' && t[12] == '*' && t[13] == 'x' && t[14] == '+'
    requires t[15] == '7' && t[16] == ')' && t[17] == ' ' && t[18] == '*'
    ensures CP.ParseFactor(t, 10)
         == CP.Parsed(Some(Binary(Add, Binary(Mult, Integer("3", 3), Expr.Identifier("x")), Integer("7", 7))), 18)
  {
    CharThreeTimesX(t);
    var (product, seven) := (Binary(Mult, Integer("3", 3), Expr.Identifier("x")), Integer("7", 7));
    Step(t, 10);
    Step(t, 14);
    Step(t, 15);
    DigitFactor(t, 15, 7);
    CharTermEnds(t, seven, 16);
    CharTermFrom(t, 15, seven, 16);
    CharExprTurn(t, product, 14, Add, seven, 16);
    CharExprEnds(t, Binary(Add, product, seven), 16);
    CharExprFrom(t, 11, product, 14);
    StepOver(t, 16);
    CP.Bracketed(t, 10, CP.Parsed(Some(Binary(Add, product, seven)), 16));
  }

  /** `(4 + 3)` as a factor, followed by the closing `)`. */
  lemma CharLastSum(t: string)
    requires |t| > 35 && t[28] == '(' && t[29] == '4' && t[30] == ' ' && t[31] == '+'
    requires t[32] == ' ' && t[33] == '3' && t[34] == ')' && t[35] == ')'
    ensures CP.ParseFactor(t, 28) == CP.Parsed(Some(Binary(Add, Integer("4", 4), Integer("3", 3))), 35)
  {
    var (four, three) := (Integer("4", 4), Integer("3", 3));
    Step(t, 28);
    DigitFactor(t, 29, 4);
    StepOver(t, 29);
    CharTermEnds(t, four, 31);
    CharTermFrom(t, 29, four, 31);
    StepOver(t, 31);
    DigitFactor(t, 33, 3);
    Step(t, 33);
    CharTermEnds(t, three, 34);
    CharTermFrom(t, 33, three, 34);
    CharExprTurn(t, four, 31, Add, three, 34);
    CharExprEnds(t, Binary(Add, four, three), 34);
    CharExprFrom(t, 29, four, 31);
    Step(t, 34);
    CP.Bracketed(t, 28, CP.Parsed(Some(Binary(Add, four, three)), 34));
  }

  /** `a * y * 9`, with the loop of `_parseTerm` going on after it. */
  lemma CharProductStart(t: string, a: Expr)
    requires |t| > 26 && CP.ParseFactor(t, 10) == CP.Parsed(Some(a), 18)
    requires t[18] == '*' && t[19] == ' ' && t[20] == 'y' && t[21] == ' ' && t[22] == '*' && t[23] == ' '
    requires t[24] == '9' && t[25] == ' ' && t[26] == '/'
    ensures CP.CharParsable(Binary(Mult, Binary(Mult, a, Expr.Identifier("y")), Integer("9", 9)))
    ensures CP.ParseTerm(t, 10)
         == CP.TermTail(t, Binary(Mult, Binary(Mult, a, Expr.Identifier("y")), Integer("9", 9)), 26)
  {
    var (y, nine) := (Expr.Identifier("y"), Integer("9", 9));
    StepOver(t, 18);
    LetterFactor(t, 20);
    StepOver(t, 20);
    CharTermTurn(t, a, 18, Mult, y, 22);
    StepOver(t, 22);
    DigitFactor(t, 24, 9);
    StepOver(t, 24);
    CharTermTurn(t, Binary(Mult, a, y), 22, Mult, nine, 26);
    CharTermFrom(t, 10, a, 18);
  }

  /** `a * y * 9 / d`, for the bracketed factors `a` and `d`, folds to the
      left and stops at the `)` after it. */
  lemma CharProductChain(t: string, a: Expr, d: Expr)
    requires |t| > 35 && CP.ParseFactor(t, 10) == CP.Parsed(Some(a), 18)
    requires t[18] == '*' && t[19] == ' ' && t[20] == 'y' && t[21] == ' ' && t[22] == '*' && t[23] == ' '
    requires t[24] == '9' && t[25] == ' ' && t[26] == '/' && t[27] == ' ' && t[28] == '('
    requires CP.ParseFactor(t, 28) == CP.Parsed(Some(d), 35) && t[35] == ')'
    ensures CP.ParseTerm(t, 10)
         == CP.Parsed(Some(Binary(Div, Binary(Mult, Binary(Mult, a, Expr.Identifier("y")), Integer("9", 9)), d)), 35)
  {
    CharProductStart(t, a);
    var product := Binary(Mult, Binary(Mult, a, Expr.Identifier("y")), Integer("9", 9));
    StepOver(t, 26);
    CharTermTurn(t, product, 26, Div, d, 35);
    CharTermEnds(t, Binary(Div, product, d), 35);
  }

  /** `(-4 + p)` as a factor, where `p` is the term from index 10 to the
      closing `)` at 35, and the sentinel follows. */
  lemma CharOuterBracket(t: string, p: Expr)
    requires |t| == 37 && t[36] == '\0'
    requires t[4] == '(' && t[5] == '-' && t[6] == '4' && t[7] == ' ' && t[8] == '+' && t[9] == ' ' && t[10] == '('
    requires CP.ParseTerm(t, 10) == CP.Parsed(Some(p), 35) && t[35] == ')'
    ensures CP.ParseFactor(t, 4) == CP.Parsed(Some(Binary(Add, Negate(Integer("4", 4)), p)), 36)
  {
    var four := Integer("4", 4);
    Step(t, 4);
    Step(t, 5);
    DigitFactor(t, 6, 4);
    StepOver(t, 6);
    NegatedFactor(t, 5, four, 8);
    CharTermEnds(t, Negate(four), 8);
    CharTermFrom(t, 5, Negate(four), 8);
    StepOver(t, 8);
    CharExprTurn(t, Negate(four), 8, Add, p, 35);
    CharExprEnds(t, Binary(Add, Negate(four), p), 35);
    CharExprFrom(t, 5, Negate(four), 8);
    Step(t, 35);
    CP.Bracketed(t, 4, CP.Parsed(Some(Binary(Add, Negate(four), p)), 35));
  }

  /** `6 + b`, for the bracketed factor `b` that runs to the sentinel. */
  lemma CharOuterSum(t: string, b: Expr)
    requires |t| == 37 && t[36] == '\0'
    requires t[0] == '6' && t[1] == ' ' && t[2] == '+' && t[3] == ' ' && t[4] == '('
    requires CP.ParseFactor(t, 4) == CP.Parsed(Some(b), 36)
    ensures CP.ParseExpr(t, 0) == CP.Parsed(Some(Binary(Add, Integer("6", 6), b)), 36)
  {
    var six := Integer("6", 6);
    DigitFactor(t, 0, 6);
    StepOver(t, 0);
    CharTermEnds(t, six, 2);
    CharTermFrom(t, 0, six, 2);
    StepOver(t, 2);
    CharTermEnds(t, b, 36);
    CharTermFrom(t, 4, b, 36);
    CharExprTurn(t, six, 2, Add, b, 36);
    CharExprEnds(t, Binary(Add, six, b), 36);
    CharExprFrom(t, 0, six, 2);
  }

  /** The characters of the script's text that the parse looks at, in
      four runs. */
  lemma MixedCharsFront(t: string)
    requires t == MixedText + "\0"
    ensures |t| == 37 && t[36] == '\0'
    ensures t[0] == '6' && t[1] == ' ' && t[2] == '+' && t[3] == ' ' && t[4] == '('
    ensures t[5] == '-' && t[6] == '4' && t[7] == ' ' && t[8] == '+' && t[9] == ' ' && t[10] == '('
  {
  }

  lemma MixedCharsInner(t: string)
    requires t == MixedText + "\0"
    ensures t[11] == '3' && t[12] == '*' && t[13] == 'x' && t[14] == '+' && t[15] == '7' && t[16] == ')'
  {
  }

  lemma MixedCharsProduct(t: string)
    requires t == MixedText + "\0"
    ensures t[17] == ' ' && t[18] == '*' && t[19] == ' ' && t[20] == 'y' && t[21] == ' ' && t[22] == '*'
  {
  }

  lemma MixedCharsBack(t: string)
    requires t == MixedText + "\0"
    ensures t[23] == ' ' && t[24] == '9' && t[25] == ' ' && t[26] == '/' && t[27] == ' ' && t[28] == '('
    ensures t[29] == '4' && t[30] == ' ' && t[31] == '+' && t[32] == ' ' && t[33] == '3' && t[34] == ')'
    ensures t[35] == ')'
  {
  }

  /** The script's `Parser(Lexer("6 + (-4 + (3*x+7) * y * 9 / (4 + 3))")).parse()`:
      the unbracketed sums and products group as the grammar says, with the
      `*` and `/` chain folding to the left, and the blanks, present or not,
      change nothing. */
  lemma MixedParsesByCharacters()
    ensures CP.Parse(MixedText) == Ok(Some(Scenarios.Mixed))
  {
    var t := CP.Sentinel(MixedText);
    MixedCharsFront(t);
    MixedCharsInner(t);
    MixedCharsProduct(t);
    MixedCharsBack(t);
    CharInnerSum(t);
    CharLastSum(t);
    var a := Binary(Add, Binary(Mult, Integer("3", 3), Expr.Identifier("x")), Integer("7", 7));
    var d := Binary(Add, Integer("4", 4), Integer("3", 3));
    CharProductChain(t, a, d);
    var p := Binary(Div, Binary(Mult, Binary(Mult, a, Expr.Identifier("y")), Integer("9", 9)), d);
    CharOuterBracket(t, p);
    var b := Binary(Add, Negate(Integer("4", 4)), p);
    CharOuterSum(t, b);
    ParseOfChars(MixedText, Binary(Add, Integer("6", 6), b), 36);
  }
}
