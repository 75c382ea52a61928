/** The example inputs the program's own scripts check, restated over the
    model: what each input lexes to, the tree it parses to, how that tree
    renders, and what it evaluates to. */
module Scenarios {
  import opened Results
  import opened Ast
  import opened Lexer
  import opened Numerals
  import TokenParser
  import Reparse
  import CharParser
  import opened Simplifier
  import opened Chars
  import opened RoundTrip

  /** The tokens scanned from `i` up to `j`, where END is met. */
  lemma ScannedThenEnd(s: string, i: nat, ts: seq<Token>, j: nat)
    requires Lexes(s, i, ts, j) && j <= |s| && Next(s, j).0.kind == End
    ensures Tokens(s, i) == ts + [EndToken]
  {
    LexesTokens(s, i, ts, j);
  }

  /** An identifier `w` scanned straight after the text `p`. */
  lemma IdentifierAt(p: string, w: string, rest: string)
    requires IsIdentifierText(w) && !IsIdentChar(Peek(rest, 0))
    ensures Next(p + w + rest, |p|) == (Token(Kind.Identifier, w), |p| + |w|)
  {
    var s := p + w + rest;
    assert s[|p|..|p| + |w|] == w;
    assert Peek(s, |p| + |w|) == Peek(rest, 0);
    assert ScansTo(s, |p|, Token(Kind.Identifier, w), |p| + |w|);
    ScanIsUnique(s, |p|, Token(Kind.Identifier, w), |p| + |w|);
  }

  /** Identifier characters may follow an identifier. */
  lemma IdentifierJoin(a: string, b: string)
    requires IsIdentifierText(a) && forall k :: 0 <= k < |b| ==> IsIdentChar(b[k])
    ensures IsIdentifierText(a + b)
  {
    assert forall k :: |a| <= k < |a + b| ==> (a + b)[k] == b[k - |a|];
  }

  lemma NamedWord() ensures IsIdentifierText("identifier") {
    assert IsIdentifierText("ident");
    IdentifierJoin("ident", "ifier");
    assert "ident" + "ifier" == "identifier";
  }

  lemma GluedWord() ensures IsIdentifierText("asdfasdf987") {
    assert IsIdentifierText("asdf");
    IdentifierJoin("asdf", "asdf");
    IdentifierJoin("asdf" + "asdf", "987");
    assert "asdf" + "asdf" + "987" == "asdfasdf987";
  }

  /** The value of a one- and a two-digit numeral. */
  lemma ShortNumerals(t: string)
    requires AllDigits(t)
    ensures |t| == 1 ==> DecimalValue(t) == DigitValue(t[0])
    ensures |t| == 2 ==> DecimalValue(t) == DigitValue(t[0]) * 10 + DigitValue(t[1])
  {
    if |t| == 2 {
      assert t[..1][..0] == [];
    }
  }

  /** A token list of the `a o1 b o2 c` shape parses as the tree the
      precedence rules pick. */
  lemma ThreeOperandParse(s: string, a: Token, o1: BinOp, b: Token, o2: BinOp, c: Token)
    requires TokenParser.IsOperandToken(a) && TokenParser.IsOperandToken(b) && TokenParser.IsOperandToken(c)
    requires Tokens(s, 0) == TokenParser.ThreeOperands(a, o1, b, o2, c)
    ensures TokenParser.Parse(s)
         == Ok(if TokenParser.Level(o1) >= TokenParser.Level(o2)
               then Binary(o2, Binary(o1, TokenParser.Leaf(a), TokenParser.Leaf(b)), TokenParser.Leaf(c))
               else Binary(o1, TokenParser.Leaf(a), Binary(o2, TokenParser.Leaf(b), TokenParser.Leaf(c))))
  {
    TokenParser.PrecedenceAndAssociativity(a, o1, b, o2, c);
  }

  // "identifier + 69 * 8"

  const Named := "identifier + 69 * 8"

  lemma NamedScan0() ensures Next(Named, 0) == (Token(Kind.Identifier, "identifier"), 10) {
    NamedWord();
    assert Named == "" + "identifier" + " + 69 * 8";
    IdentifierAt("", "identifier", " + 69 * 8");
  }
  lemma NamedScan1() ensures Next(Named, 10) == (Token(Plus, "+"), 12) {
    assert ScansTo(Named, 10, Token(Plus, "+"), 12);
    ScanIsUnique(Named, 10, Token(Plus, "+"), 12);
  }
  lemma NamedScan2() ensures Next(Named, 12) == (Token(Number, "69"), 15) {
    assert ScansTo(Named, 12, Token(Number, "69"), 15);
    ScanIsUnique(Named, 12, Token(Number, "69"), 15);
  }
  lemma NamedScan3() ensures Next(Named, 15) == (Token(Asterisk, "*"), 17) {
    assert ScansTo(Named, 15, Token(Asterisk, "*"), 17);
    ScanIsUnique(Named, 15, Token(Asterisk, "*"), 17);
  }
  lemma NamedScan4() ensures Next(Named, 17) == (Token(Number, "8"), 19) {
    assert ScansTo(Named, 17, Token(Number, "8"), 19);
    ScanIsUnique(Named, 17, Token(Number, "8"), 19);
  }
  lemma NamedScan5() ensures Next(Named, 19) == (EndToken, 19) {
    assert ScansTo(Named, 19, EndToken, 19);
    ScanIsUnique(Named, 19, EndToken, 19);
  }

  lemma NamedTokens()
    ensures Tokens(Named, 0)
         == TokenParser.ThreeOperands(Token(Kind.Identifier, "identifier"), Add, Token(Number, "69"), Mult, Token(Number, "8"))
  {
    NamedScan0(); NamedScan1(); NamedScan2(); NamedScan3(); NamedScan4(); NamedScan5();
    var (t0, t1, t2, t3, t4) := (Token(Kind.Identifier, "identifier"), Token(Plus, "+"), Token(Number, "69"), Token(Asterisk, "*"), Token(Number, "8"));
    assert Lexes(Named, 19, [], 19);
    assert Lexes(Named, 17, [t4], 19) by { assert [t4][1..] == []; }
    assert Lexes(Named, 15, [t3, t4], 19) by { assert [t3, t4][1..] == [t4]; }
    assert Lexes(Named, 12, [t2, t3, t4], 19) by { assert [t2, t3, t4][1..] == [t3, t4]; }
    assert Lexes(Named, 10, [t1, t2, t3, t4], 19) by { assert [t1, t2, t3, t4][1..] == [t2, t3, t4]; }
    assert Lexes(Named, 0, [t0, t1, t2, t3, t4], 19) by { assert [t0, t1, t2, t3, t4][1..] == [t1, t2, t3, t4]; }
    ScannedThenEnd(Named, 0, [t0, t1, t2, t3, t4], 19);
  }

  lemma NamedOperands()
    ensures TokenParser.IsOperandToken(Token(Kind.Identifier, "identifier"))
    ensures TokenParser.IsOperandToken(Token(Number, "69")) && TokenParser.IsOperandToken(Token(Number, "8"))
  {
    NamedTokens();
    var toks := Tokens(Named, 0);
    assert ValidToken(toks[0]) && ValidToken(toks[2]) && ValidToken(toks[4]);
  }

  lemma NamedLeaves()
    ensures TokenParser.IsOperandToken(Token(Number, "69")) && TokenParser.Leaf(Token(Number, "69")) == Integer("69", 69)
    ensures TokenParser.IsOperandToken(Token(Number, "8")) && TokenParser.Leaf(Token(Number, "8")) == Integer("8", 8)
  {
    NamedOperands();
    ShortNumerals("69");
    ShortNumerals("8");
  }

  /** The product binds tighter than the sum. */
  lemma NamedParses()
    ensures TokenParser.Parse(Named)
         == Ok(Binary(Add, Expr.Identifier("identifier"), Binary(Mult, Integer("69", 69), Integer("8", 8))))
  {
    NamedOperands();
    NamedLeaves();
    NamedTokens();
    ThreeOperandParse(Named, Token(Kind.Identifier, "identifier"), Add, Token(Number, "69"), Mult, Token(Number, "8"));
  }

  lemma NamedRenders()
    ensures Render(Binary(Add, Expr.Identifier("identifier"), Binary(Mult, Integer("69", 69), Integer("8", 8))))
         == "(identifier + (69 * 8))"
  {
    var product := Binary(Mult, Integer("69", 69), Integer("8", 8));
    assert Render(product) == "(69 * 8)";
    RenderedBinary(Add, Expr.Identifier("identifier"), product, "identifier", "(69 * 8)");
    SpacedOperator("identifier", Add, "(69 * 8)");
  }

  // "x + 5 * 2"

  const Small := "x + 5 * 2"

  lemma SmallScan0() ensures Next(Small, 0) == (Token(Kind.Identifier, "x"), 1) {
    assert ScansTo(Small, 0, Token(Kind.Identifier, "x"), 1);
    ScanIsUnique(Small, 0, Token(Kind.Identifier, "x"), 1);
  }
  lemma SmallScan1() ensures Next(Small, 1) == (Token(Plus, "+"), 3) {
    assert ScansTo(Small, 1, Token(Plus, "+"), 3);
    ScanIsUnique(Small, 1, Token(Plus, "+"), 3);
  }
  lemma SmallScan2() ensures Next(Small, 3) == (Token(Number, "5"), 5) {
    assert ScansTo(Small, 3, Token(Number, "5"), 5);
    ScanIsUnique(Small, 3, Token(Number, "5"), 5);
  }
  lemma SmallScan3() ensures Next(Small, 5) == (Token(Asterisk, "*"), 7) {
    assert ScansTo(Small, 5, Token(Asterisk, "*"), 7);
    ScanIsUnique(Small, 5, Token(Asterisk, "*"), 7);
  }
  lemma SmallScan4() ensures Next(Small, 7) == (Token(Number, "2"), 9) {
    assert ScansTo(Small, 7, Token(Number, "2"), 9);
    ScanIsUnique(Small, 7, Token(Number, "2"), 9);
  }
  lemma SmallScan5() ensures Next(Small, 9) == (EndToken, 9) {
    assert ScansTo(Small, 9, EndToken, 9);
    ScanIsUnique(Small, 9, EndToken, 9);
  }

  lemma SmallTokens()
    ensures Tokens(Small, 0)
         == TokenParser.ThreeOperands(Token(Kind.Identifier, "x"), Add, Token(Number, "5"), Mult, Token(Number, "2"))
  {
    SmallScan0(); SmallScan1(); SmallScan2(); SmallScan3(); SmallScan4(); SmallScan5();
    var (t0, t1, t2, t3, t4) := (Token(Kind.Identifier, "x"), Token(Plus, "+"), Token(Number, "5"), Token(Asterisk, "*"), Token(Number, "2"));
    assert Lexes(Small, 9, [], 9);
    assert Lexes(Small, 7, [t4], 9) by { assert [t4][1..] == []; }
    assert Lexes(Small, 5, [t3, t4], 9) by { assert [t3, t4][1..] == [t4]; }
    assert Lexes(Small, 3, [t2, t3, t4], 9) by { assert [t2, t3, t4][1..] == [t3, t4]; }
    assert Lexes(Small, 1, [t1, t2, t3, t4], 9) by { assert [t1, t2, t3, t4][1..] == [t2, t3, t4]; }
    assert Lexes(Small, 0, [t0, t1, t2, t3, t4], 9) by { assert [t0, t1, t2, t3, t4][1..] == [t1, t2, t3, t4]; }
    ScannedThenEnd(Small, 0, [t0, t1, t2, t3, t4], 9);
  }

  lemma SmallLeaves()
    ensures TokenParser.IsOperandToken(Token(Kind.Identifier, "x"))
    ensures TokenParser.IsOperandToken(Token(Number, "5")) && TokenParser.Leaf(Token(Number, "5")) == Integer("5", 5)
    ensures TokenParser.IsOperandToken(Token(Number, "2")) && TokenParser.Leaf(Token(Number, "2")) == Integer("2", 2)
  {
    SmallTokens();
    var toks := Tokens(Small, 0);
    assert ValidToken(toks[0]) && ValidToken(toks[2]) && ValidToken(toks[4]);
    ShortNumerals("5");
    ShortNumerals("2");
  }

  const SmallTree := Binary(Add, Expr.Identifier("x"), Binary(Mult, Integer("5", 5), Integer("2", 2)))

  lemma SmallParses()
    ensures TokenParser.Parse(Small) == Ok(SmallTree)
  {
    SmallLeaves();
    SmallTokens();
    ThreeOperandParse(Small, Token(Kind.Identifier, "x"), Add, Token(Number, "5"), Mult, Token(Number, "2"));
  }

  lemma SmallRendersAndEvaluates()
    ensures Render(SmallTree) == "(x + (5 * 2))"
    ensures Eval(SmallTree, map["x" := 12.0]) == Ok(22.0)
  {
  }

  // "(7 + (5 * 2))", read by both parsers

  const Nested := Binary(Add, Integer("7", 7), Binary(Mult, Integer("5", 5), Integer("2", 2)))

  lemma NestedLeaves()
    ensures DecimalValue("7") == 7 && DecimalValue("5") == 5 && DecimalValue("2") == 2
  {
    ShortNumerals("7");
    ShortNumerals("5");
    ShortNumerals("2");
  }

  lemma NestedRendersAndEvaluates()
    ensures Render(Nested) == "(7 + (5 * 2))"
    ensures Eval(Nested, map[]) == Ok(17.0)
  {
  }

  lemma NestedParsesByTokens()
    ensures TokenParser.Parse("(7 + (5 * 2))") == Ok(Nested)
  {
    NestedLeaves();
    NestedRendersAndEvaluates();
    Reparse.ParseOfRender(Nested);
  }

  lemma NestedParsesByCharacters()
    ensures CharParser.Parse("(7 + (5 * 2))") == Ok(Some(Nested))
  {
    NestedLeaves();
    NestedRendersAndEvaluates();
    CharParser.ParseOfRender(Nested);
  }

  // Inputs with a token left over after the expression

  /** An operand followed by a token that can neither continue the
      expression nor end it: the parse stops after the operand and reports
      that token. */
  lemma TrailingAfterOperand(s: string, a: Token, t: Token, rest: seq<Token>)
    requires Tokens(s, 0) == [a, t] + rest
    requires TokenParser.IsOperandToken(a)
    requires t.kind !in {Plus, Minus, Asterisk, Slash, End}
    ensures TokenParser.Parse(s) == Err(TokenParser.Trailing(t))
  {
    var toks := Tokens(s, 0);
    var x := TokenParser.Leaf(a);
    assert At(toks, 0) == a && At(toks, 1) == t;
    assert TokenParser.ParseFactor(toks, 0) == Some(TokenParser.Parsed(x, 1));
    assert TokenParser.TermTail(toks, x, 1) == Some(TokenParser.Parsed(x, 1));
    assert TokenParser.ParseTerm(toks, 0) == Some(TokenParser.Parsed(x, 1));
    assert TokenParser.ExprTail(toks, x, 1) == Some(TokenParser.Parsed(x, 1));
    assert TokenParser.ParseExpr(toks, 0) == Some(TokenParser.Parsed(x, 1));
  }

  const Glued := "897asdfasdf987"

  lemma GluedScan0() ensures Next(Glued, 0) == (Token(Number, "897"), 3) {
    assert ScansTo(Glued, 0, Token(Number, "897"), 3);
    ScanIsUnique(Glued, 0, Token(Number, "897"), 3);
  }
  lemma GluedScan1() ensures Next(Glued, 3) == (Token(Kind.Identifier, "asdfasdf987"), 14) {
    GluedWord();
    assert Glued == "897" + "asdfasdf987" + "";
    IdentifierAt("897", "asdfasdf987", "");
  }
  lemma GluedScan2() ensures Next(Glued, 14) == (EndToken, 14) {
    assert ScansTo(Glued, 14, EndToken, 14);
    ScanIsUnique(Glued, 14, EndToken, 14);
  }

  /** A digit run ends at the first letter, which starts an identifier that
      takes in the digits after it. */
  lemma GluedTokens()
    ensures Tokens(Glued, 0) == [Token(Number, "897"), Token(Kind.Identifier, "asdfasdf987"), EndToken]
  {
    GluedScan0(); GluedScan1(); GluedScan2();
    var (t0, t1) := (Token(Number, "897"), Token(Kind.Identifier, "asdfasdf987"));
    assert Lexes(Glued, 14, [], 14);
    assert Lexes(Glued, 3, [t1], 14) by { assert [t1][1..] == []; }
    assert Lexes(Glued, 0, [t0, t1], 14) by { assert [t0, t1][1..] == [t1]; }
    ScannedThenEnd(Glued, 0, [t0, t1], 14);
  }

  lemma GluedIsRejected()
    ensures TokenParser.Parse(Glued) == Err(TokenParser.Trailing(Token(Kind.Identifier, "asdfasdf987")))
  {
    GluedTokens();
    var toks := Tokens(Glued, 0);
    assert ValidToken(toks[0]);
    assert toks == [toks[0], toks[1]] + [EndToken];
    TrailingAfterOperand(Glued, toks[0], toks[1], [EndToken]);
  }

  const Decimal := "3.14"

  lemma DecimalScan0() ensures Next(Decimal, 0) == (Token(Number, "3"), 1) {
    assert ScansTo(Decimal, 0, Token(Number, "3"), 1);
    ScanIsUnique(Decimal, 0, Token(Number, "3"), 1);
  }
  lemma DecimalScan1() ensures Next(Decimal, 1) == (Token(Dot, "."), 2) {
    assert ScansTo(Decimal, 1, Token(Dot, "."), 2);
    ScanIsUnique(Decimal, 1, Token(Dot, "."), 2);
  }
  lemma DecimalScan2() ensures Next(Decimal, 2) == (Token(Number, "14"), 4) {
    assert ScansTo(Decimal, 2, Token(Number, "14"), 4);
    ScanIsUnique(Decimal, 2, Token(Number, "14"), 4);
  }
  lemma DecimalScan3() ensures Next(Decimal, 4) == (EndToken, 4) {
    assert ScansTo(Decimal, 4, EndToken, 4);
    ScanIsUnique(Decimal, 4, EndToken, 4);
  }

  /** The point is a token of its own. */
  lemma DecimalTokens()
    ensures Tokens(Decimal, 0) == [Token(Number, "3"), Token(Dot, "."), Token(Number, "14"), EndToken]
  {
    DecimalScan0(); DecimalScan1(); DecimalScan2(); DecimalScan3();
    var (t0, t1, t2) := (Token(Number, "3"), Token(Dot, "."), Token(Number, "14"));
    assert Lexes(Decimal, 4, [], 4);
    assert Lexes(Decimal, 2, [t2], 4) by { assert [t2][1..] == []; }
    assert Lexes(Decimal, 1, [t1, t2], 4) by { assert [t1, t2][1..] == [t2]; }
    assert Lexes(Decimal, 0, [t0, t1, t2], 4) by { assert [t0, t1, t2][1..] == [t1, t2]; }
    ScannedThenEnd(Decimal, 0, [t0, t1, t2], 4);
  }

  /** This parser has no decimal numbers: the point is left over. */
  lemma DecimalIsRejected()
    ensures TokenParser.Parse(Decimal) == Err(TokenParser.Trailing(Token(Dot, ".")))
  {
    DecimalTokens();
    var toks := Tokens(Decimal, 0);
    assert ValidToken(toks[0]);
    assert toks == [toks[0], toks[1]] + toks[2..];
    TrailingAfterOperand(Decimal, toks[0], toks[1], toks[2..]);
  }

  // "(7": a bracket that is never closed

  const Unclosed := "(7"

  lemma UnclosedScan0() ensures Next(Unclosed, 0) == (Token(LParen, "("), 1) {
    assert ScansTo(Unclosed, 0, Token(LParen, "("), 1);
    ScanIsUnique(Unclosed, 0, Token(LParen, "("), 1);
  }
  lemma UnclosedScan1() ensures Next(Unclosed, 1) == (Token(Number, "7"), 2) {
    assert ScansTo(Unclosed, 1, Token(Number, "7"), 2);
    ScanIsUnique(Unclosed, 1, Token(Number, "7"), 2);
  }
  lemma UnclosedScan2() ensures Next(Unclosed, 2) == (EndToken, 2) {
    assert ScansTo(Unclosed, 2, EndToken, 2);
    ScanIsUnique(Unclosed, 2, EndToken, 2);
  }

  lemma UnclosedTokens()
    ensures Tokens(Unclosed, 0) == [Token(LParen, "("), Token(Number, "7"), EndToken]
  {
    UnclosedScan0(); UnclosedScan1(); UnclosedScan2();
    var (t0, t1) := (Token(LParen, "("), Token(Number, "7"));
    assert Lexes(Unclosed, 2, [], 2);
    assert Lexes(Unclosed, 1, [t1], 2) by { assert [t1][1..] == []; }
    assert Lexes(Unclosed, 0, [t0, t1], 2) by { assert [t0, t1][1..] == [t1]; }
    ScannedThenEnd(Unclosed, 0, [t0, t1], 2);
  }

  /** The expression inside the bracket is read, but END stands where the
      closing bracket should: no tree. */
  lemma UnclosedTokensGiveNoTree()
    ensures TokenParser.Parse(Unclosed) == Err(TokenParser.NoTree)
  {
    UnclosedTokens();
    var toks := Tokens(Unclosed, 0);
    assert ValidToken(toks[1]);
    var seven := TokenParser.Leaf(toks[1]);
    assert TokenParser.ParseFactor(toks, 1) == Some(TokenParser.Parsed(seven, 2));
    assert TokenParser.ParseTerm(toks, 1) == Some(TokenParser.Parsed(seven, 2));
    assert TokenParser.ParseExpr(toks, 1) == Some(TokenParser.Parsed(seven, 2));
    assert TokenParser.ParseFactor(toks, 0) == None;
    assert TokenParser.ParseTerm(toks, 0) == None;
  }

  /** A NUMBER lexeme with leading zeros is kept as written and read as its
      value. */
  lemma LeadingZerosKept(env: Env)
    ensures Render(IntegerOfText("007")) == "007"
    ensures Eval(IntegerOfText("007"), env) == Ok(7.0)
  {
    assert DecimalValue("007") == 7 by {
      assert "007"[..2] == "00" && "00"[..1] == "0" && "0"[..0] == "";
    }
  }

  // The character-level parser on inputs it does not read as one tree

  /** Nothing to read: no tree, and the scanner is at the end. */
  lemma EmptyGivesNoTree()
    ensures CharParser.Parse("") == Ok(None)
  {
    var t := CharParser.Sentinel("");
    assert t == "\0";
    assert CharParser.ParseFactor(t, 0) == CharParser.Parsed(None, 0);
  }

  /** An operator with nothing after it: the tree is lost, but the scanner
      has reached the end, so no error is raised. */
  lemma DanglingOperatorGivesNoTree()
    ensures CharParser.Parse("7+") == Ok(None)
  {
    var t := CharParser.Sentinel("7+");
    assert t == "7+\0";
    assert CharParser.Advance(t, 0) == 1 && CharParser.Advance(t, 1) == 2;
    var seven := IntegerOfText("7");
    var f := CharParser.Parsed(Some(seven), 1);
    assert CharParser.ParseFactor(t, 0) == f;
    assert CharParser.ParseTerm(t, 0) == f;
    assert CharParser.ParseFactor(t, 2) == CharParser.Parsed(None, 2);
    assert CharParser.ExprTail(t, seven, 1) == CharParser.Parsed(None, 2);
  }

  /** A bracket left open: no tree, and the scanner stops at the end. */
  lemma UnclosedGivesNoTree()
    ensures CharParser.Parse("(7") == Ok(None)
  {
    var t := CharParser.Sentinel("(7");
    assert t == "(7\0";
    assert CharParser.Advance(t, 0) == 1 && CharParser.Advance(t, 1) == 2;
    var f := CharParser.Parsed(Some(IntegerOfText("7")), 2);
    assert CharParser.ParseFactor(t, 1) == f;
    CharParser.TermStops(t, 1, f);
    CharParser.ExprStops(t, 1, f);
    assert CharParser.ParseFactor(t, 0) == CharParser.Parsed(None, 2);
  }

  /** A number is one digit: the second digit of "12" is left over. */
  lemma TwoDigitsLeaveOne()
    ensures CharParser.Parse("12") == Err(CharParser.Leftover('2'))
  {
    var t := CharParser.Sentinel("12");
    assert t == "12\0";
    var f := CharParser.Parsed(Some(IntegerOfText("1")), 1);
    assert CharParser.ParseFactor(t, 0) == f;
    CharParser.TermStops(t, 0, f);
    CharParser.ExprStops(t, 0, f);
  }

  /** A leading plus starts no factor and is left over. */
  lemma LeadingPlusIsLeftOver()
    ensures CharParser.Parse("+7") == Err(CharParser.Leftover('+'))
  {
    var t := CharParser.Sentinel("+7");
    assert t == "+7\0";
    assert CharParser.ParseFactor(t, 0) == CharParser.Parsed(None, 0);
  }

  /** Only the blank is skipped: a tab is left over. */
  lemma TabIsLeftOver()
    ensures CharParser.Parse("\t7") == Err(CharParser.Leftover('\t'))
  {
    var t := CharParser.Sentinel("\t7");
    assert t == "\t7\0";
    assert CharParser.ParseFactor(t, 0) == CharParser.Parsed(None, 0);
  }

  // The longer scripted inputs: the trees they stand for, rendered,
  // evaluated, and read back from their rendering

  /** The tree of "6 + (-4 + (3*x+7) * y * 9 / (4 + 3))". */
  const Mixed :=
    Binary(Add, Integer("6", 6),
      Binary(Add, Negate(Integer("4", 4)),
        Binary(Div,
          Binary(Mult, Binary(Mult, Binary(Add, Binary(Mult, Integer("3", 3), Expr.Identifier("x")), Integer("7", 7)),
                                    Expr.Identifier("y")),
                       Integer("9", 9)),
          Binary(Add, Integer("4", 4), Integer("3", 3)))))

  /** Rendering one binary node from the renderings of its operands. */
  lemma RenderedBinary(op: BinOp, l: Expr, r: Expr, a: string, b: string)
    requires Render(l) == a && Render(r) == b
    ensures Render(Binary(op, l, r)) == "(" + a + " " + [Symbol(op)] + " " + b + ")"
  {
  }

  /** The two outer layers of `Mixed` around the rendering `p` of its
      product. */
  lemma MixedOuterText(p: string)
    ensures "(" + "(-4)" + " " + ['+'] + " " + ("(" + p + " " + ['/'] + " " + "(4 + 3)" + ")") + ")"
         == "((-4) + (" + p + " / (4 + 3)))"
    ensures "(" + "6" + " " + ['+'] + " " + ("((-4) + (" + p + " / (4 + 3)))") + ")"
         == "(6 + ((-4) + (" + p + " / (4 + 3))))"
  {
  }

  /** The three layers of the product around the rendering `p` of
      `3 * x`. */
  lemma ProductText(p: string)
    ensures "(" + ("(" + ("(" + p + " " + ['+'] + " " + "7" + ")") + " " + ['*'] + " " + "y" + ")") + " " + ['*'] + " " + "9" + ")"
         == "(((" + p + " + 7) * y) * 9)"
  {
  }

  lemma MixedProductRenders()
    ensures Render(Mixed.right.right.left) == "(((" + "(3 * x)" + " + 7) * y) * 9)"
  {
    var s := Mixed.right.right.left;
    var p := "(3 * x)";
    assert Render(s.left.left.left) == p;
    RenderedBinary(Add, s.left.left.left, s.left.left.right, p, "7");
    RenderedBinary(Mult, s.left.left, s.left.right, "(" + p + " " + ['+'] + " " + "7" + ")", "y");
    RenderedBinary(Mult, s.left, s.right, "(" + ("(" + p + " " + ['+'] + " " + "7" + ")") + " " + ['*'] + " " + "y" + ")", "9");
    ProductText(p);
  }

  /** The rendering, written in pieces only to keep each literal short. */
  /** The layers of `Mixed` outside its product, for any subtrees with the
      same renderings. */
  lemma MixedShape(a: Expr, b: Expr, c: Expr, d: Expr, p: string)
    requires Render(a) == "6" && Render(b) == "(-4)" && Render(c) == p && Render(d) == "(4 + 3)"
    ensures Render(Binary(Add, a, Binary(Add, b, Binary(Div, c, d))))
         == "(6 + ((-4) + (" + p + " / (4 + 3))))"
  {
    RenderedBinary(Div, c, d, p, "(4 + 3)");
    RenderedBinary(Add, b, Binary(Div, c, d), "(-4)", "(" + p + " " + ['/'] + " " + "(4 + 3)" + ")");
    MixedOuterText(p);
    RenderedBinary(Add, a, Binary(Add, b, Binary(Div, c, d)), "6", "((-4) + (" + p + " / (4 + 3)))");
  }

  lemma MixedRenders()
    ensures Render(Mixed) == "(6 + ((-4) + (" + "(((" + "(3 * x)" + " + 7) * y) * 9)" + " / (4 + 3))))"
  {
    MixedProductRenders();
    assert Render(Mixed.right.left) == "(-4)";
    assert Render(Mixed.right.right.right) == "(4 + 3)";
    MixedShape(Mixed.left, Mixed.right.left, Mixed.right.right.left, Mixed.right.right.right,
      "(((" + "(3 * x)" + " + 7) * y) * 9)");
  }

  lemma MixedEvaluates()
    ensures Eval(Mixed, map["x" := 7.0, "y" := 2.0]) == Ok(74.0)
  {
  }

  /** The character-level parser reads the rendering back. */
  lemma MixedReparses()
    ensures CharParser.Parse(Render(Mixed)) == Ok(Some(Mixed))
  {
    ShortNumerals("6"); ShortNumerals("4"); ShortNumerals("3"); ShortNumerals("7"); ShortNumerals("9");
    CharParser.ParseOfRender(Mixed);
  }

  /** The tree of "x / 7 + 42 * 8 / (8 - 6)". */
  const Quotients :=
    Binary(Add, Binary(Div, Expr.Identifier("x"), Integer("7", 7)),
                Binary(Div, Binary(Mult, Integer("42", 42), Integer("8", 8)), Binary(Subtract, Integer("8", 8), Integer("6", 6))))

  /** A binary node's text with the operator and its blanks as one piece. */
  lemma SpacedOperator(a: string, op: BinOp, b: string)
    ensures "(" + a + " " + [Symbol(op)] + " " + b + ")" == "(" + a + [' ', Symbol(op), ' '] + b + ")"
  {
  }

  /** The rendering, written in pieces only to keep each literal short. */
  lemma QuotientsRenders()
    ensures Render(Quotients) == "(" + "(x / 7)" + " + " + ("(" + "(42 * 8)" + " / " + "(8 - 6)" + ")") + ")"
  {
    var q := Quotients.right;
    assert Render(q.left) == "(42 * 8)";
    assert Render(q.right) == "(8 - 6)";
    RenderedBinary(Div, q.left, q.right, "(42 * 8)", "(8 - 6)");
    SpacedOperator("(42 * 8)", Div, "(8 - 6)");
    assert Render(Quotients.left) == "(x / 7)";
    var r := "(" + "(42 * 8)" + " / " + "(8 - 6)" + ")";
    RenderedBinary(Add, Quotients.left, q, "(x / 7)", r);
    SpacedOperator("(x / 7)", Add, r);
  }

  lemma QuotientsEvaluates()
    ensures Eval(Quotients, map["x" := 28.0]) == Ok(172.0)
  {
  }

  /** The token parser reads the rendering back. */
  lemma QuotientsReparses()
    ensures TokenParser.Parse(Render(Quotients)) == Ok(Quotients)
  {
    ShortNumerals("7"); ShortNumerals("42"); ShortNumerals("8"); ShortNumerals("6");
    assert IsIdentifierText("x");
    Reparse.ParseOfRender(Quotients);
  }

  // Folding literals

  /** An exact integer quotient folds to an Integer spelled by its value. */
  lemma ExactQuotientFolds(fmt: FloatFormat)
    ensures Simplify(Binary(Div, Integer("6", 6), Integer("3", 3)), fmt) == Ok(Integer("2", 2))
    ensures Render(Integer("2", 2)) == "2"
  {
    assert IntText(2) == "2";
  }

  /** A negated Integer folds to a negative Integer, rendered with its sign
      and without the parentheses of a negation. */
  lemma NegatedIntegerFolds(fmt: FloatFormat)
    ensures Simplify(Negate(Integer("4", 4)), fmt) == Ok(Integer("-4", -4))
    ensures Render(Negate(Integer("4", 4))) == "(-4)"
  {
    assert IntText(-4) == "-4";
  }
}
