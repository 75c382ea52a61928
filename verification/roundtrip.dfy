/** Rendering and parsing are inverse on the trees the token parser builds:
    the scanner of src/lexer.py splits `str(tree)` into exactly the tokens the
    tree was written with, and `parse` of maths_parser_python/parser.py
    rebuilds the same tree from them. */
module RoundTrip {
  import opened Results
  import opened Chars
  import opened Numerals
  import opened Lexer
  import opened Ast
  import opened TokenParser
  import opened Layout

  const LParenToken := Token(LParen, "(")
  const RParenToken := Token(RParen, ")")

  /** The tokens `Render(e)` is made of, brackets included. */
  function RenderTokens(e: Expr): seq<Token> {
    match e
    case Integer(raw, _) => [Token(Number, raw)]
    case Float(raw, _) => [Token(Number, raw)]
    case Identifier(name) => [Token(Lexer.Identifier, name)]
    case Binary(op, l, r) => [LParenToken] + RenderTokens(l) + [OperatorToken(op)] + RenderTokens(r) + [RParenToken]
    case Negate(a) => [LParenToken, MinusToken] + RenderTokens(a) + [RParenToken]
  }

  /** Scanning from `i` yields the tokens `ts`, none of them END, and stops
      at `j`. */
  ghost predicate Lexes(s: string, i: nat, ts: seq<Token>, j: nat)
    decreases |ts|, 1
  {
    && i <= |s|
    && if |ts| == 0 then i == j else Emits(s, i, ts, j)
  }

  /** The first of `ts` is the token scanned from `i`, and the rest follow. */
  ghost predicate Emits(s: string, i: nat, ts: seq<Token>, j: nat)
    requires i <= |s| && |ts| >= 1
    decreases |ts|, 0
  {
    Next(s, i).0 == ts[0] && ts[0].kind != End && Lexes(s, Next(s, i).1, ts[1..], j)
  }

  lemma {:induction false} LexesConcat(s: string, i: nat, a: seq<Token>, j: nat, b: seq<Token>, k: nat)
    requires Lexes(s, i, a, j) && Lexes(s, j, b, k)
    ensures Lexes(s, i, a + b, k)
    decreases |a|
  {
    if |a| == 0 {
      assert a + b == b;
    } else {
      DropAppend(a, b);
      LexesConcat(s, Next(s, i).1, a[1..], j, b, k);
    }
  }

  lemma DropAppend(a: seq<Token>, b: seq<Token>)
    requires |a| >= 1
    ensures (a + b)[0] == a[0] && (a + b)[1..] == a[1..] + b
  {
  }

  lemma ConsAppend(ts: seq<Token>, rest: seq<Token>)
    requires |ts| >= 1
    ensures ts + rest == [ts[0]] + (ts[1..] + rest)
  {
  }

  /** Three scans in a row make one. */
  lemma LexesChain3(s: string, i0: nat, a: seq<Token>, i1: nat, b: seq<Token>, i2: nat, c: seq<Token>, i3: nat)
    requires Lexes(s, i0, a, i1) && Lexes(s, i1, b, i2) && Lexes(s, i2, c, i3)
    ensures Lexes(s, i0, a + b + c, i3)
  {
    LexesConcat(s, i0, a, i1, b, i2);
    LexesConcat(s, i0, a + b, i2, c, i3);
  }

  /** A scan followed by a scan of two parts. */
  lemma LexesJoin(s: string, i0: nat, a: seq<Token>, i1: nat, b: seq<Token>, c: seq<Token>, i2: nat)
    requires Lexes(s, i0, a, i1) && Lexes(s, i1, b + c, i2)
    ensures Lexes(s, i0, a + b + c, i2)
  {
    LexesConcat(s, i0, a, i1, b + c, i2);
    assert a + (b + c) == a + b + c;
  }

  /** What `Lexes` says about the collected tokens. */
  lemma {:induction false} LexesTokens(s: string, i: nat, ts: seq<Token>, j: nat)
    requires Lexes(s, i, ts, j)
    ensures j <= |s| && Tokens(s, i) == ts + Tokens(s, j)
    decreases |ts|
  {
    if |ts| == 0 {
    } else {
      var k := Next(s, i).1;
      LexesTokens(s, k, ts[1..], j);
      TokensStep(s, i);
      ConsAppend(ts, Tokens(s, j));
    }
  }

  /** A space before a token changes nothing the scanner emits. */
  lemma SpaceSkipped(s: string, i: nat, ts: seq<Token>, j: nat)
    requires i < |s| && IsSpace(s[i]) && |ts| >= 1
    requires Lexes(s, i + 1, ts, j)
    ensures Lexes(s, i, ts, j)
  {
    var (t, k) := Next(s, i + 1);
    NextScans(s, i + 1);
    assert ScansTo(s, i, t, k);
    ScanIsUnique(s, i, t, k);
  }

  /** A single punctuation character is scanned as its own token. */
  lemma Punctuation(s: string, i: nat)
    requires i < |s| && s[i] in "()+-*/"
    ensures Lexes(s, i, [Token(AtomKind(s[i]), [s[i]])], i + 1)
  {
    PunctuationNext(s, i);
    LexesOne(s, i, Token(AtomKind(s[i]), [s[i]]), i + 1);
  }

  lemma PunctuationNext(s: string, i: nat)
    requires i < |s| && s[i] in "()+-*/"
    ensures Next(s, i) == (Token(AtomKind(s[i]), [s[i]]), i + 1)
  {
    var t := Token(AtomKind(s[i]), [s[i]]);
    assert s[i..i + 1] == [s[i]];
    assert ScansTo(s, i, t, i + 1);
    ScanIsUnique(s, i, t, i + 1);
  }

  /** A single step that is not END. */
  lemma LexesOne(s: string, i: nat, t: Token, j: nat)
    requires i <= |s| && Next(s, i) == (t, j) && t.kind != End
    ensures Lexes(s, i, [t], j)
  {
    assert [t][1..] == [];
    assert j <= |s|;
  }

  lemma OpenScanned(s: string, i: nat)
    requires i < |s| && s[i] == '('
    ensures Lexes(s, i, [LParenToken], i + 1)
  {
    Punctuation(s, i);
  }

  lemma CloseScanned(s: string, i: nat)
    requires i < |s| && s[i] == ')'
    ensures Lexes(s, i, [RParenToken], i + 1)
  {
    Punctuation(s, i);
  }

  /** The opening of a rendered negation: a bracket, then the minus sign. */
  lemma NegationOpened(s: string, i: nat)
    requires i + 1 < |s| && s[i] == '(' && s[i + 1] == '-'
    ensures Lexes(s, i, [LParenToken, MinusToken], i + 2)
  {
    OpenScanned(s, i);
    Punctuation(s, i + 1);
    LexesConcat(s, i, [LParenToken], i + 1, [MinusToken], i + 2);
    assert [LParenToken] + [MinusToken] == [LParenToken, MinusToken];
  }

  /** A leaf's text, followed by a character that cannot extend it, is
      scanned as the leaf's one token. */
  lemma LeafScanned(s: string, i: nat, e: Expr, j: nat)
    requires Parsable(e) && (e.Integer? || e.Identifier?)
    requires j == i + |Render(e)| && Occurs(s, i, Render(e)) && !IsIdentChar(Peek(s, j))
    ensures Lexes(s, i, RenderTokens(e), j)
  {
    OccursSlice(s, i, Render(e));
    var t := RenderTokens(e)[0];
    assert t.lexeme == Render(e);
    assert ScansTo(s, i, t, j);
    ScanIsUnique(s, i, t, j);
    assert RenderTokens(e)[1..] == [];
  }

  /** An operator between two spaces is scanned as the operator's token. */
  lemma OperatorScanned(s: string, p: nat, op: BinOp)
    requires p + 3 <= |s| && s[p] == ' ' && s[p + 1] == Symbol(op) && s[p + 2] == ' '
    ensures Lexes(s, p, [OperatorToken(op)], p + 2)
  {
    Punctuation(s, p + 1);
    assert Token(AtomKind(Symbol(op)), [Symbol(op)]) == OperatorToken(op);
    SpaceSkipped(s, p, [OperatorToken(op)], p + 2);
  }

  /** Scanning a rendered tree, followed by a character that cannot extend
      its last token, yields exactly the tree's tokens. */
  lemma {:induction false} LexRendered(s: string, i: nat, e: Expr, j: nat)
    requires Parsable(e)
    requires j == i + |Render(e)| && Occurs(s, i, Render(e)) && !IsIdentChar(Peek(s, j))
    ensures Lexes(s, i, RenderTokens(e), j)
    decreases e, 3
  {
    match e
    case Integer(_, _) =>
      LeafScanned(s, i, e, j);
    case Identifier(_) =>
      LeafScanned(s, i, e, j);
    case Binary(_, _, _) =>
      LexBinary(s, i, e, j);
    case Negate(_) =>
      LexNegate(s, i, e, j);
  }

  lemma {:induction false} LexBinary(s: string, i: nat, e: Expr, j: nat)
    requires e.Binary? && Parsable(e)
    requires j == i + |Render(e)| && Occurs(s, i, Render(e))
    ensures Lexes(s, i, RenderTokens(e), j)
    decreases e, 2
  {
    var p := i + 1 + |Render(e.left)|;
    var end := p + 3 + |Render(e.right)|;
    BinaryLayout(s, i, e, p, end);
    LexOperands(s, i, e, p, end, j);
  }

  /** The binary case once the layout of the text is known. */
  lemma {:induction false} LexOperands(s: string, i: nat, e: Expr, p: nat, end: nat, j: nat)
    requires e.Binary? && Parsable(e)
    requires p == i + 1 + |Render(e.left)| && end == p + 3 + |Render(e.right)| && end < |s| && j == end + 1
    requires s[i] == '(' && s[p] == ' ' && s[p + 1] == Symbol(e.op) && s[p + 2] == ' ' && s[end] == ')'
    requires Occurs(s, i + 1, Render(e.left)) && Occurs(s, p + 3, Render(e.right))
    ensures Lexes(s, i, RenderTokens(e), j)
    decreases e, 1
  {
    LeftHalf(s, i, e.left, e.op, p);
    RightHalf(s, p + 2, p + 3, e.right, end, j);
    LexesJoin(s, i, [LParenToken] + RenderTokens(e.left) + [OperatorToken(e.op)], p + 2, RenderTokens(e.right), [RParenToken], j);
  }

  /** The opening bracket, the left operand and the operator. */
  lemma {:induction false} LeftHalf(s: string, i: nat, e: Expr, op: BinOp, p: nat)
    requires Parsable(e)
    requires p == i + 1 + |Render(e)| && p + 3 <= |s|
    requires s[i] == '(' && s[p] == ' ' && s[p + 1] == Symbol(op) && s[p + 2] == ' '
    requires Occurs(s, i + 1, Render(e))
    ensures Lexes(s, i, [LParenToken] + RenderTokens(e) + [OperatorToken(op)], p + 2)
    decreases e, 5
  {
    OpenedOperand(s, i, e, p);
    OperatorScanned(s, p, op);
    LexesConcat(s, i, [LParenToken] + RenderTokens(e), p, [OperatorToken(op)], p + 2);
  }

  /** The space, the right operand and the closing bracket. */
  lemma {:induction false} RightHalf(s: string, q: nat, r: nat, e: Expr, end: nat, j: nat)
    requires Parsable(e)
    requires r == q + 1 && end == r + |Render(e)| && end < |s| && j == end + 1
    requires s[q] == ' ' && s[end] == ')'
    requires Occurs(s, r, Render(e))
    ensures Lexes(s, q, RenderTokens(e) + [RParenToken], j)
    decreases e, 5
  {
    SpacedOperand(s, q, r, e, end);
    CloseScanned(s, end);
    LexesConcat(s, q, RenderTokens(e), end, [RParenToken], j);
  }

  /** An opening bracket, then a rendered operand. */
  lemma {:induction false} OpenedOperand(s: string, i: nat, e: Expr, j: nat)
    requires Parsable(e) && i < |s| && s[i] == '('
    requires j == i + 1 + |Render(e)| && Occurs(s, i + 1, Render(e)) && !IsIdentChar(Peek(s, j))
    ensures Lexes(s, i, [LParenToken] + RenderTokens(e), j)
    decreases e, 4
  {
    OpenScanned(s, i);
    LexRendered(s, i + 1, e, j);
    LexesConcat(s, i, [LParenToken], i + 1, RenderTokens(e), j);
  }

  /** A space, then a rendered operand. */
  lemma {:induction false} SpacedOperand(s: string, q: nat, r: nat, e: Expr, j: nat)
    requires Parsable(e) && q < |s| && s[q] == ' '
    requires r == q + 1 && j == r + |Render(e)| && Occurs(s, r, Render(e)) && !IsIdentChar(Peek(s, j))
    ensures Lexes(s, q, RenderTokens(e), j)
    decreases e, 4
  {
    LexRendered(s, r, e, j);
    RenderTokensNonEmpty(e);
    SpaceSkipped(s, q, RenderTokens(e), j);
  }

  lemma RenderTokensNonEmpty(e: Expr)
    ensures |RenderTokens(e)| >= 1
  {
  }

  lemma {:induction false} LexNegate(s: string, i: nat, e: Expr, j: nat)
    requires e.Negate? && Parsable(e)
    requires j == i + |Render(e)| && Occurs(s, i, Render(e))
    ensures Lexes(s, i, RenderTokens(e), j)
    decreases e, 2
  {
    var end := i + 2 + |Render(e.arg)|;
    NegateLayout(s, i, e, end);
    LexArgument(s, i, e, end, j);
  }

  lemma {:induction false} LexArgument(s: string, i: nat, e: Expr, end: nat, j: nat)
    requires e.Negate? && Parsable(e)
    requires end == i + 2 + |Render(e.arg)| && end < |s| && j == end + 1
    requires s[i] == '(' && s[i + 1] == '-' && s[end] == ')'
    requires Occurs(s, i + 2, Render(e.arg))
    ensures Lexes(s, i, RenderTokens(e), j)
    decreases e, 1
  {
    NegationOpened(s, i);
    LexRendered(s, i + 2, e.arg, end);
    CloseScanned(s, end);
    LexesChain3(s, i, [LParenToken, MinusToken], i + 2, RenderTokens(e.arg), end, [RParenToken], j);
  }

  /** The tokens of a whole rendered tree: its own, then END. */
  lemma RenderedTokens(e: Expr)
    requires Parsable(e)
    ensures Tokens(Render(e), 0) == RenderTokens(e) + [EndToken]
  {
    var s := Render(e);
    assert Occurs(s, 0, s);
    LexRendered(s, 0, e, |s|);
    LexesTokens(s, 0, RenderTokens(e), |s|);
  }
}
