/** The parser half of the round trip: `parse` of
    maths_parser_python/parser.py reads the tokens of `str(tree)` back into
    the same tree, so rendering is a right inverse of parsing and parsing a
    rendering is a fixed point. */
module Reparse {
  import opened Results
  import opened Lexer
  import opened Ast
  import opened TokenParser
  import opened Layout
  import opened RoundTrip

  /** Where the pieces of a binary node's tokens sit. */
  lemma BinaryTokenPieces(e: Expr)
    requires e.Binary?
    ensures var (T, n1, n2) := (RenderTokens(e), |RenderTokens(e.left)|, |RenderTokens(e.right)|);
            && |T| == n1 + n2 + 3
            && T[0] == LParenToken && T[n1 + 1] == OperatorToken(e.op) && T[n1 + n2 + 2] == RParenToken
            && T[1..1 + n1] == RenderTokens(e.left) && T[n1 + 2..n1 + 2 + n2] == RenderTokens(e.right)
  {
    var (Tl, Tr) := (RenderTokens(e.left), RenderTokens(e.right));
    assert RenderTokens(e) == [LParenToken] + Tl + [OperatorToken(e.op)] + Tr + [RParenToken];
  }

  lemma BinaryTokenLayout(toks: seq<Token>, pos: nat, e: Expr, q: nat, m: nat)
    requires e.Binary? && Occurs(toks, pos, RenderTokens(e))
    requires q == pos + 1 + |RenderTokens(e.left)| && m == q + 1 + |RenderTokens(e.right)|
    ensures m < |toks| && m + 1 == pos + |RenderTokens(e)|
    ensures toks[pos] == LParenToken && toks[q] == OperatorToken(e.op) && toks[m] == RParenToken
    ensures Occurs(toks, pos + 1, RenderTokens(e.left)) && Occurs(toks, q + 1, RenderTokens(e.right))
  {
    var T := RenderTokens(e);
    var (n1, n2) := (|RenderTokens(e.left)|, |RenderTokens(e.right)|);
    BinaryTokenPieces(e);
    OccursWithin(toks, pos, T, 1, RenderTokens(e.left));
    OccursWithin(toks, pos, T, n1 + 2, RenderTokens(e.right));
    assert toks[pos] == T[0];
    assert toks[pos + n1 + 1] == T[n1 + 1];
    assert toks[pos + n1 + n2 + 2] == T[n1 + n2 + 2];
  }

  /** Where the pieces of a negation's tokens sit. */
  lemma NegateTokenPieces(e: Expr)
    requires e.Negate?
    ensures var (T, n) := (RenderTokens(e), |RenderTokens(e.arg)|);
            && |T| == n + 3
            && T[0] == LParenToken && T[1] == MinusToken && T[n + 2] == RParenToken
            && T[2..2 + n] == RenderTokens(e.arg)
  {
    assert RenderTokens(e) == [LParenToken, MinusToken] + RenderTokens(e.arg) + [RParenToken];
  }

  lemma NegateTokenLayout(toks: seq<Token>, pos: nat, e: Expr, m: nat)
    requires e.Negate? && Occurs(toks, pos, RenderTokens(e))
    requires m == pos + 2 + |RenderTokens(e.arg)|
    ensures m < |toks| && m + 1 == pos + |RenderTokens(e)|
    ensures toks[pos] == LParenToken && toks[pos + 1] == MinusToken && toks[m] == RParenToken
    ensures Occurs(toks, pos + 2, RenderTokens(e.arg))
  {
    var T := RenderTokens(e);
    NegateTokenPieces(e);
    OccursWithin(toks, pos, T, 2, RenderTokens(e.arg));
    assert toks[pos] == T[0];
    assert toks[pos + 1] == T[1];
    assert toks[m] == T[|T| - 1];
  }

  /** A factor not followed by `*` or `/` is the whole term. */
  lemma TermStops(toks: seq<Token>, p: nat, f: Parsed)
    requires ValidTokens(toks) && p <= |toks| && ParseFactor(toks, p) == Some(f)
    requires At(toks, f.next).kind != Asterisk && At(toks, f.next).kind != Slash
    ensures ParseTerm(toks, p) == Some(f)
  {
  }

  /** A term not followed by `+` or `-` is the whole expression. */
  lemma ExprStops(toks: seq<Token>, p: nat, t: Parsed)
    requires ValidTokens(toks) && p <= |toks| && ParseTerm(toks, p) == Some(t)
    requires At(toks, t.next).kind != Plus && At(toks, t.next).kind != Minus
    ensures ParseExpr(toks, p) == Some(t)
  {
  }

  /** A parenthesised expression is a factor. */
  lemma Bracketed(toks: seq<Token>, pos: nat, inner: Parsed)
    requires ValidTokens(toks) && pos < |toks| && toks[pos].kind == LParen
    requires ParseExpr(toks, pos + 1) == Some(inner) && At(toks, inner.next).kind == RParen
    ensures ParseFactor(toks, pos) == Some(Parsed(inner.tree, inner.next + 1))
  {
  }

  lemma TermTailStops(toks: seq<Token>, acc: Expr, p: nat)
    requires ValidTokens(toks) && p <= |toks| && Parsable(acc) && At(toks, p).kind == RParen
    ensures TermTail(toks, acc, p) == Some(Parsed(acc, p))
  {
  }

  lemma ExprTailStops(toks: seq<Token>, acc: Expr, p: nat)
    requires ValidTokens(toks) && p <= |toks| && Parsable(acc) && At(toks, p).kind == RParen
    ensures ExprTail(toks, acc, p) == Some(Parsed(acc, p))
  {
  }

  /** `l * r` or `l / r` inside brackets: one turn of the `parse_term` loop,
      which stops at the closing bracket. */
  lemma MultiplicativeInside(toks: seq<Token>, p: nat, e: Expr, l: Parsed, r: Parsed)
    requires ValidTokens(toks) && p <= |toks| && e.Binary? && (e.op == Mult || e.op == Div)
    requires e == Binary(e.op, l.tree, r.tree)
    requires ParseFactor(toks, p) == Some(l) && l.next < |toks| && toks[l.next] == OperatorToken(e.op)
    requires ParseFactor(toks, l.next + 1) == Some(r) && At(toks, r.next).kind == RParen
    ensures ParseTerm(toks, p) == Some(Parsed(e, r.next))
  {
    assert MultiplicativeOp(toks[l.next].kind) == e.op;
    TermTailStops(toks, e, r.next);
  }

  /** `l + r` or `l - r` inside brackets: one turn of the `parse_expr` loop,
      which stops at the closing bracket. */
  lemma AdditiveInside(toks: seq<Token>, p: nat, e: Expr, l: Parsed, r: Parsed)
    requires ValidTokens(toks) && p <= |toks| && e.Binary? && (e.op == Add || e.op == Subtract)
    requires e == Binary(e.op, l.tree, r.tree)
    requires ParseTerm(toks, p) == Some(l) && l.next < |toks| && toks[l.next] == OperatorToken(e.op)
    requires ParseTerm(toks, l.next + 1) == Some(r) && At(toks, r.next).kind == RParen
    ensures ParseExpr(toks, p) == Some(Parsed(e, r.next))
  {
    AdditiveTurn(toks, l.tree, l.next, e, r);
    ExprStarts(toks, p, l);
  }

  lemma ExprStarts(toks: seq<Token>, p: nat, l: Parsed)
    requires ValidTokens(toks) && p <= |toks| && ParseTerm(toks, p) == Some(l)
    ensures ParseExpr(toks, p) == ExprTail(toks, l.tree, l.next)
  {
  }

  /** The loop of `parse_expr` takes one additive operator and term and
      then stops at a closing bracket. */
  lemma AdditiveTurn(toks: seq<Token>, acc: Expr, q: nat, e: Expr, r: Parsed)
    requires ValidTokens(toks) && q < |toks| && Parsable(acc)
    requires e.Binary? && (e.op == Add || e.op == Subtract) && e == Binary(e.op, acc, r.tree)
    requires toks[q] == OperatorToken(e.op) && ParseTerm(toks, q + 1) == Some(r)
    requires At(toks, r.next).kind == RParen
    ensures ExprTail(toks, acc, q) == Some(Parsed(e, r.next))
  {
    assert AdditiveOp(toks[q].kind) == e.op;
    ExprTailStops(toks, e, r.next);
  }

  /** The inside of a binary node's brackets parses as that node, whatever
      the operator's level. */
  lemma BinaryInside(toks: seq<Token>, p: nat, e: Expr, l: Parsed, r: Parsed)
    requires ValidTokens(toks) && p <= |toks| && e.Binary? && e == Binary(e.op, l.tree, r.tree)
    requires ParseFactor(toks, p) == Some(l) && l.next < |toks| && toks[l.next] == OperatorToken(e.op)
    requires ParseFactor(toks, l.next + 1) == Some(r) && At(toks, r.next).kind == RParen
    ensures ParseExpr(toks, p) == Some(Parsed(e, r.next))
  {
    if e.op == Mult || e.op == Div {
      MultiplicativeInside(toks, p, e, l, r);
      ExprStops(toks, p, Parsed(e, r.next));
    } else {
      TermStops(toks, p, l);
      TermStops(toks, l.next + 1, r);
      AdditiveInside(toks, p, e, l, r);
    }
  }

  /** The inside of a negation's brackets parses as that negation. */
  lemma NegateInside(toks: seq<Token>, p: nat, e: Expr, a: Parsed)
    requires ValidTokens(toks) && p < |toks| && toks[p] == MinusToken && e == Negate(a.tree)
    requires ParseFactor(toks, p + 1) == Some(a) && At(toks, a.next).kind == RParen
    ensures ParseExpr(toks, p) == Some(Parsed(e, a.next))
  {
    var f := Parsed(e, a.next);
    assert ParseFactor(toks, p) == Some(f);
    TermStops(toks, p, f);
    ExprStops(toks, p, f);
  }

  /** Wherever the tokens of a tree the parser can build appear, `parse_factor`
      reads exactly them back into that tree. */
  lemma {:induction false} FactorOfRender(toks: seq<Token>, pos: nat, e: Expr, end: nat)
    requires ValidTokens(toks) && Parsable(e)
    requires Occurs(toks, pos, RenderTokens(e)) && end == pos + |RenderTokens(e)|
    ensures ParseFactor(toks, pos) == Some(Parsed(e, end))
    decreases e, 1
  {
    match e
    case Integer(_, _) => LeafOfRender(toks, pos, e, end);
    case Identifier(_) => LeafOfRender(toks, pos, e, end);
    case Float(_, _) => assert false;
    case Binary(_, _, _) => BinaryOfRender(toks, pos, e, end);
    case Negate(_) => NegateOfRender(toks, pos, e, end);
  }

  lemma LeafOfRender(toks: seq<Token>, pos: nat, e: Expr, end: nat)
    requires ValidTokens(toks) && Parsable(e) && (e.Integer? || e.Identifier?)
    requires Occurs(toks, pos, RenderTokens(e)) && end == pos + |RenderTokens(e)|
    ensures ParseFactor(toks, pos) == Some(Parsed(e, end))
  {
    assert toks[pos] == RenderTokens(e)[0];
  }

  lemma {:induction false} BinaryOfRender(toks: seq<Token>, pos: nat, e: Expr, end: nat)
    requires ValidTokens(toks) && Parsable(e) && e.Binary?
    requires Occurs(toks, pos, RenderTokens(e)) && end == pos + |RenderTokens(e)|
    ensures ParseFactor(toks, pos) == Some(Parsed(e, end))
    decreases e, 0
  {
    var q := pos + 1 + |RenderTokens(e.left)|;
    var m := q + 1 + |RenderTokens(e.right)|;
    BinaryTokenLayout(toks, pos, e, q, m);
    FactorOfRender(toks, pos + 1, e.left, q);
    FactorOfRender(toks, q + 1, e.right, m);
    BinaryAssembled(toks, pos, e, Parsed(e.left, q), Parsed(e.right, m), end);
  }

  /** The bracketed operands and operator of a binary node make a factor. */
  lemma BinaryAssembled(toks: seq<Token>, pos: nat, e: Expr, l: Parsed, r: Parsed, end: nat)
    requires ValidTokens(toks) && pos < l.next < r.next < |toks|
    requires e.Binary? && e == Binary(e.op, l.tree, r.tree) && end == r.next + 1
    requires toks[pos] == LParenToken && toks[l.next] == OperatorToken(e.op) && toks[r.next] == RParenToken
    requires ParseFactor(toks, pos + 1) == Some(l) && ParseFactor(toks, l.next + 1) == Some(r)
    ensures ParseFactor(toks, pos) == Some(Parsed(e, end))
  {
    BinaryInside(toks, pos + 1, e, l, r);
    Bracketed(toks, pos, Parsed(e, r.next));
  }

  lemma {:induction false} NegateOfRender(toks: seq<Token>, pos: nat, e: Expr, end: nat)
    requires ValidTokens(toks) && Parsable(e) && e.Negate?
    requires Occurs(toks, pos, RenderTokens(e)) && end == pos + |RenderTokens(e)|
    ensures ParseFactor(toks, pos) == Some(Parsed(e, end))
    decreases e, 0
  {
    var m := pos + 2 + |RenderTokens(e.arg)|;
    NegateTokenLayout(toks, pos, e, m);
    FactorOfRender(toks, pos + 2, e.arg, m);
    NegateAssembled(toks, pos, e, m, end);
  }

  /** The bracketed minus sign and operand of a negation make a factor. */
  lemma NegateAssembled(toks: seq<Token>, pos: nat, e: Expr, m: nat, end: nat)
    requires ValidTokens(toks) && e.Negate? && pos + 1 < m < |toks| && end == m + 1
    requires toks[pos] == LParenToken && toks[pos + 1] == MinusToken && toks[m] == RParenToken
    requires ParseFactor(toks, pos + 2) == Some(Parsed(e.arg, m))
    ensures ParseFactor(toks, pos) == Some(Parsed(e, end))
  {
    NegateInside(toks, pos + 1, e, Parsed(e.arg, m));
    Bracketed(toks, pos, Parsed(e, m));
  }

  /** Rendering is a right inverse of parsing: every tree the parser can
      build is parsed back from its own text. */
  lemma ParseOfRender(e: Expr)
    requires Parsable(e)
    ensures Parse(Render(e)) == Ok(e)
  {
    var toks := Tokens(Render(e), 0);
    var n := |RenderTokens(e)|;
    RenderedTokens(e);
    assert Occurs(toks, 0, RenderTokens(e));
    assert At(toks, n) == EndToken;
    FactorOfRender(toks, 0, e, n);
    TermStops(toks, 0, Parsed(e, n));
    ExprStops(toks, 0, Parsed(e, n));
  }

  /** Parsing a tree's rendering gives the tree back, so re-rendering a
      parse is a fixed point and a parse is determined by its rendering. */
  lemma ReparseIsFixedPoint(s: string)
    requires Parse(s).Ok?
    ensures Parse(Render(Parse(s).value)) == Parse(s)
  {
    ParseOfRender(Parse(s).value);
  }

  /** Two parsable trees with the same rendering are the same tree. */
  lemma RenderIsInjective(e1: Expr, e2: Expr)
    requires Parsable(e1) && Parsable(e2) && Render(e1) == Render(e2)
    ensures e1 == e2
  {
    ParseOfRender(e1);
    ParseOfRender(e2);
  }
}
