/** The recursive-descent parser of maths_parser_python/parser.py, over the
    tokens of src/lexer.py:

      Expr   -> Term { (+|-) Term }
      Term   -> Factor { (*|/) Factor }
      Factor -> IDENTIFIER | NUMBER | ( Expr ) | - Factor

    The scanner is pulled on demand in the original; here the tokens are read
    by position from `Lexer.Tokens`, which `Lexer.TokensArePulls` shows to be
    the same thing. Each parse function returns the tree and the position of
    the token that follows it (the token the original passes back), or `None`
    where the original returns `None`. The `{ ... }` loops are the `...Tail`
    functions, which fold each new operand into the accumulated tree. */
module TokenParser {
  import opened Results
  import opened Chars
  import opened Numerals
  import opened Lexer
  import opened Ast

  datatype Parsed = Parsed(tree: Expr, next: nat)

  /** Why `parse` fails: no tree (the `None` that fails to unpack), or a
      token other than END after the expression (the failed `assert`). */
  datatype ParseError = NoTree | Trailing(token: Token)

  /** The trees this parser builds: Integers holding a digit run and its
      value, Identifiers holding an identifier, and no Float. */
  predicate Parsable(e: Expr) {
    match e
    case Integer(raw, v) => IsNumeral(raw) && v == DecimalValue(raw)
    case Float(_, _) => false
    case Identifier(name) => IsIdentifierText(name)
    case Binary(_, l, r) => Parsable(l) && Parsable(r)
    case Negate(a) => Parsable(a)
  }

  /** The token kinds a factor can start with. */
  predicate StartsOperand(k: Kind) {
    k == Lexer.Identifier || k == Number || k == LParen || k == Minus
  }

  /** The tree a single operand token stands for. */
  function Leaf(t: Token): (e: Expr)
    requires ValidToken(t) && (t.kind == Lexer.Identifier || t.kind == Number)
    ensures Parsable(e) && Render(e) == t.lexeme
    ensures e.Integer? <==> t.kind == Number
    ensures e.Integer? ==> e.value == DecimalValue(t.lexeme)
  {
    if t.kind == Number then IntegerOfText(t.lexeme) else Ast.Identifier(t.lexeme)
  }

  /** `parse_expr`. */
  function ParseExpr(toks: seq<Token>, pos: nat): (r: Option<Parsed>)
    requires ValidTokens(toks) && pos <= |toks|
    ensures r.Some? ==> pos < r.value.next <= |toks| && Parsable(r.value.tree)
    ensures r.Some? ==> StartsOperand(At(toks, pos).kind)
    decreases |toks| - pos, 3
  {
    match ParseTerm(toks, pos)
    case None => None
    case Some(t) => ExprTail(toks, t.tree, t.next)
  }

  /** The loop of `parse_expr`, with the tree built so far in `acc` and the
      token that follows it at `p`. */
  function ExprTail(toks: seq<Token>, acc: Expr, p: nat): (r: Option<Parsed>)
    requires ValidTokens(toks) && p <= |toks| && Parsable(acc)
    ensures r.Some? ==> p <= r.value.next <= |toks| && Parsable(r.value.tree)
    decreases |toks| - p, 2
  {
    var k := At(toks, p).kind;
    if k == Plus || k == Minus then
      match ParseTerm(toks, p + 1)
      case None => None
      case Some(t) => ExprTail(toks, Binary(AdditiveOp(k), acc, t.tree), t.next)
    else
      Some(Parsed(acc, p))
  }

  /** `parse_term`. */
  function ParseTerm(toks: seq<Token>, pos: nat): (r: Option<Parsed>)
    requires ValidTokens(toks) && pos <= |toks|
    ensures r.Some? ==> pos < r.value.next <= |toks| && Parsable(r.value.tree)
    ensures r.Some? ==> StartsOperand(At(toks, pos).kind)
    decreases |toks| - pos, 1
  {
    match ParseFactor(toks, pos)
    case None => None
    case Some(f) => TermTail(toks, f.tree, f.next)
  }

  /** The loop of `parse_term`. */
  function TermTail(toks: seq<Token>, acc: Expr, p: nat): (r: Option<Parsed>)
    requires ValidTokens(toks) && p <= |toks| && Parsable(acc)
    ensures r.Some? ==> p <= r.value.next <= |toks| && Parsable(r.value.tree)
    decreases |toks| - p, 1
  {
    var k := At(toks, p).kind;
    if k == Asterisk || k == Slash then
      match ParseFactor(toks, p + 1)
      case None => None
      case Some(f) => TermTail(toks, Binary(MultiplicativeOp(k), acc, f.tree), f.next)
    else
      Some(Parsed(acc, p))
  }

  /** `parse_factor`: an identifier, a number (its lexeme kept verbatim), a
      parenthesised expression that must be closed, or a minus sign applied
      to exactly one following factor. Any other token gives no tree. */
  function ParseFactor(toks: seq<Token>, pos: nat): (r: Option<Parsed>)
    requires ValidTokens(toks) && pos <= |toks|
    ensures r.Some? ==> pos < r.value.next <= |toks| && Parsable(r.value.tree)
    ensures r.Some? ==> StartsOperand(At(toks, pos).kind)
    decreases |toks| - pos, 0
  {
    var t := At(toks, pos);
    match t.kind
    case Identifier => Some(Parsed(Leaf(t), pos + 1))
    case Number => Some(Parsed(Leaf(t), pos + 1))
    case LParen =>
      (match ParseExpr(toks, pos + 1)
       case None => None
       case Some(inner) =>
         if At(toks, inner.next).kind == RParen then Some(Parsed(inner.tree, inner.next + 1))
         else None)
    case Minus =>
      (match ParseFactor(toks, pos + 1)
       case None => None
       case Some(f) => Some(Parsed(Negate(f.tree), f.next)))
    case _ => None
  }

  /** `parse`: the whole input must be one expression followed by END. */
  function Parse(s: string): (r: Result<Expr, ParseError>)
    ensures r.Ok? ==> Parsable(r.value)
  {
    var toks := Tokens(s, 0);
    match ParseExpr(toks, 0)
    case None => Err(NoTree)
    case Some(p) =>
      var t := At(toks, p.next);
      if t.kind == End then Ok(p.tree) else Err(Trailing(t))
  }

  /** The token each operator is written with. */
  function OperatorToken(op: BinOp): (t: Token)
    ensures ValidToken(t) && t.lexeme == [Symbol(op)]
  {
    match op
    case Add => Token(Plus, "+")
    case Subtract => Token(Minus, "-")
    case Mult => Token(Asterisk, "*")
    case Div => Token(Slash, "/")
  }

  const MinusToken := Token(Minus, "-")

  /** The operand and operator tokens of a tree, in source order, with no
      parentheses. */
  function Flat(e: Expr): seq<Token> {
    match e
    case Integer(raw, _) => [Token(Number, raw)]
    case Float(raw, _) => [Token(Number, raw)]
    case Identifier(name) => [Token(Lexer.Identifier, name)]
    case Binary(op, l, r) => Flat(l) + [OperatorToken(op)] + Flat(r)
    case Negate(a) => [MinusToken] + Flat(a)
  }

  predicate IsBracket(t: Token) {
    t.kind == LParen || t.kind == RParen
  }

  /** A token sequence with its parentheses dropped. */
  function Unbracketed(ts: seq<Token>): seq<Token> {
    if |ts| == 0 then []
    else (if IsBracket(ts[0]) then [] else [ts[0]]) + Unbracketed(ts[1..])
  }

  lemma {:induction false} UnbracketedConcat(a: seq<Token>, b: seq<Token>)
    ensures Unbracketed(a + b) == Unbracketed(a) + Unbracketed(b)
  {
    if |a| == 0 {
      assert a + b == b;
    } else {
      assert (a + b)[1..] == a[1..] + b;
      UnbracketedConcat(a[1..], b);
    }
  }

  /** `Unbracketed` over adjacent slices. */
  lemma UnbracketedSplit(ts: seq<Token>, i: nat, j: nat, k: nat)
    requires i <= j <= k <= |ts|
    ensures Unbracketed(ts[i..k]) == Unbracketed(ts[i..j]) + Unbracketed(ts[j..k])
  {
    assert ts[i..k] == ts[i..j] + ts[j..k];
    UnbracketedConcat(ts[i..j], ts[j..k]);
  }

  /** A lexed token whose kind is a single-character operator is exactly
      that operator's token. */
  lemma AtomToken(t: Token, op: BinOp)
    requires ValidToken(t) && t.kind == OperatorToken(op).kind
    ensures t == OperatorToken(op)
  {
    assert t.lexeme == [t.lexeme[0]];
  }

  /** Parsing keeps every operand and operator token it consumes, in order,
      and drops only parentheses: the tree's flattening is the consumed
      slice without its brackets. */
  lemma {:induction false} ExprKeepsTokens(toks: seq<Token>, pos: nat, r: Parsed)
    requires ValidTokens(toks) && pos <= |toks| && ParseExpr(toks, pos) == Some(r)
    ensures pos <= r.next <= |toks| && Flat(r.tree) == Unbracketed(toks[pos..r.next])
    decreases |toks| - pos, 4
  {
    var t := ParseTerm(toks, pos).value;
    TermKeepsTokens(toks, pos, t);
    ExprTailKeepsTokens(toks, t.tree, t.next, r);
    UnbracketedSplit(toks, pos, t.next, r.next);
  }

  function AdditiveOp(k: Kind): BinOp {
    if k == Plus then Add else Subtract
  }

  function MultiplicativeOp(k: Kind): BinOp {
    if k == Asterisk then Mult else Div
  }

  /** The bookkeeping of one loop turn, apart from the parse functions: the
      operator token at `p` followed by the operand's tokens, then whatever
      the rest of the loop consumed. */
  lemma OperandFolded(toks: seq<Token>, p: nat, q: nat, n: nat, op: BinOp, acc: Expr, operand: Expr, result: Expr)
    requires ValidTokens(toks) && p < q <= n <= |toks| && toks[p].kind == OperatorToken(op).kind
    requires Flat(operand) == Unbracketed(toks[p + 1..q])
    requires Flat(result) == Flat(Binary(op, acc, operand)) + Unbracketed(toks[q..n])
    ensures Flat(result) == Flat(acc) + Unbracketed(toks[p..n])
  {
    OperatorSlice(toks, p, q, op);
    UnbracketedSplit(toks, p, q, n);
    Regroup(Flat(result), Flat(Binary(op, acc, operand)), Flat(acc), [OperatorToken(op)], Flat(operand),
            Unbracketed(toks[q..n]), Unbracketed(toks[p..n]), Unbracketed(toks[p..q]));
  }

  /** Regrouping the pieces of the tail lemmas' concatenations. */
  lemma Regroup(whole: seq<Token>, mid: seq<Token>, acc: seq<Token>, op: seq<Token>, operand: seq<Token>,
                rest: seq<Token>, consumed: seq<Token>, first: seq<Token>)
    requires whole == mid + rest && mid == acc + op + operand
    requires first == op + operand && consumed == first + rest
    ensures whole == acc + consumed
  {
  }

  /** A slice that starts with an operator token keeps it. */
  lemma OperatorSlice(toks: seq<Token>, p: nat, q: nat, op: BinOp)
    requires ValidTokens(toks) && p < q <= |toks| && toks[p].kind == OperatorToken(op).kind
    ensures Unbracketed(toks[p..q]) == [OperatorToken(op)] + Unbracketed(toks[p + 1..q])
  {
    AtomToken(toks[p], op);
    assert toks[p..q] == [toks[p]] + toks[p + 1..q];
    UnbracketedConcat([toks[p]], toks[p + 1..q]);
    assert [toks[p]][1..] == [];
  }

  /** One turn of the loop: the operator token is consumed and the next
      operand folded into the accumulated tree. */
  lemma ExprTailStep(toks: seq<Token>, acc: Expr, p: nat)
    requires ValidTokens(toks) && p <= |toks| && Parsable(acc) && ExprTail(toks, acc, p).Some?
    requires At(toks, p).kind == Plus || At(toks, p).kind == Minus
    ensures p < |toks| && ParseTerm(toks, p + 1).Some?
    ensures var t := ParseTerm(toks, p + 1).value;
            ExprTail(toks, acc, p) == ExprTail(toks, Binary(AdditiveOp(At(toks, p).kind), acc, t.tree), t.next)
  {
  }

  lemma {:induction false} ExprTailKeepsTokens(toks: seq<Token>, acc: Expr, p: nat, r: Parsed)
    requires ValidTokens(toks) && p <= |toks| && Parsable(acc) && ExprTail(toks, acc, p) == Some(r)
    ensures p <= r.next <= |toks| && Flat(r.tree) == Flat(acc) + Unbracketed(toks[p..r.next])
    decreases |toks| - p, 3
  {
    var k := At(toks, p).kind;
    if k == Plus || k == Minus {
      ExprTailStep(toks, acc, p);
      var t := ParseTerm(toks, p + 1).value;
      ExprTurnKeepsTokens(toks, acc, p, AdditiveOp(k), t, r);
    } else {
      assert toks[p..p] == [];
    }
  }

  lemma {:induction false} ExprTurnKeepsTokens(toks: seq<Token>, acc: Expr, p: nat, op: BinOp, t: Parsed, r: Parsed)
    requires ValidTokens(toks) && p < |toks| && toks[p].kind == OperatorToken(op).kind && Parsable(acc)
    requires ParseTerm(toks, p + 1) == Some(t) && ExprTail(toks, Binary(op, acc, t.tree), t.next) == Some(r)
    ensures p < r.next <= |toks| && Flat(r.tree) == Flat(acc) + Unbracketed(toks[p..r.next])
    decreases |toks| - p, 2
  {
    TermKeepsTokens(toks, p + 1, t);
    ExprTailKeepsTokens(toks, Binary(op, acc, t.tree), t.next, r);
    OperandFolded(toks, p, t.next, r.next, op, acc, t.tree, r.tree);
  }

  lemma {:induction false} TermKeepsTokens(toks: seq<Token>, pos: nat, r: Parsed)
    requires ValidTokens(toks) && pos <= |toks| && ParseTerm(toks, pos) == Some(r)
    ensures pos <= r.next <= |toks| && Flat(r.tree) == Unbracketed(toks[pos..r.next])
    decreases |toks| - pos, 3
  {
    var f := ParseFactor(toks, pos).value;
    FactorKeepsTokens(toks, pos, f);
    TermTailKeepsTokens(toks, f.tree, f.next, r);
    UnbracketedSplit(toks, pos, f.next, r.next);
  }

  /** One turn of the loop: the operator token is consumed and the next
      operand folded into the accumulated tree. */
  lemma TermTailStep(toks: seq<Token>, acc: Expr, p: nat)
    requires ValidTokens(toks) && p <= |toks| && Parsable(acc) && TermTail(toks, acc, p).Some?
    requires At(toks, p).kind == Asterisk || At(toks, p).kind == Slash
    ensures p < |toks| && ParseFactor(toks, p + 1).Some?
    ensures var f := ParseFactor(toks, p + 1).value;
            TermTail(toks, acc, p) == TermTail(toks, Binary(MultiplicativeOp(At(toks, p).kind), acc, f.tree), f.next)
  {
  }

  lemma {:induction false} TermTailKeepsTokens(toks: seq<Token>, acc: Expr, p: nat, r: Parsed)
    requires ValidTokens(toks) && p <= |toks| && Parsable(acc) && TermTail(toks, acc, p) == Some(r)
    ensures p <= r.next <= |toks| && Flat(r.tree) == Flat(acc) + Unbracketed(toks[p..r.next])
    decreases |toks| - p, 2
  {
    var k := At(toks, p).kind;
    if k == Asterisk || k == Slash {
      TermTailStep(toks, acc, p);
      var f := ParseFactor(toks, p + 1).value;
      TermTurnKeepsTokens(toks, acc, p, MultiplicativeOp(k), f, r);
    } else {
      assert toks[p..p] == [];
    }
  }

  lemma {:induction false} TermTurnKeepsTokens(toks: seq<Token>, acc: Expr, p: nat, op: BinOp, f: Parsed, r: Parsed)
    requires ValidTokens(toks) && p < |toks| && toks[p].kind == OperatorToken(op).kind && Parsable(acc)
    requires ParseFactor(toks, p + 1) == Some(f) && TermTail(toks, Binary(op, acc, f.tree), f.next) == Some(r)
    ensures p < r.next <= |toks| && Flat(r.tree) == Flat(acc) + Unbracketed(toks[p..r.next])
    decreases |toks| - p, 1
  {
    FactorKeepsTokens(toks, p + 1, f);
    TermTailKeepsTokens(toks, Binary(op, acc, f.tree), f.next, r);
    OperandFolded(toks, p, f.next, r.next, op, acc, f.tree, r.tree);
  }

  lemma {:induction false} FactorKeepsTokens(toks: seq<Token>, pos: nat, r: Parsed)
    requires ValidTokens(toks) && pos <= |toks| && ParseFactor(toks, pos) == Some(r)
    ensures pos < r.next <= |toks| && Flat(r.tree) == Unbracketed(toks[pos..r.next])
    decreases |toks| - pos, 0
  {
    var t := At(toks, pos);
    match t.kind
    case Identifier =>
      LeafSlice(toks, pos);
    case Number =>
      LeafSlice(toks, pos);
    case LParen =>
      var inner := ParseExpr(toks, pos + 1).value;
      ExprKeepsTokens(toks, pos + 1, inner);
      BracketedSlice(toks, pos, inner.next);
    case Minus =>
      var f := ParseFactor(toks, pos + 1).value;
      FactorKeepsTokens(toks, pos + 1, f);
      OperatorSlice(toks, pos, f.next, Subtract);
  }

  /** The one-token slice of an operand token is its leaf's flattening. */
  lemma LeafSlice(toks: seq<Token>, pos: nat)
    requires ValidTokens(toks) && pos < |toks|
    requires toks[pos].kind == Lexer.Identifier || toks[pos].kind == Number
    ensures Unbracketed(toks[pos..pos + 1]) == Flat(Leaf(toks[pos]))
  {
    assert toks[pos..pos + 1][1..] == [];
  }

  /** Dropping the brackets of a parenthesised slice leaves its inside. */
  lemma BracketedSlice(toks: seq<Token>, pos: nat, close: nat)
    requires pos < close < |toks| && toks[pos].kind == LParen && toks[close].kind == RParen
    ensures Unbracketed(toks[pos..close + 1]) == Unbracketed(toks[pos + 1..close])
  {
    UnbracketedSplit(toks, pos, pos + 1, close + 1);
    UnbracketedSplit(toks, pos + 1, close, close + 1);
    assert toks[pos..pos + 1][1..] == [];
    assert toks[close..close + 1][1..] == [];
  }

  lemma {:induction false} FlatHasNoEnd(e: Expr)
    ensures forall k :: 0 <= k < |Flat(e)| ==> Flat(e)[k].kind != End
  {
    match e
    case Binary(_, l, r) =>
      FlatHasNoEnd(l);
      FlatHasNoEnd(r);
      assert Flat(e) == Flat(l) + [OperatorToken(e.op)] + Flat(r);
    case Negate(a) =>
      FlatHasNoEnd(a);
    case _ =>
  }

  /** A token that is not a bracket survives `Unbracketed` at the end. */
  lemma UnbracketedKeepsLast(ts: seq<Token>)
    requires |ts| >= 1 && !IsBracket(ts[|ts| - 1])
    ensures |Unbracketed(ts)| >= 1 && Unbracketed(ts)[|Unbracketed(ts)| - 1] == ts[|ts| - 1]
  {
    var n := |ts| - 1;
    assert ts == ts[..n] + [ts[n]];
    UnbracketedConcat(ts[..n], [ts[n]]);
    assert [ts[n]][1..] == [];
  }

  /** A successful `parse` consumes every token before END, and the tree
      holds exactly the operand and operator tokens of the input, in order. */
  lemma ParseKeepsTokens(s: string)
    requires Parse(s).Ok?
    ensures var toks := Tokens(s, 0);
            ParseExpr(toks, 0).value.next == |toks| - 1
            && Flat(Parse(s).value) == Unbracketed(toks[..|toks| - 1])
  {
    var toks := Tokens(s, 0);
    WholeExprKeepsTokens(toks, ParseExpr(toks, 0).value);
  }

  /** The same over any token sequence whose only END is its last token. */
  lemma WholeExprKeepsTokens(toks: seq<Token>, r: Parsed)
    requires ValidTokens(toks) && |toks| >= 1 && toks[|toks| - 1] == EndToken
    requires forall k :: 0 <= k < |toks| - 1 ==> toks[k].kind != End
    requires ParseExpr(toks, 0) == Some(r) && At(toks, r.next).kind == End
    ensures r.next == |toks| - 1 && Flat(r.tree) == Unbracketed(toks[..|toks| - 1])
  {
    ExprKeepsTokens(toks, 0, r);
    EndNotConsumed(toks, r.tree, r.next);
    FirstEndIsLast(toks, r.next);
    assert toks[..|toks| - 1] == toks[0..|toks| - 1];
  }

  /** A tree's flattening holds no END, so it cannot cover the final END. */
  lemma EndNotConsumed(toks: seq<Token>, tree: Expr, n: nat)
    requires |toks| >= 1 && toks[|toks| - 1] == EndToken
    requires n <= |toks| && Flat(tree) == Unbracketed(toks[0..n])
    ensures n < |toks|
  {
    if n == |toks| {
      UnbracketedKeepsLast(toks[0..n]);
      FlatHasNoEnd(tree);
      assert false;
    }
  }

  /** The only END of such a sequence is its last token. */
  lemma FirstEndIsLast(toks: seq<Token>, n: nat)
    requires |toks| >= 1 && forall k :: 0 <= k < |toks| - 1 ==> toks[k].kind != End
    requires n < |toks| && At(toks, n).kind == End
    ensures n == |toks| - 1
  {
  }


  /** The bracket depth after reading `ts` from depth `d`, or `None` once a
      `)` arrives with no `(` open. */
  function Walk(ts: seq<Token>, d: nat): Option<nat> {
    if |ts| == 0 then Some(d)
    else if ts[0].kind == LParen then Walk(ts[1..], d + 1)
    else if ts[0].kind == RParen then (if d == 0 then None else Walk(ts[1..], d - 1))
    else Walk(ts[1..], d)
  }

  /** Every `)` closes an earlier `(`, and every `(` is closed. */
  predicate Balanced(ts: seq<Token>) {
    Walk(ts, 0) == Some(0)
  }

  /** Reading `a + b` is reading `a`, then `b` from where `a` left off. */
  lemma {:induction false} WalkConcat(a: seq<Token>, b: seq<Token>, d: nat)
    ensures Walk(a + b, d) == (match Walk(a, d) case None => None case Some(e) => Walk(b, e))
    decreases |a|
  {
    if |a| == 0 {
      assert a + b == b;
    } else {
      assert (a + b)[1..] == a[1..] + b;
      if a[0].kind == LParen {
        WalkConcat(a[1..], b, d + 1);
      } else if a[0].kind == RParen {
        if d > 0 {
          WalkConcat(a[1..], b, d - 1);
        }
      } else {
        WalkConcat(a[1..], b, d);
      }
    }
  }

  /** Starting `d` levels deeper ends `d` levels deeper, with no `)` left
      unmatched on the way. */
  lemma {:induction false} WalkShift(ts: seq<Token>, s: nat, e: nat, d: nat)
    requires Walk(ts, s) == Some(e)
    ensures Walk(ts, s + d) == Some(e + d)
    decreases |ts|
  {
    if |ts| > 0 {
      if ts[0].kind == LParen {
        WalkShift(ts[1..], s + 1, e, d);
      } else if ts[0].kind == RParen {
        WalkShift(ts[1..], s - 1, e, d);
      } else {
        WalkShift(ts[1..], s, e, d);
      }
    }
  }

  /** Balanced slices side by side make a balanced slice. */
  lemma BalancedSplit(ts: seq<Token>, i: nat, j: nat, k: nat)
    requires i <= j <= k <= |ts| && Balanced(ts[i..j]) && Balanced(ts[j..k])
    ensures Balanced(ts[i..k])
  {
    assert ts[i..k] == ts[i..j] + ts[j..k];
    WalkConcat(ts[i..j], ts[j..k], 0);
  }

  /** A single token that is not a bracket is balanced. */
  lemma PlainTokenBalanced(ts: seq<Token>, p: nat)
    requires p < |ts| && !IsBracket(ts[p])
    ensures Balanced(ts[p..p + 1])
  {
    assert ts[p..p + 1][1..] == [];
  }

  /** A balanced slice wrapped in a matching pair of brackets is balanced. */
  lemma WrappedBalanced(ts: seq<Token>, pos: nat, close: nat)
    requires pos < close < |ts| && ts[pos].kind == LParen && ts[close].kind == RParen
    requires Balanced(ts[pos + 1..close])
    ensures Balanced(ts[pos..close + 1])
  {
    assert ts[pos..close + 1] == [ts[pos]] + ts[pos + 1..close] + [ts[close]];
    WalkConcat([ts[pos]] + ts[pos + 1..close], [ts[close]], 0);
    WalkConcat([ts[pos]], ts[pos + 1..close], 0);
    assert [ts[pos]][1..] == [];
    WalkShift(ts[pos + 1..close], 0, 0, 1);
    assert [ts[close]][1..] == [];
  }

  /** An operator token, then two balanced slices, is balanced. */
  lemma OperatorTurnBalanced(ts: seq<Token>, p: nat, q: nat, n: nat)
    requires p < q <= n <= |ts| && !IsBracket(ts[p])
    requires Balanced(ts[p + 1..q]) && Balanced(ts[q..n])
    ensures Balanced(ts[p..n])
  {
    PlainTokenBalanced(ts, p);
    BalancedSplit(ts, p, p + 1, q);
    BalancedSplit(ts, p, q, n);
  }

  /** Every slice a parse function consumes is balanced. */
  lemma {:induction false} ExprBalanced(toks: seq<Token>, pos: nat, r: Parsed)
    requires ValidTokens(toks) && pos <= |toks| && ParseExpr(toks, pos) == Some(r)
    ensures Balanced(toks[pos..r.next])
    decreases |toks| - pos, 4
  {
    var t := ParseTerm(toks, pos).value;
    TermBalanced(toks, pos, t);
    ExprTailBalanced(toks, t.tree, t.next, r);
    BalancedSplit(toks, pos, t.next, r.next);
  }

  lemma {:induction false} ExprTailBalanced(toks: seq<Token>, acc: Expr, p: nat, r: Parsed)
    requires ValidTokens(toks) && p <= |toks| && Parsable(acc) && ExprTail(toks, acc, p) == Some(r)
    ensures Balanced(toks[p..r.next])
    decreases |toks| - p, 3
  {
    var k := At(toks, p).kind;
    if k == Plus || k == Minus {
      ExprTailStep(toks, acc, p);
      var t := ParseTerm(toks, p + 1).value;
      ExprTurnBalanced(toks, acc, p, AdditiveOp(k), t, r);
    } else {
      assert toks[p..p] == [];
    }
  }

  lemma {:induction false} ExprTurnBalanced(toks: seq<Token>, acc: Expr, p: nat, op: BinOp, t: Parsed, r: Parsed)
    requires ValidTokens(toks) && p < |toks| && toks[p].kind == OperatorToken(op).kind && Parsable(acc)
    requires ParseTerm(toks, p + 1) == Some(t) && ExprTail(toks, Binary(op, acc, t.tree), t.next) == Some(r)
    ensures Balanced(toks[p..r.next])
    decreases |toks| - p, 2
  {
    TermBalanced(toks, p + 1, t);
    ExprTailBalanced(toks, Binary(op, acc, t.tree), t.next, r);
    OperatorTurnBalanced(toks, p, t.next, r.next);
  }

  lemma {:induction false} TermBalanced(toks: seq<Token>, pos: nat, r: Parsed)
    requires ValidTokens(toks) && pos <= |toks| && ParseTerm(toks, pos) == Some(r)
    ensures Balanced(toks[pos..r.next])
    decreases |toks| - pos, 3
  {
    var f := ParseFactor(toks, pos).value;
    FactorBalanced(toks, pos, f);
    TermTailBalanced(toks, f.tree, f.next, r);
    BalancedSplit(toks, pos, f.next, r.next);
  }

  lemma {:induction false} TermTailBalanced(toks: seq<Token>, acc: Expr, p: nat, r: Parsed)
    requires ValidTokens(toks) && p <= |toks| && Parsable(acc) && TermTail(toks, acc, p) == Some(r)
    ensures Balanced(toks[p..r.next])
    decreases |toks| - p, 2
  {
    var k := At(toks, p).kind;
    if k == Asterisk || k == Slash {
      TermTailStep(toks, acc, p);
      var f := ParseFactor(toks, p + 1).value;
      TermTurnBalanced(toks, acc, p, MultiplicativeOp(k), f, r);
    } else {
      assert toks[p..p] == [];
    }
  }

  lemma {:induction false} TermTurnBalanced(toks: seq<Token>, acc: Expr, p: nat, op: BinOp, f: Parsed, r: Parsed)
    requires ValidTokens(toks) && p < |toks| && toks[p].kind == OperatorToken(op).kind && Parsable(acc)
    requires ParseFactor(toks, p + 1) == Some(f) && TermTail(toks, Binary(op, acc, f.tree), f.next) == Some(r)
    ensures Balanced(toks[p..r.next])
    decreases |toks| - p, 1
  {
    FactorBalanced(toks, p + 1, f);
    TermTailBalanced(toks, Binary(op, acc, f.tree), f.next, r);
    OperatorTurnBalanced(toks, p, f.next, r.next);
  }

  lemma {:induction false} FactorBalanced(toks: seq<Token>, pos: nat, r: Parsed)
    requires ValidTokens(toks) && pos <= |toks| && ParseFactor(toks, pos) == Some(r)
    ensures Balanced(toks[pos..r.next])
    decreases |toks| - pos, 1
  {
    var t := At(toks, pos);
    match t.kind
    case Identifier =>
      PlainTokenBalanced(toks, pos);
    case Number =>
      PlainTokenBalanced(toks, pos);
    case LParen =>
      var inner := ParseExpr(toks, pos + 1).value;
      BracketBalanced(toks, pos, inner);
    case Minus =>
      var f := ParseFactor(toks, pos + 1).value;
      FactorBalanced(toks, pos + 1, f);
      OperatorTurnBalanced(toks, pos, f.next, f.next);
  }

  /** The bracketed case of `parse_factor`. */
  lemma {:induction false} BracketBalanced(toks: seq<Token>, pos: nat, inner: Parsed)
    requires ValidTokens(toks) && pos < |toks| && toks[pos].kind == LParen
    requires ParseExpr(toks, pos + 1) == Some(inner) && At(toks, inner.next).kind == RParen
    ensures inner.next < |toks| && Balanced(toks[pos..inner.next + 1])
    decreases |toks| - pos, 0
  {
    ExprBalanced(toks, pos + 1, inner);
    WrappedBalanced(toks, pos, inner.next);
  }

  /** A successful `parse` has read an input whose brackets are balanced:
      an unmatched `(` or `)` anywhere makes `parse` fail. */
  lemma ParseBalancesBrackets(s: string)
    requires Parse(s).Ok?
    ensures Balanced(Tokens(s, 0))
  {
    var toks := Tokens(s, 0);
    var r := ParseExpr(toks, 0).value;
    ParseKeepsTokens(s);
    ExprBalanced(toks, 0, r);
    PlainTokenBalanced(toks, r.next);
    BalancedSplit(toks, 0, r.next, |toks|);
    assert toks[0..|toks|] == toks;
  }

  /** How tightly an operator binds: `*` and `/` above `+` and `-`. */
  function Level(op: BinOp): nat {
    if op == Add || op == Subtract then 1 else 2
  }

  predicate IsOperandToken(t: Token) {
    ValidToken(t) && (t.kind == Lexer.Identifier || t.kind == Number)
  }

  function ThreeOperands(a: Token, o1: BinOp, b: Token, o2: BinOp, c: Token): seq<Token> {
    [a, OperatorToken(o1), b, OperatorToken(o2), c, EndToken]
  }

  /** The operands of `ThreeOperands`, each parsed alone. */
  lemma ThreeOperandFactors(a: Token, o1: BinOp, b: Token, o2: BinOp, c: Token)
    requires IsOperandToken(a) && IsOperandToken(b) && IsOperandToken(c)
    ensures ValidTokens(ThreeOperands(a, o1, b, o2, c))
    ensures var toks := ThreeOperands(a, o1, b, o2, c);
            && ParseFactor(toks, 0) == Some(Parsed(Leaf(a), 1))
            && ParseFactor(toks, 2) == Some(Parsed(Leaf(b), 3))
            && ParseFactor(toks, 4) == Some(Parsed(Leaf(c), 5))
            && TermTail(toks, Leaf(c), 5) == Some(Parsed(Leaf(c), 5))
            && ParseTerm(toks, 4) == Some(Parsed(Leaf(c), 5))
  {
    assert ValidTokens(ThreeOperands(a, o1, b, o2, c));
  }

  lemma LeftGroupsTighter(a: Token, o1: BinOp, b: Token, o2: BinOp, c: Token)
    requires IsOperandToken(a) && IsOperandToken(b) && IsOperandToken(c)
    requires Level(o1) == 2
    ensures ValidTokens(ThreeOperands(a, o1, b, o2, c))
    ensures ParseExpr(ThreeOperands(a, o1, b, o2, c), 0) == Some(Parsed(Binary(o2, Binary(o1, Leaf(a), Leaf(b)), Leaf(c)), 5))
  {
    var toks := ThreeOperands(a, o1, b, o2, c);
    ThreeOperandFactors(a, o1, b, o2, c);
    var (x, y, z) := (Leaf(a), Leaf(b), Leaf(c));
    assert TermTail(toks, x, 1) == TermTail(toks, Binary(o1, x, y), 3);
    if Level(o2) == 2 {
      assert TermTail(toks, Binary(o1, x, y), 3) == TermTail(toks, Binary(o2, Binary(o1, x, y), z), 5);
    } else {
      assert ParseTerm(toks, 0) == Some(Parsed(Binary(o1, x, y), 3));
      assert ExprTail(toks, Binary(o1, x, y), 3) == ExprTail(toks, Binary(o2, Binary(o1, x, y), z), 5);
    }
  }

  lemma RightGroupsTighter(a: Token, o1: BinOp, b: Token, o2: BinOp, c: Token)
    requires IsOperandToken(a) && IsOperandToken(b) && IsOperandToken(c)
    requires Level(o1) == 1 && Level(o2) == 2
    ensures ValidTokens(ThreeOperands(a, o1, b, o2, c))
    ensures ParseExpr(ThreeOperands(a, o1, b, o2, c), 0) == Some(Parsed(Binary(o1, Leaf(a), Binary(o2, Leaf(b), Leaf(c))), 5))
  {
    var toks := ThreeOperands(a, o1, b, o2, c);
    ThreeOperandFactors(a, o1, b, o2, c);
    var (x, y, z) := (Leaf(a), Leaf(b), Leaf(c));
    assert ParseTerm(toks, 0) == Some(Parsed(x, 1));
    assert TermTail(toks, y, 3) == TermTail(toks, Binary(o2, y, z), 5);
    assert ParseTerm(toks, 2) == Some(Parsed(Binary(o2, y, z), 5));
    assert ExprTail(toks, x, 1) == ExprTail(toks, Binary(o1, x, Binary(o2, y, z)), 5);
  }

  lemma SameLevelGroupsLeft(a: Token, o1: BinOp, b: Token, o2: BinOp, c: Token)
    requires IsOperandToken(a) && IsOperandToken(b) && IsOperandToken(c)
    requires Level(o1) == 1 && Level(o2) == 1
    ensures ValidTokens(ThreeOperands(a, o1, b, o2, c))
    ensures ParseExpr(ThreeOperands(a, o1, b, o2, c), 0) == Some(Parsed(Binary(o2, Binary(o1, Leaf(a), Leaf(b)), Leaf(c)), 5))
  {
    var toks := ThreeOperands(a, o1, b, o2, c);
    ThreeOperandFactors(a, o1, b, o2, c);
    var (x, y, z) := (Leaf(a), Leaf(b), Leaf(c));
    assert ParseTerm(toks, 0) == Some(Parsed(x, 1));
    assert ParseTerm(toks, 2) == Some(Parsed(y, 3));
    assert ExprTail(toks, x, 1) == ExprTail(toks, Binary(o1, x, y), 3);
    assert ExprTail(toks, Binary(o1, x, y), 3) == ExprTail(toks, Binary(o2, Binary(o1, x, y), z), 5);
  }

  /** Three operands and two operators: the operator that binds tighter
      groups first, and of two operators that bind alike the left one does. */
  lemma PrecedenceAndAssociativity(a: Token, o1: BinOp, b: Token, o2: BinOp, c: Token)
    requires IsOperandToken(a) && IsOperandToken(b) && IsOperandToken(c)
    ensures ValidTokens(ThreeOperands(a, o1, b, o2, c))
    ensures ParseExpr(ThreeOperands(a, o1, b, o2, c), 0)
         == Some(Parsed(if Level(o1) >= Level(o2) then Binary(o2, Binary(o1, Leaf(a), Leaf(b)), Leaf(c))
                        else Binary(o1, Leaf(a), Binary(o2, Leaf(b), Leaf(c))), 5))
  {
    if Level(o1) == 2 {
      LeftGroupsTighter(a, o1, b, o2, c);
    } else if Level(o2) == 2 {
      RightGroupsTighter(a, o1, b, o2, c);
    } else {
      SameLevelGroupsLeft(a, o1, b, o2, c);
    }
  }

  /** A leading minus sign negates the one factor after it, before any binary
      operator applies. */
  lemma NegationBindsTightest(a: Token, op: BinOp, b: Token)
    requires IsOperandToken(a) && IsOperandToken(b)
    ensures ValidTokens([MinusToken, a, OperatorToken(op), b, EndToken])
    ensures ParseExpr([MinusToken, a, OperatorToken(op), b, EndToken], 0)
         == Some(Parsed(Binary(op, Negate(Leaf(a)), Leaf(b)), 4))
  {
    var toks := [MinusToken, a, OperatorToken(op), b, EndToken];
    assert ValidTokens(toks);
    var (x, y) := (Leaf(a), Leaf(b));
    assert ParseFactor(toks, 1) == Some(Parsed(x, 2));
    assert ParseFactor(toks, 0) == Some(Parsed(Negate(x), 2));
    assert ParseFactor(toks, 3) == Some(Parsed(y, 4));
    assert TermTail(toks, y, 4) == Some(Parsed(y, 4));
    if Level(op) == 2 {
      assert TermTail(toks, Negate(x), 2) == TermTail(toks, Binary(op, Negate(x), y), 4);
    } else {
      assert ParseTerm(toks, 0) == Some(Parsed(Negate(x), 2));
      assert ParseTerm(toks, 3) == Some(Parsed(y, 4));
      assert ExprTail(toks, Negate(x), 2) == ExprTail(toks, Binary(op, Negate(x), y), 4);
    }
  }
}
