/** The first, character-level parser of maths_parser_python/main.py. Its
    scanner appends a NUL sentinel to the input and hands out one character
    at a time, skipping only the blank ' '; its parser follows the same
    grammar as the token parser,

      E -> T { (+|-) T }     T -> F { (*|/) F }     F -> ID | INTEGER | ( E ) | - F

    where ID is a single letter and INTEGER a single digit. The scanner state
    is the index into the sentinel text; every parse function returns its
    tree, or `None`, together with the index where the scanner then stands,
    because `parse` checks that index even when no tree was built. */
module CharParser {
  import opened Results
  import opened Chars
  import opened Numerals
  import opened Ast
  import opened Layout

  /** The scanner's text: the input followed by the NUL sentinel. */
  function Sentinel(s: string): (t: string)
    ensures |t| == |s| + 1 && t[|s|] == '\0' && t[..|s|] == s
  {
    s + "\0"
  }

  /** The recursive blank skip of `scanToken`: only ' ' is passed over. */
  function SkipBlanks(t: string, i: nat): (j: nat)
    ensures i <= j && (i <= |t| ==> j <= |t|)
    decreases |t| - i
  {
    if i < |t| && t[i] == ' ' then SkipBlanks(t, i + 1) else i
  }

  /** Skipping passes over blanks only and stops at the first character
      that is not a blank, or at the end. */
  lemma {:induction false} SkipBlanksStops(t: string, i: nat)
    ensures forall k :: i <= k < SkipBlanks(t, i) ==> t[k] == ' '
    ensures SkipBlanks(t, i) < |t| ==> t[SkipBlanks(t, i)] != ' '
    decreases |t| - i
  {
    if i < |t| && t[i] == ' ' {
      SkipBlanksStops(t, i + 1);
    }
  }

  /** `next`: the character the scanner stands on. Past the end of the text
      the last character scanned, the sentinel, stays in place. */
  function Cur(t: string, q: nat): char {
    if q < |t| then t[q] else '\0'
  }

  /** `scanToken`: step past the current character and the blanks after it. */
  function Advance(t: string, q: nat): (r: nat)
    ensures q < r && (q < |t| ==> r <= |t|)
  {
    SkipBlanks(t, q + 1)
  }

  /** `n` calls of `scanToken` from index `q`. */
  function Scan(t: string, q: nat, n: nat): nat
    decreases n
  {
    if n == 0 then q else Scan(t, Advance(t, q), n - 1)
  }

  /** Once the scanner has reached the sentinel, every further call of
      `scanToken` leaves `next` at NUL. */
  lemma {:induction false} SentinelPersists(s: string, q: nat, n: nat)
    requires q >= |s|
    ensures Cur(Sentinel(s), Scan(Sentinel(s), q, n)) == '\0'
    decreases n
  {
    if n > 0 {
      SentinelPersists(s, Advance(Sentinel(s), q), n - 1);
    }
  }

  /** `is_identifier`: a letter, then letters and digits. The original
      indexes the first character unguarded, so the text must not be
      empty. */
  predicate IsIdentifierString(x: string)
    requires |x| > 0
  {
    IsLetter(x[0]) && forall k :: 1 <= k < |x| ==> IsLetter(x[k]) || AllDigits([x[k]])
  }

  /** `is_integer` is `AllDigits`: every character a digit, so it holds of
      the empty text as well. On the one-character texts the parser asks
      about, the two tests are the letter and digit classes. */
  lemma OneCharacterClasses(c: char)
    ensures IsIdentifierString([c]) <==> IsLetter(c)
    ensures AllDigits([c]) <==> IsDigit(c)
    ensures AllDigits("")
  {
    assert [c][0] == c;
  }

  /** The trees this parser builds: one-character Identifiers and Integers,
      no Float. */
  predicate CharParsable(e: Expr) {
    match e
    case Integer(raw, v) => |raw| == 1 && IsDigit(raw[0]) && v == DecimalValue(raw)
    case Float(_, _) => false
    case Identifier(name) => |name| == 1 && IsLetter(name[0])
    case Binary(_, l, r) => CharParsable(l) && CharParsable(r)
    case Negate(a) => CharParsable(a)
  }

  /** The tree a parse function built, or `None`, and the index of the
      scanner afterwards. */
  datatype Parsed = Parsed(tree: Option<Expr>, next: nat)

  /** The characters a factor can start with. */
  predicate StartsFactor(c: char) {
    IsLetter(c) || IsDigit(c) || c == '(' || c == '-'
  }

  /** `_parseExpr`. */
  function ParseExpr(t: string, q: nat): (r: Parsed)
    requires q <= |t|
    ensures q <= r.next <= |t|
    ensures r.tree.Some? ==> q < r.next && CharParsable(r.tree.value) && StartsFactor(Cur(t, q))
    decreases |t| - q, 3
  {
    var a := ParseTerm(t, q);
    if a.tree.None? then a else ExprTail(t, a.tree.value, a.next)
  }

  /** The loop of `_parseExpr`, with the tree built so far in `acc`. */
  function ExprTail(t: string, acc: Expr, p: nat): (r: Parsed)
    requires p <= |t| && CharParsable(acc)
    ensures p <= r.next <= |t|
    ensures r.tree.Some? ==> CharParsable(r.tree.value)
    decreases |t| - p, 2
  {
    var c := Cur(t, p);
    if c == '+' || c == '-' then
      var b := ParseTerm(t, Advance(t, p));
      if b.tree.None? then b
      else ExprTail(t, Binary(if c == '+' then Add else Subtract, acc, b.tree.value), b.next)
    else
      Parsed(Some(acc), p)
  }

  /** `_parseTerm`. */
  function ParseTerm(t: string, q: nat): (r: Parsed)
    requires q <= |t|
    ensures q <= r.next <= |t|
    ensures r.tree.Some? ==> q < r.next && CharParsable(r.tree.value) && StartsFactor(Cur(t, q))
    decreases |t| - q, 1
  {
    var a := ParseFactor(t, q);
    if a.tree.None? then a else TermTail(t, a.tree.value, a.next)
  }

  /** The loop of `_parseTerm`. */
  function TermTail(t: string, acc: Expr, p: nat): (r: Parsed)
    requires p <= |t| && CharParsable(acc)
    ensures p <= r.next <= |t|
    ensures r.tree.Some? ==> CharParsable(r.tree.value)
    decreases |t| - p, 1
  {
    var c := Cur(t, p);
    if c == '*' || c == '/' then
      var b := ParseFactor(t, Advance(t, p));
      if b.tree.None? then b
      else TermTail(t, Binary(if c == '*' then Mult else Div, acc, b.tree.value), b.next)
    else
      Parsed(Some(acc), p)
  }

  /** `_parseFactor`: a letter or a digit is a whole factor; a bracketed
      expression must be closed; a minus sign negates the one factor after
      it. On failure the scanner stays where the failing test looked. */
  function ParseFactor(t: string, q: nat): (r: Parsed)
    requires q <= |t|
    ensures q <= r.next <= |t|
    ensures r.tree.Some? ==> q < r.next && CharParsable(r.tree.value) && StartsFactor(Cur(t, q))
    decreases |t| - q, 0
  {
    var c := Cur(t, q);
    OneCharacterClasses(c);
    if IsIdentifierString([c]) then
      Parsed(Some(Identifier([c])), Advance(t, q))
    else if AllDigits([c]) then
      Parsed(Some(IntegerOfText([c])), Advance(t, q))
    else if c == '(' then
      var a := ParseExpr(t, Advance(t, q));
      if a.tree.None? then a
      else if Cur(t, a.next) == ')' then Parsed(a.tree, Advance(t, a.next))
      else Parsed(None, a.next)
    else if c == '-' then
      var a := ParseFactor(t, Advance(t, q));
      if a.tree.None? then a else Parsed(Some(Negate(a.tree.value)), a.next)
    else
      Parsed(None, q)
  }

  /** The failed `assert` of `parse`: the character the scanner stood on
      instead of the sentinel. */
  datatype ParseError = Leftover(found: char)

  /** `Parser.parse(Lexer(s))`. A parse that builds no tree still succeeds,
      with `None`, when the scanner has reached the end. */
  function Parse(s: string): (r: Result<Option<Expr>, ParseError>)
    ensures r.Ok? && r.value.Some? ==> CharParsable(r.value.value)
    ensures r.Err? ==> r.error.found != '\0' && r.error.found in s
  {
    var t := Sentinel(s);
    var a := ParseExpr(t, SkipBlanks(t, 0));
    if Cur(t, a.next) == '\0' then Ok(a.tree) else Err(Leftover(Cur(t, a.next)))
  }

  // The round trip: rendering a tree this parser can build and parsing the
  // text gives the tree back.

  /** A rendering never starts with a blank. */
  lemma RenderStart(e: Expr)
    requires CharParsable(e)
    ensures |Render(e)| >= 1 && Render(e)[0] != ' ' && Render(e)[0] != '\0'
  {
  }

  /** Skipping from a character that is not a blank stays put. */
  lemma NoBlank(t: string, i: nat)
    requires i < |t| && t[i] != ' '
    ensures SkipBlanks(t, i) == i
  {
  }

  /** Skipping from a single blank lands just after it. */
  lemma OneBlank(t: string, i: nat)
    requires i + 1 < |t| && t[i] == ' ' && t[i + 1] != ' '
    ensures SkipBlanks(t, i) == i + 1
  {
  }

  /** The first character of a rendering that occurs in `t`. */
  lemma RenderedStart(t: string, q: nat, e: Expr)
    requires CharParsable(e) && Occurs(t, q, Render(e))
    ensures q < |t| && t[q] == Render(e)[0] && t[q] != ' '
  {
    RenderStart(e);
  }

  /** A factor not followed by `*` or `/` is the whole term. */
  lemma TermStops(t: string, q: nat, f: Parsed)
    requires q <= |t| && ParseFactor(t, q) == f && f.tree.Some?
    requires Cur(t, f.next) != '*' && Cur(t, f.next) != '/'
    ensures ParseTerm(t, q) == f
  {
  }

  /** A term not followed by `+` or `-` is the whole expression. */
  lemma ExprStops(t: string, q: nat, a: Parsed)
    requires q <= |t| && ParseTerm(t, q) == a && a.tree.Some?
    requires Cur(t, a.next) != '+' && Cur(t, a.next) != '-'
    ensures ParseExpr(t, q) == a
  {
  }

  /** A bracketed expression is a factor. */
  lemma Bracketed(t: string, q: nat, inner: Parsed)
    requires q < |t| && t[q] == '(' && ParseExpr(t, Advance(t, q)) == inner && inner.tree.Some?
    requires inner.next < |t| && t[inner.next] == ')'
    ensures ParseFactor(t, q) == Parsed(inner.tree, Advance(t, inner.next))
  {
  }

  /** `l * r` or `l / r`: one turn of the `_parseTerm` loop, stopping at a
      closing bracket. */
  lemma MultiplicativeInside(t: string, q: nat, e: Expr, p: nat, m: nat)
    requires q <= p < |t| && e.Binary? && (e.op == Mult || e.op == Div) && t[p] == Symbol(e.op)
    requires ParseFactor(t, q) == Parsed(Some(e.left), p)
    requires ParseFactor(t, Advance(t, p)) == Parsed(Some(e.right), m)
    requires m < |t| && t[m] == ')'
    ensures ParseTerm(t, q) == Parsed(Some(e), m)
  {
    assert TermTail(t, e, m) == Parsed(Some(e), m);
  }

  /** `l + r` or `l - r`: one turn of the `_parseExpr` loop, stopping at a
      closing bracket. */
  lemma AdditiveInside(t: string, q: nat, e: Expr, p: nat, m: nat)
    requires q <= p < |t| && e.Binary? && (e.op == Add || e.op == Subtract) && t[p] == Symbol(e.op)
    requires ParseTerm(t, q) == Parsed(Some(e.left), p)
    requires ParseTerm(t, Advance(t, p)) == Parsed(Some(e.right), m)
    requires m < |t| && t[m] == ')'
    ensures ParseExpr(t, q) == Parsed(Some(e), m)
  {
    AdditiveTurn(t, e, p, m);
    assert ParseExpr(t, q) == ExprTail(t, e.left, p);
  }

  lemma AdditiveTurn(t: string, e: Expr, p: nat, m: nat)
    requires p < |t| && e.Binary? && CharParsable(e) && (e.op == Add || e.op == Subtract)
    requires t[p] == Symbol(e.op)
    requires ParseTerm(t, Advance(t, p)) == Parsed(Some(e.right), m)
    requires m < |t| && t[m] == ')'
    ensures ExprTail(t, e.left, p) == Parsed(Some(e), m)
  {
    assert ExprTail(t, e, m) == Parsed(Some(e), m);
  }

  /** The inside of a binary node's brackets parses as that node. */
  lemma BinaryInside(t: string, q: nat, e: Expr, p: nat, m: nat)
    requires q <= p < |t| && e.Binary? && CharParsable(e) && t[p] == Symbol(e.op)
    requires ParseFactor(t, q) == Parsed(Some(e.left), p)
    requires ParseFactor(t, Advance(t, p)) == Parsed(Some(e.right), m)
    requires m < |t| && t[m] == ')'
    ensures ParseExpr(t, q) == Parsed(Some(e), m)
  {
    if e.op == Mult || e.op == Div {
      MultiplicativeInside(t, q, e, p, m);
      ExprStops(t, q, Parsed(Some(e), m));
    } else {
      TermStops(t, q, Parsed(Some(e.left), p));
      TermStops(t, Advance(t, p), Parsed(Some(e.right), m));
      AdditiveInside(t, q, e, p, m);
    }
  }

  /** Wherever the rendering of a tree this parser can build appears,
      `_parseFactor` reads exactly that tree back, and leaves the scanner
      past the rendering and the blanks after it. */
  lemma {:induction false} FactorOfRender(t: string, q: nat, e: Expr, end: nat)
    requires CharParsable(e) && Occurs(t, q, Render(e)) && end == q + |Render(e)|
    ensures ParseFactor(t, q) == Parsed(Some(e), SkipBlanks(t, end))
    decreases e, 1
  {
    match e
    case Integer(_, _) => LeafOfRender(t, q, e, end);
    case Identifier(_) => LeafOfRender(t, q, e, end);
    case Float(_, _) => assert false;
    case Binary(_, _, _) => BinaryOfRender(t, q, e, end);
    case Negate(_) => NegateOfRender(t, q, e, end);
  }

  lemma LeafOfRender(t: string, q: nat, e: Expr, end: nat)
    requires CharParsable(e) && (e.Integer? || e.Identifier?)
    requires Occurs(t, q, Render(e)) && end == q + |Render(e)|
    ensures ParseFactor(t, q) == Parsed(Some(e), SkipBlanks(t, end))
  {
    var c := t[q];
    assert c == Render(e)[0];
    assert Render(e) == [c];
    OneCharacterClasses(c);
  }

  lemma {:induction false} BinaryOfRender(t: string, q: nat, e: Expr, end: nat)
    requires CharParsable(e) && e.Binary?
    requires Occurs(t, q, Render(e)) && end == q + |Render(e)|
    ensures ParseFactor(t, q) == Parsed(Some(e), SkipBlanks(t, end))
    decreases e, 0
  {
    var p := q + 1 + |Render(e.left)|;
    var m := p + 3 + |Render(e.right)|;
    BinaryLayout(t, q, e, p, m);
    FactorOfRender(t, q + 1, e.left, p);
    FactorOfRender(t, p + 3, e.right, m);
    BinarySpacing(t, q, e, p, m);
    BinaryAssembled(t, q, e, p + 1, m, end);
  }

  /** The blanks of a rendered binary node are skipped where the parser
      expects them. */
  lemma BinarySpacing(t: string, q: nat, e: Expr, p: nat, m: nat)
    requires CharParsable(e) && e.Binary?
    requires q < p && p + 3 <= m < |t|
    requires t[q] == '(' && t[p] == ' ' && t[p + 1] == Symbol(e.op) && t[p + 2] == ' ' && t[m] == ')'
    requires Occurs(t, q + 1, Render(e.left)) && Occurs(t, p + 3, Render(e.right))
    ensures Advance(t, q) == q + 1 && SkipBlanks(t, p) == p + 1
    ensures Advance(t, p + 1) == p + 3 && SkipBlanks(t, m) == m
  {
    RenderedStart(t, q + 1, e.left);
    RenderedStart(t, p + 3, e.right);
    NoBlank(t, q + 1);
    OneBlank(t, p);
    OneBlank(t, p + 2);
    NoBlank(t, m);
  }

  /** The bracketed operands and operator of a binary node make a factor. */
  lemma BinaryAssembled(t: string, q: nat, e: Expr, p: nat, m: nat, end: nat)
    requires CharParsable(e) && e.Binary? && q < p < m < |t| && end == m + 1
    requires t[q] == '(' && t[p] == Symbol(e.op) && t[m] == ')'
    requires ParseFactor(t, Advance(t, q)) == Parsed(Some(e.left), p)
    requires ParseFactor(t, Advance(t, p)) == Parsed(Some(e.right), m)
    ensures ParseFactor(t, q) == Parsed(Some(e), SkipBlanks(t, end))
  {
    BinaryInside(t, Advance(t, q), e, p, m);
    Bracketed(t, q, Parsed(Some(e), m));
  }

  lemma {:induction false} NegateOfRender(t: string, q: nat, e: Expr, end: nat)
    requires CharParsable(e) && e.Negate?
    requires Occurs(t, q, Render(e)) && end == q + |Render(e)|
    ensures ParseFactor(t, q) == Parsed(Some(e), SkipBlanks(t, end))
    decreases e, 0
  {
    var m := q + 2 + |Render(e.arg)|;
    NegateLayout(t, q, e, m);
    FactorOfRender(t, q + 2, e.arg, m);
    RenderedStart(t, q + 2, e.arg);
    NoBlank(t, q + 1);
    NoBlank(t, q + 2);
    NoBlank(t, m);
    NegateAssembled(t, q, e, m, end);
  }

  /** The bracketed minus sign and operand of a negation make a factor. */
  lemma NegateAssembled(t: string, q: nat, e: Expr, m: nat, end: nat)
    requires CharParsable(e) && e.Negate? && q + 2 <= m < |t| && end == m + 1
    requires t[q] == '(' && t[q + 1] == '-' && t[m] == ')'
    requires Advance(t, q) == q + 1 && Advance(t, q + 1) == q + 2
    requires ParseFactor(t, q + 2) == Parsed(Some(e.arg), m)
    ensures ParseFactor(t, q) == Parsed(Some(e), SkipBlanks(t, end))
  {
    assert ParseFactor(t, q + 1) == Parsed(Some(e), m);
    TermStops(t, q + 1, Parsed(Some(e), m));
    ExprStops(t, q + 1, Parsed(Some(e), m));
    Bracketed(t, q, Parsed(Some(e), m));
  }

  /** Rendering is a right inverse of this parser too: a tree of
      one-character leaves is parsed back from its own text. */
  lemma ParseOfRender(e: Expr)
    requires CharParsable(e)
    ensures Parse(Render(e)) == Ok(Some(e))
  {
    var s := Render(e);
    var t := Sentinel(s);
    var n := |s|;
    assert Occurs(t, 0, s) by {
      assert forall k :: 0 <= k < n ==> t[k] == t[..n][k];
    }
    RenderedStart(t, 0, e);
    NoBlank(t, 0);
    FactorOfRender(t, 0, e, n);
    NoBlank(t, n);
    TermStops(t, 0, Parsed(Some(e), n));
    ExprStops(t, 0, Parsed(Some(e), n));
  }

  // Soundness: a tree the parser builds holds exactly the letters, digits
  // and operator characters it read, in order.

  /** The characters of a tree's leaves and operators, in source order,
      with a negation as its minus sign. */
  function CharFlat(e: Expr): string {
    match e
    case Integer(raw, _) => raw
    case Float(raw, _) => raw
    case Identifier(name) => name
    case Binary(op, l, r) => CharFlat(l) + [Symbol(op)] + CharFlat(r)
    case Negate(a) => "-" + CharFlat(a)
  }

  /** The characters the parser reads but builds nothing from: the blank
      and the brackets. */
  predicate IsLayout(c: char) {
    c == ' ' || c == '(' || c == ')'
  }

  /** A text with its blanks and brackets dropped. */
  function Strip(x: string): string {
    if |x| == 0 then ""
    else (if IsLayout(x[0]) then "" else [x[0]]) + Strip(x[1..])
  }

  lemma {:induction false} StripConcat(a: string, b: string)
    ensures Strip(a + b) == Strip(a) + Strip(b)
  {
    if |a| == 0 {
      assert a + b == b;
    } else {
      assert (a + b)[1..] == a[1..] + b;
      StripConcat(a[1..], b);
    }
  }

  /** `Strip` over adjacent slices. */
  lemma StripSplit(t: string, i: nat, j: nat, k: nat)
    requires i <= j <= k <= |t|
    ensures Strip(t[i..k]) == Strip(t[i..j]) + Strip(t[j..k])
  {
    assert t[i..k] == t[i..j] + t[j..k];
    StripConcat(t[i..j], t[j..k]);
  }

  /** The blanks `SkipBlanks` passes over strip to nothing. */
  lemma {:induction false} SkippedStrip(t: string, i: nat)
    requires i <= |t|
    ensures Strip(t[i..SkipBlanks(t, i)]) == ""
    decreases |t| - i
  {
    if i < |t| && t[i] == ' ' {
      SkippedStrip(t, i + 1);
      assert t[i..SkipBlanks(t, i)][1..] == t[i + 1..SkipBlanks(t, i + 1)];
    } else {
      assert t[i..i] == "";
    }
  }

  /** `scanToken` from a character: what it passes over strips to that
      character alone, or to nothing when the character is a bracket. */
  lemma AdvanceStrip(t: string, q: nat)
    requires q < |t|
    ensures Strip(t[q..Advance(t, q)]) == Strip([t[q]])
  {
    SkippedStrip(t, q + 1);
    StripSplit(t, q, q + 1, Advance(t, q));
    assert t[q..q + 1] == [t[q]];
  }

  /** Every slice a parse function consumes strips to the flattening of the
      tree it builds. */
  lemma {:induction false} ExprKeepsCharacters(t: string, q: nat, r: Parsed)
    requires q <= |t| && ParseExpr(t, q) == r && r.tree.Some?
    ensures CharFlat(r.tree.value) == Strip(t[q..r.next])
    decreases |t| - q, 4
  {
    var a := ParseTerm(t, q);
    TermKeepsCharacters(t, q, a);
    ExprTailKeepsCharacters(t, a.tree.value, a.next, r);
    StripSplit(t, q, a.next, r.next);
  }

  lemma {:induction false} ExprTailKeepsCharacters(t: string, acc: Expr, p: nat, r: Parsed)
    requires p <= |t| && CharParsable(acc) && ExprTail(t, acc, p) == r && r.tree.Some?
    ensures CharFlat(r.tree.value) == CharFlat(acc) + Strip(t[p..r.next])
    decreases |t| - p, 3
  {
    var c := Cur(t, p);
    if c == '+' || c == '-' {
      var op := if c == '+' then Add else Subtract;
      var b := ParseTerm(t, Advance(t, p));
      ExprTurnKeepsCharacters(t, acc, p, op, b, r);
    } else {
      assert t[p..p] == "";
    }
  }

  lemma {:induction false} ExprTurnKeepsCharacters(t: string, acc: Expr, p: nat, op: BinOp, b: Parsed, r: Parsed)
    requires p < |t| && t[p] == Symbol(op) && (op == Add || op == Subtract) && CharParsable(acc)
    requires ParseTerm(t, Advance(t, p)) == b && b.tree.Some?
    requires ExprTail(t, Binary(op, acc, b.tree.value), b.next) == r && r.tree.Some?
    ensures CharFlat(r.tree.value) == CharFlat(acc) + Strip(t[p..r.next])
    decreases |t| - p, 2
  {
    TermKeepsCharacters(t, Advance(t, p), b);
    ExprTailKeepsCharacters(t, Binary(op, acc, b.tree.value), b.next, r);
    OperatorTurnStrip(t, p, Advance(t, p), b.next, r.next);
    Folded(CharFlat(r.tree.value), CharFlat(acc), op, CharFlat(b.tree.value), Strip(t[b.next..r.next]), Strip(t[p..r.next]));
  }

  lemma {:induction false} TermKeepsCharacters(t: string, q: nat, r: Parsed)
    requires q <= |t| && ParseTerm(t, q) == r && r.tree.Some?
    ensures CharFlat(r.tree.value) == Strip(t[q..r.next])
    decreases |t| - q, 3
  {
    var a := ParseFactor(t, q);
    FactorKeepsCharacters(t, q, a);
    TermTailKeepsCharacters(t, a.tree.value, a.next, r);
    StripSplit(t, q, a.next, r.next);
  }

  lemma {:induction false} TermTailKeepsCharacters(t: string, acc: Expr, p: nat, r: Parsed)
    requires p <= |t| && CharParsable(acc) && TermTail(t, acc, p) == r && r.tree.Some?
    ensures CharFlat(r.tree.value) == CharFlat(acc) + Strip(t[p..r.next])
    decreases |t| - p, 2
  {
    var c := Cur(t, p);
    if c == '*' || c == '/' {
      var op := if c == '*' then Mult else Div;
      var b := ParseFactor(t, Advance(t, p));
      TermTurnKeepsCharacters(t, acc, p, op, b, r);
    } else {
      assert t[p..p] == "";
    }
  }

  lemma {:induction false} TermTurnKeepsCharacters(t: string, acc: Expr, p: nat, op: BinOp, b: Parsed, r: Parsed)
    requires p < |t| && t[p] == Symbol(op) && (op == Mult || op == Div) && CharParsable(acc)
    requires ParseFactor(t, Advance(t, p)) == b && b.tree.Some?
    requires TermTail(t, Binary(op, acc, b.tree.value), b.next) == r && r.tree.Some?
    ensures CharFlat(r.tree.value) == CharFlat(acc) + Strip(t[p..r.next])
    decreases |t| - p, 1
  {
    FactorKeepsCharacters(t, Advance(t, p), b);
    TermTailKeepsCharacters(t, Binary(op, acc, b.tree.value), b.next, r);
    OperatorTurnStrip(t, p, Advance(t, p), b.next, r.next);
    Folded(CharFlat(r.tree.value), CharFlat(acc), op, CharFlat(b.tree.value), Strip(t[b.next..r.next]), Strip(t[p..r.next]));
  }

  /** The bookkeeping of one loop turn: the operator character, the blanks
      after it, the operand's characters, then the rest of the loop. */
  lemma OperatorTurnStrip(t: string, p: nat, q: nat, m: nat, n: nat)
    requires p < |t| && q == Advance(t, p) && q <= m <= n <= |t| && !IsLayout(t[p])
    ensures Strip(t[p..n]) == [t[p]] + Strip(t[q..m]) + Strip(t[m..n])
  {
    AdvanceStrip(t, p);
    StripSplit(t, p, q, n);
    StripSplit(t, q, m, n);
    assert Strip([t[p]]) == [t[p]];
  }

  /** Regrouping the pieces of one loop turn. */
  lemma Folded(whole: string, acc: string, op: BinOp, operand: string, rest: string, consumed: string)
    requires whole == acc + [Symbol(op)] + operand + rest
    requires consumed == [Symbol(op)] + operand + rest
    ensures whole == acc + consumed
  {
  }

  lemma {:induction false} FactorKeepsCharacters(t: string, q: nat, r: Parsed)
    requires q <= |t| && ParseFactor(t, q) == r && r.tree.Some?
    ensures CharFlat(r.tree.value) == Strip(t[q..r.next])
    decreases |t| - q, 1
  {
    var c := Cur(t, q);
    OneCharacterClasses(c);
    if IsLetter(c) || IsDigit(c) {
      AdvanceStrip(t, q);
      assert Strip([c]) == [c];
    } else if c == '(' {
      BracketKeepsCharacters(t, q, ParseExpr(t, Advance(t, q)));
    } else {
      var a := ParseFactor(t, Advance(t, q));
      FactorKeepsCharacters(t, Advance(t, q), a);
      OperatorTurnStrip(t, q, Advance(t, q), a.next, a.next);
      assert t[a.next..a.next] == "";
    }
  }

  /** The bracketed case of `_parseFactor`. */
  lemma {:induction false} BracketKeepsCharacters(t: string, q: nat, a: Parsed)
    requires q < |t| && t[q] == '(' && ParseExpr(t, Advance(t, q)) == a && a.tree.Some?
    requires Cur(t, a.next) == ')'
    ensures a.next < |t| && CharFlat(a.tree.value) == Strip(t[q..Advance(t, a.next)])
    decreases |t| - q, 0
  {
    ExprKeepsCharacters(t, Advance(t, q), a);
    AdvanceStrip(t, q);
    AdvanceStrip(t, a.next);
    StripSplit(t, q, Advance(t, q), a.next);
    StripSplit(t, q, a.next, Advance(t, a.next));
  }

  /** The input up to its first NUL: the sentinel ends the parse, and so
      does a NUL inside the input. */
  function UpToNul(s: string): (r: string)
    ensures '\0' !in r
  {
    if |s| == 0 || s[0] == '\0' then "" else [s[0]] + UpToNul(s[1..])
  }

  /** A prefix without NUL that stops at a NUL or at the end is `UpToNul`. */
  lemma {:induction false} UpToNulAt(s: string, n: nat)
    requires n <= |s| && '\0' !in s[..n] && (n == |s| || s[n] == '\0')
    ensures UpToNul(s) == s[..n]
  {
    if n > 0 {
      assert s[0] == s[..n][0];
      assert s[1..][..n - 1] == s[..n][1..];
      UpToNulAt(s[1..], n - 1);
    }
  }

  /** The leaves and operators of a tree this parser builds hold no NUL. */
  lemma {:induction false} FlatHasNoNul(e: Expr)
    requires CharParsable(e)
    ensures '\0' !in CharFlat(e)
  {
    match e
    case Binary(_, l, r) =>
      FlatHasNoNul(l);
      FlatHasNoNul(r);
    case Negate(a) =>
      FlatHasNoNul(a);
    case _ =>
  }

  /** `Strip` never drops a NUL. */
  lemma {:induction false} StripKeepsNul(x: string)
    requires '\0' !in Strip(x)
    ensures '\0' !in x
  {
    if |x| > 0 {
      StripKeepsNul(x[1..]);
      assert x == [x[0]] + x[1..];
    }
  }

  /** A tree `parse` returns holds exactly the letters, digits and operator
      characters of the input before its first NUL, in order: only blanks
      and brackets are read without a trace in the tree. */
  lemma ParseKeepsCharacters(s: string)
    requires Parse(s).Ok? && Parse(s).value.Some?
    ensures CharFlat(Parse(s).value.value) == Strip(UpToNul(s))
  {
    var t := Sentinel(s);
    var q := SkipBlanks(t, 0);
    var a := ParseExpr(t, q);
    var n := a.next;
    ExprKeepsCharacters(t, q, a);
    SkippedStrip(t, 0);
    StripSplit(t, 0, q, n);
    FlatHasNoNul(a.tree.value);
    StripKeepsNul(t[0..n]);
    StopsAtFirstNul(s, t, n);
  }

  /** A scan of the sentinel text that has met no NUL and stands on one
      has read exactly the input before its first NUL. */
  lemma StopsAtFirstNul(s: string, t: string, n: nat)
    requires |t| == |s| + 1 && t[..|s|] == s && t[|s|] == '\0'
    requires n <= |t| && '\0' !in t[0..n] && Cur(t, n) == '\0'
    ensures n <= |s| && t[0..n] == UpToNul(s)
  {
    if n == |t| {
      assert false;
    }
    assert t[0..n] == s[..n];
    UpToNulAt(s, n);
  }
}
