/** The constant-folding `simplify` of src/nodetypes.py: children are
    simplified first (left, then right); a node whose simplified children are
    all literals is replaced by one literal holding the operator's value, an
    Integer when the operation stays in the integers and a Float otherwise.
    The original tree is a value and is never changed. */
module Simplifier {
  import opened Results
  import opened Numerals
  import opened Ast

  /** Integer products carried over to the reals evaluation works in. */
  lemma {:induction false} MultAsRealNat(a: int, b: nat)
    ensures (a * b) as real == a as real * b as real
  {
    if b > 0 {
      MultAsRealNat(a, b - 1);
      assert a * b == a * (b - 1) + a;
      assert a as real * b as real == a as real * (b - 1) as real + a as real;
    }
  }

  lemma MultAsReal(a: int, b: int)
    ensures (a * b) as real == a as real * b as real
  {
    if b >= 0 {
      MultAsRealNat(a, b);
    } else {
      MultAsRealNat(a, -b);
      assert a * b == -(a * -b);
    }
  }

  /** An exact integer quotient is the real quotient. */
  lemma ExactQuotientAsReal(a: int, b: int)
    requires b != 0 && a % b == 0
    ensures (a / b) as real == a as real / b as real
  {
    var q := a / b;
    assert a == q * b;
    MultAsReal(q, b);
  }

  /** A binary node over two literals, folded. Integer operands give an
      Integer for `+ - *`, and for `/` only when the quotient is exact (the
      `%` test, which divides in Python's sense: `a % b == 0` exactly when `b`
      divides `a`); every other pair gives a Float. A zero divisor fails,
      either at the `%` test or at the division itself. */
  function Fold(op: BinOp, l: Expr, r: Expr, fmt: FloatFormat): (res: Result<Expr, EvalError>)
    requires IsLiteral(l) && IsLiteral(r)
    ensures res.Err? <==> op == Div && LiteralValue(r) == 0.0
    ensures res.Err? ==> res.error == DivisionByZero
    ensures res.Ok? ==> IsLiteral(res.value)
    ensures res.Ok? ==> Apply(op, LiteralValue(l), LiteralValue(r)) == Ok(LiteralValue(res.value))
    ensures res.Ok? ==>
      (res.value.Integer? <==> l.Integer? && r.Integer? && (op == Div ==> l.value % r.value == 0))
    ensures res.Ok? && res.value.Integer? ==> Consistent(res.value)
  {
    if l.Integer? && r.Integer? then
      FoldIntegers(op, l.value, r.value, fmt)
    else
      var v :- Apply(op, LiteralValue(l), LiteralValue(r));
      Ok(FloatOfValue(v, fmt))
  }

  /** The both-Integer branch of `Fold`. */
  function FoldIntegers(op: BinOp, a: int, b: int, fmt: FloatFormat): (res: Result<Expr, EvalError>)
    ensures res.Err? <==> op == Div && b == 0
    ensures res.Err? ==> res.error == DivisionByZero
    ensures res.Ok? ==> IsLiteral(res.value)
    ensures res.Ok? ==> Apply(op, a as real, b as real) == Ok(LiteralValue(res.value))
    ensures res.Ok? ==> (res.value.Integer? <==> (op == Div ==> a % b == 0))
    ensures res.Ok? && res.value.Integer? ==> Consistent(res.value)
  {
    match op
    case Add => Ok(IntegerOfValue(a + b))
    case Subtract => Ok(IntegerOfValue(a - b))
    case Mult =>
      MultAsReal(a, b);
      Ok(IntegerOfValue(a * b))
    case Div =>
      if b == 0 then Err(DivisionByZero)
      else if a % b == 0 then
        ExactQuotientAsReal(a, b);
        Ok(IntegerOfValue(a / b))
      else Ok(FloatOfValue(a as real / b as real, fmt))
  }

  /** Negation over a simplified argument: an Integer gives the Integer of
      the negated value (so a folded `-4` renders without parentheses), a
      Float gives a Float, and anything else stays a negation. */
  function FoldNegate(a: Expr, fmt: FloatFormat): (r: Expr)
    ensures IsLiteral(a) ==> IsLiteral(r) && LiteralValue(r) == -LiteralValue(a)
    ensures r.Integer? <==> a.Integer?
    ensures r.Integer? ==> Consistent(r)
    ensures !IsLiteral(a) ==> r == Negate(a)
  {
    if a.Integer? then IntegerOfValue(-a.value)
    else if a.Float? then FloatOfValue(-a.number, fmt)
    else Negate(a)
  }

  /** A tree with nothing left to fold: no operator node has only literal
      children. */
  predicate Folded(e: Expr) {
    match e
    case Binary(_, l, r) => !(IsLiteral(l) && IsLiteral(r)) && Folded(l) && Folded(r)
    case Negate(a) => !IsLiteral(a) && Folded(a)
    case _ => true
  }

  /** `simplify()`. Literals and identifiers are returned as they are (the
      default `TreeNode.simplify`); negation of an Integer gives an Integer
      and of a Float a Float. The result mentions the same names as the input
      and has nothing left to fold; the only failure is a zero divisor met
      while folding. */
  function Simplify(e: Expr, fmt: FloatFormat): (r: Result<Expr, EvalError>)
    ensures r.Err? ==> r.error == DivisionByZero
    ensures r.Ok? ==> Idents(r.value) == Idents(e)
    ensures r.Ok? ==> Folded(r.value)
  {
    match e
    case Binary(op, l, r) =>
      var l' :- Simplify(l, fmt);
      var r' :- Simplify(r, fmt);
      if IsLiteral(l') && IsLiteral(r') then Fold(op, l', r', fmt) else Ok(Binary(op, l', r'))
    case Negate(a) =>
      var a' :- Simplify(a, fmt);
      Ok(FoldNegate(a', fmt))
    case _ => Ok(e)
  }

  /** Folding never changes what a tree evaluates to, in any environment,
      failures included. */
  lemma {:induction false} SimplifyPreservesEval(e: Expr, fmt: FloatFormat, env: Env)
    requires Simplify(e, fmt).Ok?
    ensures Eval(Simplify(e, fmt).value, env) == Eval(e, env)
  {
    match e
    case Binary(op, l, r) =>
      assert Simplify(l, fmt).Ok? && Simplify(r, fmt).Ok?;
      SimplifyPreservesEval(l, fmt, env);
      SimplifyPreservesEval(r, fmt, env);
      BinaryStepPreservesEval(op, l, r, fmt, env);
    case Negate(a) =>
      assert Simplify(a, fmt).Ok?;
      SimplifyPreservesEval(a, fmt, env);
      var a' := Simplify(a, fmt).value;
      FoldNegatePreservesEval(a', fmt, env);
      EvalCongruence(a', a', a, a, Add, env);
    case _ =>
  }

  lemma BinaryStepPreservesEval(op: BinOp, l: Expr, r: Expr, fmt: FloatFormat, env: Env)
    requires Simplify(l, fmt).Ok? && Simplify(r, fmt).Ok?
    requires Eval(Simplify(l, fmt).value, env) == Eval(l, env)
    requires Eval(Simplify(r, fmt).value, env) == Eval(r, env)
    requires Simplify(Binary(op, l, r), fmt).Ok?
    ensures Eval(Simplify(Binary(op, l, r), fmt).value, env) == Eval(Binary(op, l, r), env)
  {
    var l', r' := Simplify(l, fmt).value, Simplify(r, fmt).value;
    EvalCongruence(l', r', l, r, op, env);
    if IsLiteral(l') && IsLiteral(r') {
      FoldPreservesEval(op, l', r', fmt, env);
    }
  }

  lemma FoldNegatePreservesEval(a: Expr, fmt: FloatFormat, env: Env)
    ensures Eval(FoldNegate(a, fmt), env) == Eval(Negate(a), env)
  {
    if IsLiteral(a) {
      LiteralEval(a, env);
      LiteralEval(FoldNegate(a, fmt), env);
    }
  }

  lemma FoldPreservesEval(op: BinOp, l: Expr, r: Expr, fmt: FloatFormat, env: Env)
    requires IsLiteral(l) && IsLiteral(r)
    requires Fold(op, l, r, fmt).Ok?
    ensures Eval(Fold(op, l, r, fmt).value, env) == Eval(Binary(op, l, r), env)
  {
    LiteralEval(l, env);
    LiteralEval(r, env);
    LiteralEval(Fold(op, l, r, fmt).value, env);
  }

  /** Simplification fails only on trees whose evaluation fails in every
      environment. */
  lemma {:induction false} SimplifyFailsOnlyWhereEvalFails(e: Expr, fmt: FloatFormat, env: Env)
    requires Simplify(e, fmt).Err?
    ensures Eval(e, env).Err?
  {
    match e
    case Binary(op, l, r) =>
      if Simplify(l, fmt).Err? {
        SimplifyFailsOnlyWhereEvalFails(l, fmt, env);
      } else if Simplify(r, fmt).Err? {
        SimplifyFailsOnlyWhereEvalFails(r, fmt, env);
      } else {
        SimplifyPreservesEval(l, fmt, env);
        SimplifyPreservesEval(r, fmt, env);
        LiteralEval(Simplify(l, fmt).value, env);
        LiteralEval(Simplify(r, fmt).value, env);
      }
    case Negate(a) =>
      SimplifyFailsOnlyWhereEvalFails(a, fmt, env);
    case _ =>
  }

  /** A tree with nothing left to fold simplifies to itself. */
  lemma {:induction false} FoldedIsFixed(e: Expr, fmt: FloatFormat)
    requires Folded(e)
    ensures Simplify(e, fmt) == Ok(e)
  {
    match e
    case Binary(_, l, r) =>
      FoldedIsFixed(l, fmt);
      FoldedIsFixed(r, fmt);
    case Negate(a) =>
      FoldedIsFixed(a, fmt);
    case _ =>
  }

  /** Simplifying twice is simplifying once. */
  lemma SimplifyIsIdempotent(e: Expr, fmt: FloatFormat)
    requires Simplify(e, fmt).Ok?
    ensures Simplify(Simplify(e, fmt).value, fmt) == Simplify(e, fmt)
  {
    FoldedIsFixed(Simplify(e, fmt).value, fmt);
  }

  /** A folded tree that mentions no name is a single literal. */
  lemma {:induction false} FoldedClosedIsLiteral(e: Expr)
    requires Folded(e) && Idents(e) == {}
    ensures IsLiteral(e)
  {
    match e
    case Binary(_, l, r) =>
      FoldedClosedIsLiteral(l);
      FoldedClosedIsLiteral(r);
    case Negate(a) =>
      FoldedClosedIsLiteral(a);
    case _ =>
  }

  /** A tree without names folds all the way down: simplification succeeds
      exactly when evaluation does, and then yields one literal holding the
      tree's value. */
  lemma ClosedTreeFolds(e: Expr, fmt: FloatFormat, env: Env)
    requires Idents(e) == {}
    ensures Simplify(e, fmt).Ok? <==> Eval(e, env).Ok?
    ensures Simplify(e, fmt).Ok? ==>
      IsLiteral(Simplify(e, fmt).value) && Eval(e, env) == Ok(LiteralValue(Simplify(e, fmt).value))
  {
    if Simplify(e, fmt).Ok? {
      var s := Simplify(e, fmt).value;
      FoldedClosedIsLiteral(s);
      SimplifyPreservesEval(e, fmt, env);
      LiteralEval(s, env);
    } else {
      SimplifyFailsOnlyWhereEvalFails(e, fmt, env);
    }
  }

  /** Trees built from Integers with `+`, `-`, `*` and negation. */
  predicate IntegerTree(e: Expr) {
    match e
    case Integer(_, _) => true
    case Binary(op, l, r) => op != Div && IntegerTree(l) && IntegerTree(r)
    case Negate(a) => IntegerTree(a)
    case _ => false
  }

  /** Such a tree simplifies to a single Integer whose value is the tree's
      value, and simplifying that Integer again changes nothing. */
  lemma {:induction false} IntegerTreeFoldsToInteger(e: Expr, fmt: FloatFormat, env: Env)
    requires IntegerTree(e)
    ensures Simplify(e, fmt).Ok? && Simplify(e, fmt).value.Integer?
    ensures Eval(e, env) == Ok(Simplify(e, fmt).value.value as real)
    ensures Simplify(Simplify(e, fmt).value, fmt) == Simplify(e, fmt)
  {
    match e
    case Binary(op, l, r) =>
      IntegerTreeFoldsToInteger(l, fmt, env);
      IntegerTreeFoldsToInteger(r, fmt, env);
      SimplifyPreservesEval(e, fmt, env);
      LiteralEval(Simplify(e, fmt).value, env);
    case Negate(a) =>
      IntegerTreeFoldsToInteger(a, fmt, env);
      SimplifyPreservesEval(e, fmt, env);
    case Integer(_, _) =>
  }

  /** An operator over a name is never folded: it keeps its operator and
      gets its simplified children. */
  lemma OperatorOverNameIsKept(e: Expr, fmt: FloatFormat)
    requires e.Binary? || e.Negate?
    requires Idents(e) != {}
    requires Simplify(e, fmt).Ok?
    ensures e.Binary? ==>
      Simplify(e, fmt) == Ok(Binary(e.op, Simplify(e.left, fmt).value, Simplify(e.right, fmt).value))
    ensures e.Negate? ==> Simplify(e, fmt) == Ok(Negate(Simplify(e.arg, fmt).value))
  {
  }
}
