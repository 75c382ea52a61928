/** The expression tree shared by every version of the program
    (maths_parser_python/nodetypes.py, the node classes copied into
    maths_parser_python/parser.py and maths_parser_python/main.py, and the
    extended src/nodetypes.py), with its fully parenthesised rendering and its
    evaluation against an environment. Numbers are idealised: integers are
    unbounded and every value, int or float, is an exact real. */
module Ast {
  import opened Results
  import opened Chars
  import opened Numerals

  datatype BinOp = Add | Subtract | Mult | Div

  /** An Integer keeps the text it was built from (`raw`) beside its value; a
      Float does the same with an exact real standing for its float value. */
  datatype Expr =
    | Integer(raw: string, value: int)
    | Float(raw: string, number: real)
    | Identifier(name: string)
    | Binary(op: BinOp, left: Expr, right: Expr)
    | Negate(arg: Expr)

  /** The `symbol` class attribute of each operator class. */
  function Symbol(op: BinOp): char {
    match op
    case Add => '+'
    case Subtract => '-'
    case Mult => '*'
    case Div => '/'
  }

  /** `__str__`: binary nodes as "(left symbol right)", negation as
      "(-arg)" with no space, literals as their text, identifiers as their
      name. */
  function Render(e: Expr): string {
    match e
    case Integer(raw, _) => raw
    case Float(raw, _) => raw
    case Identifier(name) => name
    case Binary(op, l, r) => "(" + Render(l) + " " + [Symbol(op)] + " " + Render(r) + ")"
    case Negate(a) => "(-" + Render(a) + ")"
  }

  predicate IsLiteral(e: Expr) {
    e.Integer? || e.Float?
  }

  /** The value a literal evaluates to. */
  function LiteralValue(e: Expr): real
    requires IsLiteral(e)
  {
    if e.Integer? then e.value as real else e.number
  }

  /** A literal whose value is the one its text spells; every Integer the
      model builds is one. */
  predicate Consistent(e: Expr)
    requires e.Integer?
  {
    IsIntText(e.raw) && IntTextValue(e.raw) == e.value
  }

  /** `Integer(text)` for a NUMBER lexeme: the text is kept verbatim and the
      value is what `int` reads from it. */
  function IntegerOfText(text: string): (r: Expr)
    requires IsNumeral(text)
    ensures r.Integer? && Consistent(r)
    ensures Render(r) == text
  {
    Integer(text, DecimalValue(text))
  }

  /** `Integer(value)` for a folded int: the text is `str(value)`, so the
      rendering spells the value canonically, with a leading minus sign for a
      negative value and no parentheses. */
  function IntegerOfValue(v: int): (r: Expr)
    ensures r.Integer? && Consistent(r) && r.value == v
    ensures v >= 0 ==> IsCanonical(Render(r))
    ensures v < 0 ==> Render(r)[0] == '-' && IsCanonical(Render(r)[1..])
  {
    Integer(IntText(v), v)
  }

  /** The formatting `str` applies to a float; it is Python's and is kept
      abstract here. */
  type FloatFormat = real -> string

  /** `Float(value)` for a folded float. */
  function FloatOfValue(v: real, fmt: FloatFormat): (r: Expr)
    ensures r.Float? && LiteralValue(r) == v && Render(r) == fmt(v)
  {
    Float(fmt(v), v)
  }

  /** Names of variables, an environment for them, and the two ways
      evaluation fails: a KeyError on an unbound name and a
      ZeroDivisionError. */
  type Env = map<string, real>

  datatype EvalError = Unbound(name: string) | DivisionByZero

  /** The names a tree mentions. */
  function Idents(e: Expr): set<string> {
    match e
    case Integer(_, _) => {}
    case Float(_, _) => {}
    case Identifier(name) => {name}
    case Binary(_, l, r) => Idents(l) + Idents(r)
    case Negate(a) => Idents(a)
  }

  /** One operator applied to two values; true division, failing on a zero
      divisor. */
  function Apply(op: BinOp, a: real, b: real): (r: Result<real, EvalError>)
    ensures r.Err? <==> op == Div && b == 0.0
  {
    match op
    case Add => Ok(a + b)
    case Subtract => Ok(a - b)
    case Mult => Ok(a * b)
    case Div => if b == 0.0 then Err(DivisionByZero) else Ok(a / b)
  }

  /** `eval(env)`: left operand first, then right; the first failure wins. */
  function Eval(e: Expr, env: Env): (r: Result<real, EvalError>)
    ensures r.Ok? ==> Idents(e) <= env.Keys
    ensures r.Err? && r.error.Unbound? ==> r.error.name in Idents(e) && r.error.name !in env
  {
    match e
    case Integer(_, v) => Ok(v as real)
    case Float(_, x) => Ok(x)
    case Identifier(name) => if name in env then Ok(env[name]) else Err(Unbound(name))
    case Binary(op, l, r) =>
      var a :- Eval(l, env);
      var b :- Eval(r, env);
      Apply(op, a, b)
    case Negate(x) =>
      var a :- Eval(x, env);
      Ok(-a)
  }

  predicate HasDiv(e: Expr) {
    match e
    case Binary(op, l, r) => op == Div || HasDiv(l) || HasDiv(r)
    case Negate(a) => HasDiv(a)
    case _ => false
  }

  /** Without a division, evaluation fails exactly when a name is unbound. */
  lemma {:induction false} EvalSucceedsWhenBound(e: Expr, env: Env)
    requires !HasDiv(e)
    ensures Eval(e, env).Ok? <==> Idents(e) <= env.Keys
  {
    match e
    case Binary(_, l, r) =>
      EvalSucceedsWhenBound(l, env);
      EvalSucceedsWhenBound(r, env);
    case Negate(a) =>
      EvalSucceedsWhenBound(a, env);
    case _ =>
  }

  /** Evaluation reads the environment only at the names the tree mentions. */
  lemma {:induction false} EvalIsLocal(e: Expr, env1: Env, env2: Env)
    requires forall n :: n in Idents(e) ==> (n in env1 <==> n in env2)
    requires forall n :: n in Idents(e) && n in env1 ==> env1[n] == env2[n]
    ensures Eval(e, env1) == Eval(e, env2)
  {
    match e
    case Binary(_, l, r) =>
      EvalIsLocal(l, env1, env2);
      EvalIsLocal(r, env1, env2);
    case Negate(a) =>
      EvalIsLocal(a, env1, env2);
    case _ =>
  }

  /** Evaluation is compositional: operands that evaluate alike make
      operator nodes that evaluate alike. */
  lemma EvalCongruence(x: Expr, y: Expr, x': Expr, y': Expr, op: BinOp, env: Env)
    requires Eval(x, env) == Eval(x', env) && Eval(y, env) == Eval(y', env)
    ensures Eval(Negate(x), env) == Eval(Negate(x'), env)
    ensures Eval(Binary(op, x, y), env) == Eval(Binary(op, x', y'), env)
  {
  }

  /** Literals evaluate to their value in every environment. */
  lemma LiteralEval(e: Expr, env: Env)
    requires IsLiteral(e)
    ensures Eval(e, env) == Ok(LiteralValue(e))
  {
  }
}
