/** Where the pieces of a rendering sit inside a longer text: the facts both
    round trips (token-level and character-level) read the rendered text
    with. */
module Layout {
  import opened Ast

  /** `x` is spelled out in `s` from index `i`: a string in a string, or a
      token sequence in a token sequence. */
  predicate Occurs<T(==)>(s: seq<T>, i: nat, x: seq<T>) {
    i + |x| <= |s| && forall k :: 0 <= k < |x| ==> s[i + k] == x[k]
  }

  lemma OccursSlice<T>(s: seq<T>, i: nat, x: seq<T>)
    requires Occurs(s, i, x)
    ensures s[i..i + |x|] == x
  {
    forall k | 0 <= k < |x|
      ensures s[i..i + |x|][k] == x[k]
    {
      assert s[i..i + |x|][k] == s[i + k];
    }
  }

  /** A piece of a sequence that occurs in `s` occurs in `s` too. */
  lemma OccursWithin<T>(s: seq<T>, i: nat, x: seq<T>, a: nat, y: seq<T>)
    requires Occurs(s, i, x) && a + |y| <= |x| && x[a..a + |y|] == y
    ensures Occurs(s, i + a, y)
  {
    forall k | 0 <= k < |y|
      ensures s[i + a + k] == y[k]
    {
      assert y[k] == x[a..a + |y|][k] == x[a + k];
    }
  }

  /** The pieces of a rendered binary node, by position. */
  lemma BinaryPieces(e: Expr)
    requires e.Binary?
    ensures var (R, n1, n2) := (Render(e), |Render(e.left)|, |Render(e.right)|);
            && |R| == n1 + n2 + 5
            && R[0] == '(' && R[n1 + 1] == ' ' && R[n1 + 2] == Symbol(e.op) && R[n1 + 3] == ' ' && R[n1 + n2 + 4] == ')'
            && R[1..1 + n1] == Render(e.left) && R[n1 + 4..n1 + 4 + n2] == Render(e.right)
  {
    var (Rl, Rr) := (Render(e.left), Render(e.right));
    assert Render(e) == "(" + Rl + " " + [Symbol(e.op)] + " " + Rr + ")";
  }

  /** Where the pieces of a rendered binary node sit in `s`. */
  lemma BinaryLayout(s: string, i: nat, e: Expr, p: nat, end: nat)
    requires e.Binary? && Occurs(s, i, Render(e))
    requires p == i + 1 + |Render(e.left)| && end == p + 3 + |Render(e.right)|
    ensures end < |s| && end + 1 == i + |Render(e)|
    ensures s[i] == '(' && s[p] == ' ' && s[p + 1] == Symbol(e.op) && s[p + 2] == ' ' && s[end] == ')'
    ensures Occurs(s, i + 1, Render(e.left)) && Occurs(s, p + 3, Render(e.right))
  {
    var R := Render(e);
    var (n1, n2) := (|Render(e.left)|, |Render(e.right)|);
    BinaryPieces(e);
    OccursWithin(s, i, R, 1, Render(e.left));
    OccursWithin(s, i, R, n1 + 4, Render(e.right));
    assert s[i] == R[0];
    assert s[i + n1 + 1] == R[n1 + 1];
    assert s[i + n1 + 2] == R[n1 + 2];
    assert s[i + n1 + 3] == R[n1 + 3];
    assert s[i + n1 + n2 + 4] == R[n1 + n2 + 4];
  }

  /** The pieces of a rendered negation, by position. */
  lemma NegatePieces(e: Expr)
    requires e.Negate?
    ensures var (R, n) := (Render(e), |Render(e.arg)|);
            && |R| == n + 3 && R[0] == '(' && R[1] == '-' && R[n + 2] == ')' && R[2..2 + n] == Render(e.arg)
  {
    assert Render(e) == "(-" + Render(e.arg) + ")";
  }

  /** Where the pieces of a rendered negation sit in `s`. */
  lemma NegateLayout(s: string, i: nat, e: Expr, end: nat)
    requires e.Negate? && Occurs(s, i, Render(e))
    requires end == i + 2 + |Render(e.arg)|
    ensures end < |s| && end + 1 == i + |Render(e)|
    ensures s[i] == '(' && s[i + 1] == '-' && s[end] == ')'
    ensures Occurs(s, i + 2, Render(e.arg))
  {
    var R := Render(e);
    var n := |Render(e.arg)|;
    NegatePieces(e);
    OccursWithin(s, i, R, 2, Render(e.arg));
    assert s[i] == R[0];
    assert s[i + 1] == R[1];
    assert s[i + 2 + n] == R[n + 2];
  }
}
