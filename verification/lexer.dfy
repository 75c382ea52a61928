/** The token scanner of src/lexer.py. The scanner's state is the index into
    the input; `Next` is one call of `Lexer.next`, returning the token and the
    index after it. `Tokens` collects the calls up to the first END, which is
    what the token parser pulls on demand (`TokensArePulls`). */
module Lexer {
  import opened Chars
  import opened Numerals

  datatype Kind =
    | Unexpected | End | Identifier | Number
    | LParen | RParen | Plus | Minus | Asterisk | Slash | Dot

  datatype Token = Token(kind: Kind, lexeme: string)

  /** END carries the NUL character `peek` returns past the input. */
  const EndToken := Token(End, "\0")

  /** The table of single-character tokens; anything else is Unexpected. */
  function AtomKind(c: char): Kind {
    if c == '(' then LParen
    else if c == ')' then RParen
    else if c == '*' then Asterisk
    else if c == '/' then Slash
    else if c == '+' then Plus
    else if c == '-' then Minus
    else if c == '.' then Dot
    else Unexpected
  }

  /** The character at `i`, or NUL once the input is exhausted. */
  function Peek(s: string, i: nat): char {
    if i < |s| then s[i] else '\0'
  }

  predicate AllSpace(s: string, i: nat, j: nat)
    requires i <= j <= |s|
  {
    forall k :: i <= k < j ==> IsSpace(s[k])
  }

  /** The whitespace loop at the head of `next`. */
  function SkipSpace(s: string, i: nat): (j: nat)
    requires i <= |s|
    ensures i <= j <= |s|
    decreases |s| - i
  {
    if i < |s| && IsSpace(s[i]) then SkipSpace(s, i + 1) else i
  }

  /** Skipping passes over whitespace only and stops at the first character
      that is not whitespace. */
  lemma {:induction false} SkipSpaceStops(s: string, i: nat)
    requires i <= |s|
    ensures AllSpace(s, i, SkipSpace(s, i))
    ensures !IsSpace(Peek(s, SkipSpace(s, i)))
    decreases |s| - i
  {
    if i < |s| && IsSpace(s[i]) {
      SkipSpaceStops(s, i + 1);
    }
  }

  /** The characters the loops of `identifier` (letters, digits and `_`) and
      `number` (digits) keep consuming. */
  predicate InRun(c: char, digitsOnly: bool) {
    if digitsOnly then IsDigit(c) else IsIdentChar(c)
  }

  /** Index just past the run of `InRun` characters from `i`. */
  function RunEnd(s: string, i: nat, digitsOnly: bool): (j: nat)
    requires i <= |s|
    ensures i <= j <= |s|
    decreases |s| - i
  {
    if i < |s| && InRun(s[i], digitsOnly) then RunEnd(s, i + 1, digitsOnly) else i
  }

  /** The run is as long as possible. */
  lemma {:induction false} RunIsMaximal(s: string, i: nat, digitsOnly: bool)
    requires i <= |s|
    ensures forall k :: i <= k < RunEnd(s, i, digitsOnly) ==> InRun(s[k], digitsOnly)
    ensures !InRun(Peek(s, RunEnd(s, i, digitsOnly)), digitsOnly)
    decreases |s| - i
  {
    if i < |s| && InRun(s[i], digitsOnly) {
      RunIsMaximal(s, i + 1, digitsOnly);
    }
  }

  /** What one scanner step must produce, stated independently of how `Next`
      computes it: whitespace from `i` skipped, then either END at a NUL or
      past the input (without advancing), or a non-empty lexeme equal to the
      source slice it covers, classified by its first character and, for
      identifiers and numbers, as long as possible. */
  ghost predicate ScansTo(s: string, i: nat, tok: Token, j: nat)
    requires i <= |s|
  {
    && j <= |s|
    && if tok.kind == End then
         && i <= j
         && AllSpace(s, i, j)
         && Peek(s, j) == '\0'
         && tok.lexeme == "\0"
       else
         && |tok.lexeme| >= 1
         && i <= j - |tok.lexeme|
         && AllSpace(s, i, j - |tok.lexeme|)
         && s[j - |tok.lexeme|..j] == tok.lexeme
         && !IsSpace(tok.lexeme[0])
         && tok.lexeme[0] != '\0'
         && if tok.kind == Identifier then
              && IsIdentifierText(tok.lexeme)
              && !IsIdentChar(Peek(s, j))
            else if tok.kind == Number then
              && IsNumeral(tok.lexeme)
              && !IsDigit(Peek(s, j))
            else
              && |tok.lexeme| == 1
              && !IsLetter(tok.lexeme[0])
              && !IsDigit(tok.lexeme[0])
              && tok.kind == AtomKind(tok.lexeme[0])
  }

  /** One call of `Lexer.next` from index `i`. */
  function Next(s: string, i: nat): (r: (Token, nat))
    requires i <= |s|
    ensures i <= r.1 <= |s|
    ensures r.0.kind != End ==> i < r.1
  {
    var start := SkipSpace(s, i);
    var c := Peek(s, start);
    if IsLetter(c) then
      var j := RunEnd(s, start + 1, false);
      (Token(Identifier, s[start..j]), j)
    else if IsDigit(c) then
      var j := RunEnd(s, start + 1, true);
      (Token(Number, s[start..j]), j)
    else if c == '\0' then
      (Token(End, [c]), start)
    else
      (Token(AtomKind(c), [c]), start + 1)
  }

  /** `Next` meets the step's specification. */
  lemma NextScans(s: string, i: nat)
    requires i <= |s|
    ensures ScansTo(s, i, Next(s, i).0, Next(s, i).1)
  {
    var start := SkipSpace(s, i);
    SkipSpaceStops(s, i);
    var c := Peek(s, start);
    if IsLetter(c) || IsDigit(c) {
      var digitsOnly := !IsLetter(c);
      RunIsMaximal(s, start + 1, digitsOnly);
      RunScans(s, i, start, RunEnd(s, start + 1, digitsOnly), digitsOnly);
    } else if c != '\0' {
      assert s[start..start + 1] == [c];
    }
  }

  /** An identifier or number step meets the specification. */
  lemma RunScans(s: string, i: nat, start: nat, j: nat, digitsOnly: bool)
    requires i <= start < j <= |s| && AllSpace(s, i, start)
    requires if digitsOnly then IsDigit(s[start]) else IsLetter(s[start])
    requires forall k :: start + 1 <= k < j ==> InRun(s[k], digitsOnly)
    requires !InRun(Peek(s, j), digitsOnly)
    ensures ScansTo(s, i, Token(if digitsOnly then Number else Identifier, s[start..j]), j)
  {
    assert |s[start..j]| == j - start;
    if digitsOnly {
      NumberRun(s, start, j);
    } else {
      IdentifierRun(s, start, j);
    }
  }

  lemma IdentifierRun(s: string, start: nat, j: nat)
    requires start < j <= |s| && IsLetter(s[start])
    requires forall k :: start + 1 <= k < j ==> InRun(s[k], false)
    ensures IsIdentifierText(s[start..j])
  {
  }

  lemma NumberRun(s: string, start: nat, j: nat)
    requires start < j <= |s| && IsDigit(s[start])
    requires forall k :: start + 1 <= k < j ==> InRun(s[k], true)
    ensures IsNumeral(s[start..j])
  {
  }

  /** Two maximal runs from the same place end at the same place. */
  lemma RunEndUnique(s: string, a: nat, j1: nat, j2: nat, digitsOnly: bool)
    requires a <= j1 <= |s| && a <= j2 <= |s|
    requires forall k :: a <= k < j1 ==> InRun(s[k], digitsOnly)
    requires forall k :: a <= k < j2 ==> InRun(s[k], digitsOnly)
    requires !InRun(Peek(s, j1), digitsOnly) && !InRun(Peek(s, j2), digitsOnly)
    ensures j1 == j2
  {
  }

  /** Where a step that meets the specification starts its token: where
      whitespace skipping stops. */
  lemma ScanStart(s: string, i: nat, tok: Token, j: nat)
    requires i <= |s|
    requires ScansTo(s, i, tok, j)
    ensures tok.kind == End ==> j == SkipSpace(s, i)
    ensures tok.kind != End ==> j - |tok.lexeme| == SkipSpace(s, i) && s[j - |tok.lexeme|] == tok.lexeme[0]
  {
    SkipSpaceStops(s, i);
    var st := if tok.kind == End then j else j - |tok.lexeme|;
    assert Peek(s, st) == '\0' || Peek(s, st) == tok.lexeme[0] by {
      if tok.kind != End {
        assert s[st..j][0] == s[st];
      }
    }
  }

  /** The characters of a lexeme are the characters of the source it covers. */
  lemma LexemeChars(s: string, st: nat, j: nat, lex: string)
    requires st <= j <= |s| && s[st..j] == lex
    ensures forall k :: st <= k < j ==> s[k] == lex[k - st]
  {
  }

  /** Maximal munch makes the step deterministic: `Next` is the only result
      that meets the step's specification. */
  lemma ScanIsUnique(s: string, i: nat, tok: Token, j: nat)
    requires i <= |s|
    requires ScansTo(s, i, tok, j)
    ensures Next(s, i) == (tok, j)
  {
    ScanStart(s, i, tok, j);
    NextScans(s, i);
    var start := SkipSpace(s, i);
    var n := Next(s, i).1;
    if tok.kind != End {
      var lex := tok.lexeme;
      LexemeChars(s, start, j, lex);
      if tok.kind == Identifier {
        RunEndUnique(s, start + 1, j, n, false);
      } else if tok.kind == Number {
        RunEndUnique(s, start + 1, j, n, true);
      }
    }
  }

  /** END does not advance: the step after END is END again, from the same
      index. */
  lemma EndRepeats(s: string, i: nat)
    requires i <= |s|
    requires Next(s, i).0.kind == End
    ensures Next(s, i).0 == EndToken
    ensures Next(s, Next(s, i).1) == Next(s, i)
  {
    NextScans(s, i);
    var j := Next(s, i).1;
    assert AllSpace(s, j, j);
    ScanIsUnique(s, j, EndToken, j);
  }

  /** The shape every token the scanner emits has; the parsers rely on it. */
  predicate ValidToken(t: Token) {
    match t.kind
    case End => t.lexeme == "\0"
    case Identifier => IsIdentifierText(t.lexeme)
    case Number => IsNumeral(t.lexeme)
    case _ =>
      && |t.lexeme| == 1
      && !IsLetter(t.lexeme[0])
      && !IsDigit(t.lexeme[0])
      && t.lexeme[0] != '\0'
      && t.kind == AtomKind(t.lexeme[0])
  }

  predicate ValidTokens(ts: seq<Token>) {
    forall k :: 0 <= k < |ts| ==> ValidToken(ts[k])
  }

  /** The token at position `p`, or END past the end of the sequence. */
  function At(ts: seq<Token>, p: nat): Token {
    if p < |ts| then ts[p] else EndToken
  }

  /** Every token from index `i` up to and including the first END. */
  function Tokens(s: string, i: nat): (ts: seq<Token>)
    requires i <= |s|
    ensures |ts| >= 1 && ts[|ts| - 1] == EndToken
    ensures forall k :: 0 <= k < |ts| - 1 ==> ts[k].kind != End
    ensures ValidTokens(ts)
    decreases |s| - i
  {
    var (t, j) := Next(s, i);
    NextScans(s, i);
    if t.kind == End then
      EndRepeats(s, i);
      [t]
    else
      [t] + Tokens(s, j)
  }

  /** The index after `n` calls of `next` from index `i`. */
  function Cursor(s: string, i: nat, n: nat): (j: nat)
    requires i <= |s|
    ensures j <= |s|
    decreases n
  {
    if n == 0 then i else Cursor(s, Next(s, i).1, n - 1)
  }

  /** Reading the collected sequence by position is the same as pulling
      tokens on demand: the `n`-th call of `next` returns `At(Tokens, n)`,
      including every call after END. */
  lemma {:induction false} TokensArePulls(s: string, i: nat, n: nat)
    requires i <= |s|
    ensures At(Tokens(s, i), n) == Next(s, Cursor(s, i, n)).0
    decreases n
  {
    if n == 0 {
      FirstPull(s, i);
    } else if Next(s, i).0.kind == End {
      PullsAfterEnd(s, i, n);
    } else {
      PullStep(s, i, n);
      TokensArePulls(s, Next(s, i).1, n - 1);
    }
  }

  lemma FirstPull(s: string, i: nat)
    requires i <= |s|
    ensures At(Tokens(s, i), 0) == Next(s, i).0 && Cursor(s, i, 0) == i
  {
  }

  /** After END, every further pull returns END again. */
  lemma PullsAfterEnd(s: string, i: nat, n: nat)
    requires i <= |s| && n > 0 && Next(s, i).0.kind == End
    ensures At(Tokens(s, i), n) == Next(s, Cursor(s, i, n)).0
  {
    EndRepeats(s, i);
    EndStaysPut(s, i, n);
  }

  /** Past a token that is not END, both sides move on by one. */
  lemma PullStep(s: string, i: nat, n: nat)
    requires i <= |s| && n > 0 && Next(s, i).0.kind != End
    ensures At(Tokens(s, i), n) == At(Tokens(s, Next(s, i).1), n - 1)
    ensures Cursor(s, i, n) == Cursor(s, Next(s, i).1, n - 1)
  {
    TokensStep(s, i);
    AtCons(Next(s, i).0, Tokens(s, Next(s, i).1), n);
  }

  /** One scanner step that is not END, as the collected tokens see it. */
  lemma TokensStep(s: string, i: nat)
    requires i <= |s| && Next(s, i).0.kind != End
    ensures Tokens(s, i) == [Next(s, i).0] + Tokens(s, Next(s, i).1)
  {
  }

  lemma AtCons(t: Token, ts: seq<Token>, n: nat)
    requires n > 0
    ensures At([t] + ts, n) == At(ts, n - 1)
  {
  }

  lemma {:induction false} EndStaysPut(s: string, i: nat, n: nat)
    requires i <= |s|
    requires Next(s, i).0.kind == End
    ensures Cursor(s, i, n) == Next(s, i).1 || Cursor(s, i, n) == i
    ensures Next(s, Cursor(s, i, n)) == Next(s, i)
    decreases n
  {
    EndRepeats(s, i);
    if n > 0 {
      var j := Next(s, i).1;
      EndStaysPut(s, j, n - 1);
    }
  }

  /** The index at which scanning from `i` returns END. */
  function ScanEnd(s: string, i: nat): (j: nat)
    requires i <= |s|
    ensures i <= j <= |s|
    decreases |s| - i
  {
    var (t, j) := Next(s, i);
    if t.kind == End then j else ScanEnd(s, j)
  }

  /** The input with its whitespace removed. */
  function Unspaced(x: string): string {
    if |x| == 0 then [] else (if IsSpace(x[0]) then [] else [x[0]]) + Unspaced(x[1..])
  }

  /** The lexemes of the tokens before END, concatenated. */
  function Lexemes(ts: seq<Token>): string {
    if |ts| == 0 || ts[0].kind == End then [] else ts[0].lexeme + Lexemes(ts[1..])
  }

  lemma {:induction false} UnspacedConcat(a: string, b: string)
    ensures Unspaced(a + b) == Unspaced(a) + Unspaced(b)
  {
    if |a| > 0 {
      assert (a + b)[0] == a[0];
      assert (a + b)[1..] == a[1..] + b;
      UnspacedConcat(a[1..], b);
    } else {
      assert a + b == b;
    }
  }

  lemma {:induction false} UnspacedAllSpace(x: string)
    requires forall k :: 0 <= k < |x| ==> IsSpace(x[k])
    ensures Unspaced(x) == []
  {
    if |x| > 0 {
      UnspacedAllSpace(x[1..]);
    }
  }

  lemma {:induction false} UnspacedNoSpace(x: string)
    requires forall k :: 0 <= k < |x| ==> !IsSpace(x[k])
    ensures Unspaced(x) == x
  {
    if |x| > 0 {
      UnspacedNoSpace(x[1..]);
    }
  }

  /** A lexeme holds neither whitespace nor NUL. */
  lemma LexemeIsClean(s: string, i: nat, tok: Token, j: nat)
    requires i <= |s|
    requires ScansTo(s, i, tok, j) && tok.kind != End
    ensures forall k :: 0 <= k < |tok.lexeme| ==> !IsSpace(tok.lexeme[k]) && tok.lexeme[k] != '\0'
  {
  }

  /** One step's share of the input: whitespace, then the lexeme, and no
      NUL. */
  lemma {:induction false} StepUnspaced(s: string, i: nat, t: Token, j: nat)
    requires i <= |s|
    requires ScansTo(s, i, t, j) && t.kind != End
    ensures Unspaced(s[i..j]) == t.lexeme
    ensures forall k :: i <= k < j ==> s[k] != '\0'
  {
    var start := j - |t.lexeme|;
    LexemeIsClean(s, i, t, j);
    LexemeChars(s, start, j, t.lexeme);
    assert s[i..j] == s[i..start] + t.lexeme;
    UnspacedConcat(s[i..start], t.lexeme);
    UnspacedAllSpace(s[i..start]);
    UnspacedNoSpace(t.lexeme);
  }

  /** Scanning stops at the first NUL or at the end of the input, and the
      lexemes, concatenated, are exactly the scanned text with its whitespace
      taken out: no character is lost, duplicated or reordered. */
  lemma {:induction false} TokensReproduceInput(s: string, i: nat)
    requires i <= |s|
    ensures ScanEnd(s, i) == |s| || s[ScanEnd(s, i)] == '\0'
    ensures forall k :: i <= k < ScanEnd(s, i) ==> s[k] != '\0'
    ensures Unspaced(s[i..ScanEnd(s, i)]) == Lexemes(Tokens(s, i))
    decreases |s| - i
  {
    var (t, j) := Next(s, i);
    NextScans(s, i);
    if t.kind == End {
      UnspacedAllSpace(s[i..j]);
    } else {
      TokensReproduceInput(s, j);
      StepUnspaced(s, i, t, j);
      var e := ScanEnd(s, j);
      assert s[i..e] == s[i..j] + s[j..e];
      UnspacedConcat(s[i..j], s[j..e]);
      var ts := Tokens(s, j);
      assert Tokens(s, i) == [t] + ts;
      assert ([t] + ts)[1..] == ts;
    }
  }

  /** A step's specification only looks at the text up to a NUL at `k`, so it
      holds of the input cut at `k` too. */
  lemma ScanBeforeNul(s: string, k: nat, i: nat, tok: Token, j: nat)
    requires k < |s| && s[k] == '\0' && i <= k
    requires ScansTo(s, i, tok, j)
    ensures j <= k
    ensures ScansTo(s[..k], i, tok, j)
  {
    var st := if tok.kind == End then j else j - |tok.lexeme|;
    assert st <= k;
    if tok.kind != End {
      assert j <= k by {
        assert forall m :: st <= m < j ==> s[m] == tok.lexeme[m - st];
        assert forall m :: 0 <= m < |tok.lexeme| ==> tok.lexeme[m] != '\0';
      }
      assert s[..k][st..j] == s[st..j];
    }
    assert Peek(s[..k], j) == Peek(s, j);
  }

  /** A NUL in the input acts as its end: nothing after it is scanned. */
  lemma {:induction false} NulEndsInput(s: string, k: nat, i: nat)
    requires k < |s| && s[k] == '\0' && i <= k
    ensures Tokens(s, i) == Tokens(s[..k], i)
    decreases |s| - i
  {
    var (t, j) := Next(s, i);
    NextScans(s, i);
    ScanBeforeNul(s, k, i, t, j);
    ScanIsUnique(s[..k], i, t, j);
    if t.kind != End {
      NulEndsInput(s, k, j);
    }
  }
}
