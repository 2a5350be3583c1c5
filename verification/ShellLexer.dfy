/**
 The tokens of sh.c: cutting a command line into tokens, and writing tokens out again.
 */
module ShellLexer {
  import opened ShellGrammar

  const NUL: char := '\0'

  /** A command line as a C string: no NUL before its end. */
  type Text = s: string | NoNul(s)

  predicate NoNul(s: string) { forall k | 0 <= k < |s| :: s[k] != NUL }

  predicate IsSpace(c: char) { c == ' ' || c == '\t' || c == '\r' || c == '\n' || c == '\U{000B}' }
  predicate IsSymbol(c: char) { c == '<' || c == '|' || c == '>' || c == '&' || c == ';' || c == '(' || c == ')' }
  predicate IsWordChar(c: char) { !IsSpace(c) && !IsSymbol(c) && c != NUL }

  function SkipSpace(s: Text, i: nat): (j: nat)
    requires i <= |s|
    ensures i <= j <= |s| && (forall k | i <= k < j :: IsSpace(s[k])) && (j < |s| ==> !IsSpace(s[j]))
    decreases |s| - i
  {
    if i < |s| && IsSpace(s[i]) then SkipSpace(s, i + 1) else i
  }

  function WordEnd(s: Text, i: nat): (j: nat)
    requires i <= |s|
    ensures i <= j <= |s| && (forall k | i <= k < j :: IsWordChar(s[k])) && (j < |s| ==> !IsWordChar(s[j]))
    decreases |s| - i
  {
    if i < |s| && IsWordChar(s[i]) then WordEnd(s, i + 1) else i
  }

  function SymbolToken(c: char): Token
    requires IsSymbol(c)
  {
    match c
    case '<' => In
    case '>' => Out
    case '|' => Bar
    case '&' => Amp
    case ';' => Semi
    case '(' => LParen
    case _ => RParen
  }

  /** The tokens of a line from position i on. */
  function Tokens(s: Text, i: nat): seq<Token>
    requires i <= |s|
    decreases |s| - i
  {
    var j := SkipSpace(s, i);
    if j == |s| then []
    else [TokenAt(s, j)] + Tokens(s, TokenEnd(s, j))
  }

  function TokenEnd(s: Text, j: nat): (e: nat)
    requires j < |s| && !IsSpace(s[j])
    ensures j < e <= |s|
  {
    if !IsSymbol(s[j]) then WordEnd(s, j)
    else if s[j] == '>' && j + 1 < |s| && s[j + 1] == '>' then j + 2
    else j + 1
  }

  function TokenAt(s: Text, j: nat): Token
    requires j < |s| && !IsSpace(s[j])
  {
    if !IsSymbol(s[j]) then Word(s[j..WordEnd(s, j)])
    else if s[j] == '>' && j + 1 < |s| && s[j + 1] == '>' then Append
    else SymbolToken(s[j])
  }

  lemma SkipIs(s: Text, i: nat, j: nat)
    requires i <= j <= |s| && (forall k | i <= k < j :: IsSpace(s[k])) && (j < |s| ==> !IsSpace(s[j]))
    ensures SkipSpace(s, i) == j
    decreases j - i
  {
  }

  lemma WordIs(s: Text, i: nat, j: nat)
    requires i <= j <= |s| && (forall k | i <= k < j :: IsWordChar(s[k])) && (j < |s| ==> !IsWordChar(s[j]))
    ensures WordEnd(s, i) == j
    decreases j - i
  {
  }

  // ---------------------------------------------------------------- writing tokens

  ghost predicate WordOk(w: string) {
    w != "" && forall k | 0 <= k < |w| :: IsWordChar(w[k])
  }

  ghost predicate TokenOk(t: Token) {
    t.Word? ==> WordOk(t.text)
  }

  function Spelled(t: Token): string {
    match t
    case Word(w) => w
    case In => "<"
    case Out => ">"
    case Append => ">>"
    case Bar => "|"
    case Amp => "&"
    case Semi => ";"
    case LParen => "("
    case RParen => ")"
  }

  /** Each token followed by a blank. */
  function Render(ts: seq<Token>): string {
    if ts == [] then "" else Spelled(ts[0]) + " " + Render(ts[1..])
  }

  lemma SpelledText(t: Token)
    requires TokenOk(t)
    ensures NoNul(Spelled(t)) && |Spelled(t)| > 0
  {
  }

  lemma {:induction false} RenderText(ts: seq<Token>)
    requires forall k | 0 <= k < |ts| :: TokenOk(ts[k])
    ensures NoNul(Render(ts))
  {
    hide Spelled, TokenOk;
    if ts != [] {
      SpelledText(ts[0]);
      RenderText(ts[1..]);
    }
  }

  lemma TokenShift(a: Text, b: Text, j: nat)
    requires j < |b| && !IsSpace(b[j])
    ensures NoNul(a + b) && (a + b)[|a| + j] == b[j]
    ensures TokenAt(a + b, |a| + j) == TokenAt(b, j) && TokenEnd(a + b, |a| + j) == |a| + TokenEnd(b, j)
  {
    hide IsSpace, IsSymbol;
    var s: Text := a + b;
    var e := WordEnd(b, j);
    assert forall k | 0 <= k < |b| :: s[|a| + k] == b[k];
    WordIs(s, |a| + j, |a| + e);
    assert s[|a| + j..|a| + e] == b[j..e];
  }

  lemma SkipShift(a: Text, b: Text, i: nat)
    requires i <= |b|
    ensures NoNul(a + b) && SkipSpace(a + b, |a| + i) == |a| + SkipSpace(b, i)
  {
    hide IsSpace;
    var s: Text := a + b;
    assert forall k | 0 <= k < |b| :: s[|a| + k] == b[k];
    SkipIs(s, |a| + i, |a| + SkipSpace(b, i));
  }

  /** Tokens see nothing of what comes before their position. */
  lemma {:induction false} TokensShift(a: Text, b: Text, i: nat)
    requires i <= |b|
    ensures NoNul(a + b) && Tokens(a + b, |a| + i) == Tokens(b, i)
    decreases |b| - i
  {
    hide TokenAt, TokenEnd, IsSpace, SkipSpace;
    var j := SkipSpace(b, i);
    SkipShift(a, b, i);
    if j < |b| {
      TokenShift(a, b, j);
      TokensShift(a, b, TokenEnd(b, j));
    }
  }

  /** A token followed by a blank is read as that token, up to the blank. */
  lemma SpelledReads(t: Token, rest: Text)
    requires TokenOk(t)
    ensures var s := Spelled(t) + " " + rest;
            NoNul(s) && SkipSpace(s, 0) == 0 && TokenAt(s, 0) == t && TokenEnd(s, 0) == |Spelled(t)|
  {
    SpelledText(t);
    var s: Text, n := Spelled(t) + " " + rest, |Spelled(t)|;
    assert s[n] == ' ' && forall k | 0 <= k < n :: s[k] == Spelled(t)[k];
    if t.Word? {
      WordIs(s, 0, n);
      assert s[0..n] == t.text;
    }
  }

  lemma FirstToken(t: Token, rest: Text)
    requires TokenOk(t)
    ensures NoNul(Spelled(t) + " " + rest) && Tokens(Spelled(t) + " " + rest, 0) == [t] + Tokens(rest, 0)
  {
    hide TokenAt, TokenEnd, IsSpace, SkipSpace, Spelled, TokenOk;
    SpelledText(t);
    SpelledReads(t, rest);
    var s: Text, n := Spelled(t) + " " + rest, |Spelled(t)|;
    TokensShift(Spelled(t) + " ", rest, 0);
    assert s == (Spelled(t) + " ") + rest;
    BlankSkipped(s, n);
  }

  lemma BlankSkipped(s: Text, n: nat)
    requires n < |s| && s[n] == ' '
    ensures Tokens(s, n) == Tokens(s, n + 1)
  {
  }

  /** Writing tokens and cutting the text gives the tokens back. */
  lemma {:induction false} RenderedTokens(ts: seq<Token>)
    requires forall k | 0 <= k < |ts| :: TokenOk(ts[k])
    ensures NoNul(Render(ts)) && Tokens(Render(ts), 0) == ts
  {
    hide TokenAt, TokenEnd, Spelled, TokenOk;
    RenderText(ts);
    if ts != [] {
      RenderText(ts[1..]);
      RenderedTokens(ts[1..]);
      FirstToken(ts[0], Render(ts[1..]));
      assert ts == [ts[0]] + ts[1..];
    }
  }
}
