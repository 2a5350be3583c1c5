/**
 The parser of sh.c: a cursor moves over the line, words are kept as spans of it, and at
 the end NULs written into the line turn the spans into C strings.
 */
module Shell {
  import opened ShellGrammar
  import opened ShellLexer

  datatype Span = Span(lo: nat, hi: nat)
  datatype Result = Done(cmd: Cmd<Span>, ps: nat) | Failed(why: Why)
  datatype RedirResult = Some(rs: seq<Redirection<Span>>, ps: nat) | NoFile

  /** A maximal run of word characters. */
  ghost predicate WordSpan(s: Text, w: Span) {
    && w.lo < w.hi <= |s|
    && (forall k | w.lo <= k < w.hi :: IsWordChar(s[k]))
    && (w.hi < |s| ==> !IsWordChar(s[w.hi]))
  }

  ghost predicate GoodRedirs(s: Text, rs: seq<Redirection<Span>>) {
    forall k | 0 <= k < |rs| :: WordSpan(s, rs[k].file)
  }

  ghost predicate GoodArgs(s: Text, args: seq<Span>) {
    forall k | 0 <= k < |args| :: WordSpan(s, args[k])
  }

  ghost predicate Good(s: Text, cmd: Cmd<Span>) {
    match cmd
    case Exec(args) => GoodArgs(s, args)
    case Redir(c, file, _) => Good(s, c) && WordSpan(s, file)
    case Pipe(l, r) => Good(s, l) && Good(s, r)
    case List(l, r) => Good(s, l) && Good(s, r)
    case Back(j) => Good(s, j)
  }

  ghost function Read(s: Text, w: Span): string {
    if w.lo <= w.hi <= |s| then s[w.lo..w.hi] else ""
  }

  ghost function ReadArgs(s: Text, args: seq<Span>): seq<string> {
    seq(|args|, i requires 0 <= i < |args| => Read(s, args[i]))
  }

  ghost function ReadRedirs(s: Text, rs: seq<Redirection<Span>>): seq<Redirection<string>> {
    seq(|rs|, i requires 0 <= i < |rs| => Redirection(Read(s, rs[i].file), rs[i].input))
  }

  /** The command with its spans read from the line. */
  ghost function ReadCmd(s: Text, cmd: Cmd<Span>): Cmd<string> {
    match cmd
    case Exec(args) => Exec(ReadArgs(s, args))
    case Redir(c, file, input) => Redir(ReadCmd(s, c), Read(s, file), input)
    case Pipe(l, r) => Pipe(ReadCmd(s, l), ReadCmd(s, r))
    case List(l, r) => List(ReadCmd(s, l), ReadCmd(s, r))
    case Back(j) => Back(ReadCmd(s, j))
  }

  lemma {:induction false} ReadWrap(s: Text, cmd: Cmd<Span>, rs: seq<Redirection<Span>>)
    ensures ReadCmd(s, Wrap(cmd, rs)) == Wrap(ReadCmd(s, cmd), ReadRedirs(s, rs))
    ensures Good(s, cmd) && GoodRedirs(s, rs) ==> Good(s, Wrap(cmd, rs))
    decreases |rs|
  {
    if rs != [] {
      ReadWrap(s, Redir(cmd, rs[0].file, rs[0].input), rs[1..]);
      assert ReadRedirs(s, rs)[1..] == ReadRedirs(s, rs[1..]);
    }
  }

  // ---------------------------------------------------------------- tokens

  /** The token that gettoken's return value and span stand for. */
  ghost function TokenFor(s: Text, tok: char, w: Span): Token {
    if tok == 'a' then Word(Read(s, w)) else if tok == '+' then Append else if IsSymbol(tok) then SymbolToken(tok)
    else Append
  }

  method SkipBlanks(s: Text, ps: nat) returns (i: nat)
    requires ps <= |s|
    ensures i == SkipSpace(s, ps) && Tokens(s, i) == Tokens(s, ps)
  {
    i := ps;
    while i < |s| && IsSpace(s[i])
      invariant ps <= i <= |s| && forall k | ps <= k < i :: IsSpace(s[k])
    {
      i := i + 1;
    }
    SkipIs(s, ps, i);
    SkipIs(s, i, i);
  }

  lemma TokensFrom(s: Text, i: nat)
    requires i <= |s| && (i < |s| ==> !IsSpace(s[i]))
    ensures Tokens(s, i) == if i == |s| then [] else [TokenAt(s, i)] + Tokens(s, TokenEnd(s, i))
  {
  }

  /** The next token with its span; NUL at the end of the line. */
  method Gettoken(s: Text, ps: nat) returns (tok: char, w: Span, next: nat)
    requires ps <= |s|
    ensures ps <= next <= |s| && (tok == NUL <==> Tokens(s, ps) == [])
    ensures tok == NUL ==> Tokens(s, next) == []
    ensures tok != NUL ==> ps < next && Tokens(s, ps) == [TokenFor(s, tok, w)] + Tokens(s, next)
                           && (tok == 'a' || tok == '+' || IsSymbol(tok))
    ensures tok == 'a' ==> WordSpan(s, w)
  {
    hide Tokens, SkipSpace;
    var i := SkipBlanks(s, ps);
    var q := i;
    TokensFrom(s, i);
    if i == |s| {
      tok := NUL;
    } else if s[i] == '|' || s[i] == '(' || s[i] == ')' || s[i] == ';' || s[i] == '&' || s[i] == '<' {
      tok := s[i];
      i := i + 1;
    } else if s[i] == '>' {
      tok := s[i];
      i := i + 1;
      if i < |s| && s[i] == '>' {
        tok := '+';
        i := i + 1;
      }
    } else {
      tok := 'a';
      while i < |s| && !IsSpace(s[i]) && !IsSymbol(s[i])
        invariant q <= i <= |s| && forall k | q <= k < i :: IsWordChar(s[k])
        invariant i == q ==> !IsSpace(s[q]) && !IsSymbol(s[q])
      {
        i := i + 1;
      }
      WordIs(s, q, i);
    }
    w := Span(q, i);
    next := SkipBlanks(s, i);
  }

  /** Is the next character one of toks? */
  method Peek(s: Text, ps: nat, toks: string) returns (hit: bool, next: nat)
    requires ps <= |s|
    ensures next == SkipSpace(s, ps) && Tokens(s, next) == Tokens(s, ps)
    ensures hit <==> next < |s| && s[next] in toks
  {
    next := SkipBlanks(s, ps);
    hit := next < |s| && s[next] in toks;
  }

  /** What the next character tells of the next token. */
  lemma NextChar(s: Text, i: nat)
    requires i <= |s| && (i < |s| ==> !IsSpace(s[i]))
    ensures Tokens(s, i) == [] <==> i == |s|
    ensures i < |s| ==> var t := Tokens(s, i)[0];
                        && (t.Bar? <==> s[i] == '|') && (t.Amp? <==> s[i] == '&') && (t.Semi? <==> s[i] == ';')
                        && (t.LParen? <==> s[i] == '(') && (t.RParen? <==> s[i] == ')')
                        && (IsRedir(t) <==> s[i] == '<' || s[i] == '>')
                        && (EndsExec(t) <==> s[i] in "|)&;")
  {
  }

  // ---------------------------------------------------------------- the recursive descent

  ghost predicate RedirsMatch(s: Text, ps: nat, r: RedirResult)
    requires ps <= |s|
  {
    var want := ParseRedirs(Tokens(s, ps));
    if want.Missing? then r.NoFile?
    else
      && r.Some? && ps <= r.ps <= |s| && GoodRedirs(s, r.rs)
      && ReadRedirs(s, r.rs) == want.redirs && Tokens(s, r.ps) == want.left
  }

  /** The parse of the line from ps agrees with what the grammar makes of its tokens. */
  ghost predicate Matches(s: Text, ps: nat, r: Result, want: Parsed)
    requires ps <= |s|
  {
    if want.Fault? then r == Failed(want.why)
    else
      && r.Done? && ps <= r.ps <= |s| && Good(s, r.cmd)
      && ReadCmd(s, r.cmd) == want.cmd && Tokens(s, r.ps) == want.rest
  }

  lemma NoRedirHead(ts: seq<Token>)
    requires ts == [] || !IsRedir(ts[0])
    ensures ParseRedirs(ts) == Found([], ts)
  {
  }

  lemma RedirHead(t: Token, ts: seq<Token>)
    requires IsRedir(t)
    ensures ts == [] || !ts[0].Word? ==> ParseRedirs([t] + ts) == Missing
    ensures ts != [] && ts[0].Word? ==>
              var rest := ParseRedirs(ts[1..]);
              ParseRedirs([t] + ts) == if rest.Missing? then Missing
              else Found([Redirection(ts[0].text, t.In?)] + rest.redirs, rest.left)
  {
    assert ts != [] ==> ([t] + ts)[2..] == ts[1..];
  }

  lemma MoreRedirs(s: Text, rs: seq<Redirection<Span>>, r: Redirection<Span>, rest: seq<Redirection<string>>)
    ensures ReadRedirs(s, rs) + ([Redirection(Read(s, r.file), r.input)] + rest) == ReadRedirs(s, rs + [r]) + rest
  {
  }

  method Parseredirs(s: Text, ps: nat) returns (r: RedirResult)
    requires ps <= |s|
    ensures RedirsMatch(s, ps, r)
  {
    hide Tokens, SkipSpace, WordSpan, Read, ParseRedirs, ReadRedirs, IsRedir;
    var rs: seq<Redirection<Span>>, at := [], ps;
    ghost var all := ParseRedirs(Tokens(s, ps));
    NoneRead(s);
    while true
      invariant ps <= at <= |s| && GoodRedirs(s, rs)
      invariant var rest := ParseRedirs(Tokens(s, at));
                all == if rest.Missing? then Missing else Found(ReadRedirs(s, rs) + rest.redirs, rest.left)
      decreases |s| - at
    {
      var hit, tok, w, kind, none;
      hit, at := Peek(s, at, "<>");
      NextChar(s, at);
      ghost var ts := Tokens(s, at);
      if !hit {
        NoRedirHead(ts);
        return Some(rs, at);
      }
      kind, none, at := Gettoken(s, at);
      RedirHead(ts[0], Tokens(s, at));
      tok, w, at := Gettoken(s, at);
      if tok != 'a' {
        return NoFile;
      }
      ghost var rest := ParseRedirs(Tokens(s, at));
      if rest.Found? {
        MoreRedirs(s, rs, Redirection(w, kind == '<'), rest.redirs);
      }
      rs := rs + [Redirection(w, kind == '<')];
    }
  }

  lemma NoneRead(s: Text)
    ensures ReadRedirs(s, []) == [] && ReadArgs(s, []) == []
  {
  }

  lemma ArgsEnd(args: seq<string>, rs: seq<Redirection<string>>, ts: seq<Token>)
    requires ts == [] || EndsExec(ts[0])
    ensures ParseArgs(args, rs, ts) == Ok(Wrap(Exec(args), rs), ts)
  {
  }

  lemma ArgsMore(args: seq<string>, rs: seq<Redirection<string>>, t: Token, ts: seq<Token>)
    requires !EndsExec(t)
    ensures !t.Word? ==> ParseArgs(args, rs, [t] + ts) == Fault(BadToken)
    ensures t.Word? && |args| + 1 >= MAXARGS ==> ParseArgs(args, rs, [t] + ts) == Fault(TooManyArgs)
    ensures t.Word? && |args| + 1 < MAXARGS ==>
              var more := ParseRedirs(ts);
              ParseArgs(args, rs, [t] + ts) == if more.Missing? then Fault(MissingFile)
              else ParseArgs(args + [t.text], rs + more.redirs, more.left)
  {
  }

  lemma MoreArgs(s: Text, args: seq<Span>, w: Span, rs: seq<Redirection<Span>>, more: seq<Redirection<Span>>)
    ensures ReadArgs(s, args + [w]) == ReadArgs(s, args) + [Read(s, w)]
    ensures ReadRedirs(s, rs + more) == ReadRedirs(s, rs) + ReadRedirs(s, more)
    ensures |ReadArgs(s, args)| == |args|
  {
  }

  /** parseexec for a command without parentheses. The redirections are wrapped around the words at the end. */
  method Parsewords(s: Text, ps: nat) returns (r: Result)
    requires ps <= |s|
    ensures var more := ParseRedirs(Tokens(s, ps));
            Matches(s, ps, r, if more.Missing? then Fault(MissingFile) else ParseArgs([], more.redirs, more.left))
  {
    hide Tokens, SkipSpace, WordSpan, Read, ParseRedirs, ReadRedirs, ReadArgs, ParseArgs, EndsExec, IsSymbol, Wrap;
    NoneRead(s);
    var first := Parseredirs(s, ps);
    if first.NoFile? {
      return Failed(MissingFile);
    }
    var args: seq<Span>, rs, at := [], first.rs, first.ps;
    ghost var all := ParseArgs([], ReadRedirs(s, rs), Tokens(s, at));
    while true
      invariant ps <= at <= |s| && GoodArgs(s, args) && GoodRedirs(s, rs) && |args| < MAXARGS
      invariant all == ParseArgs(ReadArgs(s, args), ReadRedirs(s, rs), Tokens(s, at))
      decreases |s| - at
    {
      var hit, tok, w;
      hit, at := Peek(s, at, "|)&;");
      NextChar(s, at);
      ghost var ts := Tokens(s, at);
      if !hit {
        tok, w, at := Gettoken(s, at);
      }
      if hit || tok == NUL {
        ArgsEnd(ReadArgs(s, args), ReadRedirs(s, rs), ts);
        ReadWrap(s, Exec(args), rs);
        return Done(Wrap(Exec(args), rs), at);
      }
      MoreArgs(s, args, w, rs, []);
      ArgsMore(ReadArgs(s, args), ReadRedirs(s, rs), ts[0], Tokens(s, at));
      if tok != 'a' {
        return Failed(BadToken);
      }
      args := args + [w];
      if |args| >= MAXARGS {
        return Failed(TooManyArgs);
      }
      var more := Parseredirs(s, at);
      if more.NoFile? {
        return Failed(MissingFile);
      }
      MoreArgs(s, args, w, rs, more.rs);
      rs, at := rs + more.rs, more.ps;
    }
  }

  method Parseexec(s: Text, ps: nat) returns (r: Result)
    requires ps <= |s|
    ensures Matches(s, ps, r, ParseExec(Tokens(s, ps)))
    decreases |s| - ps, 1
  {
    hide Tokens, SkipSpace, Good, ReadCmd, ParseRedirs, ParseArgs, ParseBlock;
    var hit, at := Peek(s, ps, "(");
    NextChar(s, at);
    if hit {
      r := Parseblock(s, at);
    } else {
      r := Parsewords(s, at);
    }
  }

  method Parseblock(s: Text, ps: nat) returns (r: Result)
    requires ps <= |s| && Tokens(s, ps) != [] && Tokens(s, ps)[0].LParen?
    ensures Matches(s, ps, r, ParseBlock(Tokens(s, ps)))
    decreases |s| - ps, 0
  {
    hide Tokens, SkipSpace, Good, ReadCmd, ParseRedirs, ParseLine, GoodRedirs, ReadRedirs, Wrap;
    var tok, w, at, hit;
    tok, w, at := Gettoken(s, ps);
    assert Tokens(s, ps)[1..] == Tokens(s, at);
    var body := Parseline(s, at);
    if body.Failed? {
      return body;
    }
    hit, at := Peek(s, body.ps, ")");
    NextChar(s, at);
    if !hit {
      return Failed(MissingParen);
    }
    ghost var ts := Tokens(s, at);
    tok, w, at := Gettoken(s, at);
    assert ts[1..] == Tokens(s, at);
    var more := Parseredirs(s, at);
    if more.NoFile? {
      return Failed(MissingFile);
    }
    ReadWrap(s, body.cmd, more.rs);
    r := Done(Wrap(body.cmd, more.rs), more.ps);
  }

  method Parsepipe(s: Text, ps: nat) returns (r: Result)
    requires ps <= |s|
    ensures Matches(s, ps, r, ParsePipe(Tokens(s, ps)))
    decreases |s| - ps, 2
  {
    hide Tokens, SkipSpace, ParseExec;
    r := Parseexec(s, ps);
    if r.Done? {
      var hit, at, tok, w;
      hit, at := Peek(s, r.ps, "|");
      NextChar(s, at);
      ghost var ts := Tokens(s, at);
      if !hit {
        return Done(r.cmd, at);
      }
      tok, w, at := Gettoken(s, at);
      assert ts[1..] == Tokens(s, at);
      var right := Parsepipe(s, at);
      r := if right.Failed? then right else Done(Pipe(r.cmd, right.cmd), right.ps);
    }
  }

  /** The loop of parseline over ampersands. */
  method Parseamps(s: Text, cmd: Cmd<Span>, ps: nat) returns (r: Result)
    requires ps <= |s| && Good(s, cmd)
    ensures Matches(s, ps, r, ParseAmps(ReadCmd(s, cmd), Tokens(s, ps)))
  {
    hide Tokens, SkipSpace;
    var job, at := cmd, ps;
    ghost var all := ParseAmps(ReadCmd(s, cmd), Tokens(s, ps));
    while true
      invariant ps <= at <= |s| && Good(s, job) && all == ParseAmps(ReadCmd(s, job), Tokens(s, at))
      decreases |s| - at
    {
      var hit, tok, w;
      hit, at := Peek(s, at, "&");
      NextChar(s, at);
      if !hit {
        return Done(job, at);
      }
      ghost var ts := Tokens(s, at);
      tok, w, at := Gettoken(s, at);
      assert ts[1..] == Tokens(s, at);
      job := Back(job);
    }
  }

  method Parseline(s: Text, ps: nat) returns (r: Result)
    requires ps <= |s|
    ensures Matches(s, ps, r, ParseLine(Tokens(s, ps)))
    decreases |s| - ps, 3
  {
    hide Tokens, SkipSpace, ParsePipe, ParseAmps;
    r := Parsepipe(s, ps);
    if r.Done? {
      r := Parseamps(s, r.cmd, r.ps);
      var hit, at, tok, w;
      hit, at := Peek(s, r.ps, ";");
      NextChar(s, at);
      ghost var ts := Tokens(s, at);
      if !hit {
        return Done(r.cmd, at);
      }
      tok, w, at := Gettoken(s, at);
      assert ts[1..] == Tokens(s, at);
      var next := Parseline(s, at);
      r := if next.Failed? then next else Done(List(r.cmd, next.cmd), next.ps);
    }
  }

  // ---------------------------------------------------------------- strings in place

  /** The ends of a command's spans. */
  ghost function Ends(cmd: Cmd<Span>): set<nat> {
    match cmd
    case Exec(args) => set k | 0 <= k < |args| :: args[k].hi
    case Redir(c, file, _) => Ends(c) + {file.hi}
    case Pipe(l, r) => Ends(l) + Ends(r)
    case List(l, r) => Ends(l) + Ends(r)
    case Back(j) => Ends(j)
  }

  /** Put a NUL at the end of every span. */
  method Nulterminate(a: array<char>, cmd: Cmd<Span>)
    requires forall e | e in Ends(cmd) :: e < a.Length
    modifies a
    ensures forall k | 0 <= k < a.Length :: a[k] == if k in Ends(cmd) then NUL else old(a[k])
    decreases cmd
  {
    match cmd
    case Exec(args) =>
      var i := 0;
      while i < |args|
        invariant 0 <= i <= |args|
        invariant forall k | 0 <= k < a.Length :: a[k] == if EndAmong(args, i, k) then NUL else old(a[k])
      {
        assert args[i].hi in Ends(cmd);
        a[args[i].hi] := NUL;
        i := i + 1;
        EndMore(args, i, a.Length);
      }
      assert forall k :: EndAmong(args, |args|, k) <==> k in Ends(cmd);
    case Redir(c, file, _) =>
      assert Ends(c) <= Ends(cmd) && file.hi in Ends(cmd);
      Nulterminate(a, c);
      a[file.hi] := NUL;
    case Pipe(l, r) =>
      assert Ends(l) <= Ends(cmd) && Ends(r) <= Ends(cmd);
      Nulterminate(a, l);
      Nulterminate(a, r);
    case List(l, r) =>
      assert Ends(l) <= Ends(cmd) && Ends(r) <= Ends(cmd);
      Nulterminate(a, l);
      Nulterminate(a, r);
    case Back(j) =>
      assert Ends(j) <= Ends(cmd);
      Nulterminate(a, j);
  }

  ghost predicate EndAmong(args: seq<Span>, n: nat, k: int) {
    exists i :: 0 <= i < n && i < |args| && args[i].hi == k
  }

  lemma EndMore(args: seq<Span>, n: nat, len: nat)
    requires 0 < n <= |args|
    ensures forall k :: EndAmong(args, n, k) <==> EndAmong(args, n - 1, k) || k == args[n - 1].hi
  {
  }

  /** The C string at position i. */
  ghost function CString(a: seq<char>, i: nat): string
    decreases |a| - i
  {
    if i >= |a| || a[i] == NUL then "" else [a[i]] + CString(a, i + 1)
  }

  /** The command with the starts of its spans read as C strings. */
  ghost function Strings(a: seq<char>, cmd: Cmd<Span>): Cmd<string> {
    match cmd
    case Exec(args) => Exec(seq(|args|, i requires 0 <= i < |args| => CString(a, args[i].lo)))
    case Redir(c, file, input) => Redir(Strings(a, c), CString(a, file.lo), input)
    case Pipe(l, r) => Pipe(Strings(a, l), Strings(a, r))
    case List(l, r) => List(Strings(a, l), Strings(a, r))
    case Back(j) => Back(Strings(a, j))
  }

  lemma {:induction false} CStringIs(a: seq<char>, i: nat, hi: nat)
    requires i <= hi < |a| && a[hi] == NUL && forall k | i <= k < hi :: a[k] != NUL
    ensures CString(a, i) == a[i..hi]
    decreases hi - i
  {
    if i < hi {
      CStringIs(a, i + 1, hi);
      assert a[i..hi] == [a[i]] + a[i + 1..hi];
    }
  }

  /** The line with NULs at places that are no word characters, at least at those of ends. */
  ghost predicate Cut(s: Text, a: seq<char>, ends: set<nat>) {
    && |a| == |s| + 1 && a[|s|] == NUL
    && (forall k | 0 <= k < |s| && IsWordChar(s[k]) :: a[k] == s[k])
    && (forall e | e in ends && e < |a| :: a[e] == NUL)
  }

  lemma SpanReads(s: Text, a: seq<char>, w: Span, ends: set<nat>)
    requires Cut(s, a, ends) && WordSpan(s, w) && w.hi in ends
    ensures CString(a, w.lo) == Read(s, w)
  {
    CStringIs(a, w.lo, w.hi);
    assert a[w.lo..w.hi] == s[w.lo..w.hi];
  }

  lemma {:induction false} CmdReads(s: Text, a: seq<char>, cmd: Cmd<Span>, ends: set<nat>)
    requires Cut(s, a, ends) && Good(s, cmd) && Ends(cmd) <= ends
    ensures Strings(a, cmd) == ReadCmd(s, cmd)
  {
    hide Cut, WordSpan, CString, Read;
    match cmd
    case Exec(args) =>
      forall k | 0 <= k < |args|
        ensures CString(a, args[k].lo) == Read(s, args[k])
      {
        assert args[k].hi in Ends(cmd);
        SpanReads(s, a, args[k], ends);
      }
    case Redir(c, file, _) =>
      assert file.hi in Ends(cmd);
      SpanReads(s, a, file, ends);
      CmdReads(s, a, c, ends);
    case Pipe(l, r) =>
      CmdReads(s, a, l, ends);
      CmdReads(s, a, r, ends);
    case List(l, r) =>
      CmdReads(s, a, l, ends);
      CmdReads(s, a, r, ends);
    case Back(j) =>
      CmdReads(s, a, j, ends);
  }

  lemma {:induction false} EndsGood(s: Text, cmd: Cmd<Span>)
    requires Good(s, cmd)
    ensures forall e | e in Ends(cmd) :: e <= |s| && (e < |s| ==> !IsWordChar(s[e]))
  {
    match cmd
    case Exec(args) =>
    case Redir(c, _, _) => EndsGood(s, c);
    case Pipe(l, r) =>
      EndsGood(s, l);
      EndsGood(s, r);
    case List(l, r) =>
      EndsGood(s, l);
      EndsGood(s, r);
    case Back(j) => EndsGood(s, j);
  }

  /** Parse the line in the buffer; the words of the result are C strings in the buffer. */
  method Parsecmd(a: array<char>, s: Text) returns (r: Result)
    requires a[..] == s + [NUL]
    modifies a
    ensures var want := ParseCmd(Tokens(s, 0));
            if want.Fault? then r == Failed(want.why) else r.Done? && Strings(a[..], r.cmd) == want.cmd
  {
    hide Tokens, SkipSpace, ParseLine, Good, ReadCmd, Ends, Strings;
    r := Parseline(s, 0);
    if r.Done? {
      var hit, at := Peek(s, r.ps, "");
      NextChar(s, at);
      if at != |s| {
        return Failed(Leftovers);
      }
      EndsGood(s, r.cmd);
      assert a.Length == |s| + 1;
      Nulterminate(a, r.cmd);
      assert forall k | 0 <= k < |s| :: (s + [NUL])[k] == s[k];
      assert Cut(s, a[..], Ends(r.cmd));
      CmdReads(s, a[..], r.cmd, Ends(r.cmd));
    }
  }

  // ---------------------------------------------------------------- canonical lines

  ghost predicate WordsOk(t: Cmd<string>) {
    match t
    case Exec(args) => forall k | 0 <= k < |args| :: WordOk(args[k])
    case Redir(c, file, _) => WordsOk(c) && WordOk(file)
    case Pipe(l, r) => WordsOk(l) && WordsOk(r)
    case List(l, r) => WordsOk(l) && WordsOk(r)
    case Back(j) => WordsOk(j)
  }

  ghost predicate TokensOk(ts: seq<Token>) {
    forall k | 0 <= k < |ts| :: TokenOk(ts[k])
  }

  lemma OkBetween(a: seq<Token>, t: Token, b: seq<Token>)
    requires TokensOk(a) && TokensOk(b) && TokenOk(t)
    ensures TokensOk(a + [t] + b) && TokensOk(a + b) && TokensOk(a + [t]) && TokensOk([t] + b)
  {
  }

  lemma Parenthesized(ts: seq<Token>)
    requires TokensOk(ts)
    ensures TokensOk([LParen] + ts + [RParen])
  {
  }

  lemma {:induction false} LineOk(t: Cmd<string>)
    requires WordsOk(t)
    ensures TokensOk(LineTokens(t)) && TokensOk(BackTokens(t)) && TokensOk(PipeTokens(t)) && TokensOk(ExecTokens(t))
  {
    hide TokenOk, TokensOk;
    match t
    case Exec(args) =>
      assert TokensOk(WordTokens(args)) by { WordTokensOk(args); }
      assert ExecTokens(t) == PipeTokens(t) == BackTokens(t) == LineTokens(t);
    case Redir(c, file, input) =>
      LineOk(c);
      RedirOk(file, input);
      OkBetween(ExecTokens(c), Bar, RedirTokens([Redirection(file, input)])) by { SymbolsOk(); }
      assert ExecTokens(t) == PipeTokens(t) == BackTokens(t) == LineTokens(t);
    case Pipe(l, r) =>
      LineOk(l);
      LineOk(r);
      OkBetween(ExecTokens(l), Bar, PipeTokens(r)) by { SymbolsOk(); }
      assert PipeTokens(t) == BackTokens(t) == LineTokens(t);
      Parenthesized(LineTokens(t));
    case List(l, r) =>
      LineOk(l);
      LineOk(r);
      OkBetween(BackTokens(l), Semi, LineTokens(r)) by { SymbolsOk(); }
      Parenthesized(LineTokens(t));
      assert ExecTokens(t) == PipeTokens(t) == BackTokens(t);
    case Back(j) =>
      LineOk(j);
      OkBetween(BackTokens(j), Amp, BackTokens(j)) by { SymbolsOk(); }
      assert BackTokens(t) == LineTokens(t);
      Parenthesized(LineTokens(t));
      assert ExecTokens(t) == PipeTokens(t);
  }

  lemma SymbolsOk()
    ensures TokenOk(Bar) && TokenOk(Semi) && TokenOk(Amp)
  {
  }

  lemma WordTokensOk(args: seq<string>)
    requires forall k | 0 <= k < |args| :: WordOk(args[k])
    ensures TokensOk(WordTokens(args))
  {
  }

  lemma RedirOk(file: string, input: bool)
    requires WordOk(file)
    ensures TokensOk(RedirTokens([Redirection(file, input)]))
  {
  }

  /** A command written out in canonical form parses to itself. */
  lemma CanonicalLine(t: Cmd<string>)
    requires WordsOk(t) && Fits(t)
    ensures NoNul(Render(LineTokens(t))) && ParseCmd(Tokens(Render(LineTokens(t)), 0)) == Ok(t, [])
  {
    LineOk(t);
    assert TokensOk(LineTokens(t));
    RenderedTokens(LineTokens(t));
    PrintedParses(t);
  }

  // ---------------------------------------------------------------- what a line can parse to

  lemma {:induction false} CutTokensOk(line: Text, i: nat)
    requires i <= |line|
    ensures TokensOk(Tokens(line, i))
    decreases |line| - i
  {
    var j := SkipSpace(line, i);
    if j < |line| {
      CutTokensOk(line, TokenEnd(line, j));
      assert !IsSymbol(line[j]) ==> IsWordChar(line[j]) && j < WordEnd(line, j);
      assert TokenOk(TokenAt(line, j));
    }
  }

  ghost predicate RedirsOk(rs: seq<Redirection<string>>) {
    forall k | 0 <= k < |rs| :: WordOk(rs[k].file)
  }

  lemma {:induction false} RedirsWords(ts: seq<Token>)
    requires TokensOk(ts)
    ensures var r := ParseRedirs(ts); r.Found? ==> RedirsOk(r.redirs) && TokensOk(r.left)
  {
    hide WordOk;
    if |ts| > 1 && IsRedir(ts[0]) && ts[1].Word? {
      assert TokenOk(ts[1]);
      RedirsWords(ts[2..]);
    }
  }

  lemma {:induction false} WrapWords(t: Cmd<string>, rs: seq<Redirection<string>>)
    requires WordsOk(t) && RedirsOk(rs)
    ensures WordsOk(Wrap(t, rs))
    decreases |rs|
  {
    hide WordOk;
    if rs != [] {
      WrapWords(Redir(t, rs[0].file, rs[0].input), rs[1..]);
    }
  }

  lemma {:induction false} ArgsWords(args: seq<string>, rs: seq<Redirection<string>>, ts: seq<Token>)
    requires WordsOk(Exec(args)) && RedirsOk(rs) && TokensOk(ts)
    ensures var r := ParseArgs(args, rs, ts); r.Ok? ==> WordsOk(r.cmd) && TokensOk(r.rest)
    decreases |ts|
  {
    hide WordOk;
    if ts == [] || EndsExec(ts[0]) {
      WrapWords(Exec(args), rs);
    } else if ts[0].Word? && |args| + 1 < MAXARGS {
      assert TokenOk(ts[0]);
      RedirsWords(ts[1..]);
      var more := ParseRedirs(ts[1..]);
      if more.Found? {
        ArgsWords(args + [ts[0].text], rs + more.redirs, more.left);
      }
    }
  }

  lemma {:induction false} ExecWords(ts: seq<Token>)
    requires TokensOk(ts)
    ensures var r := ParseExec(ts); r.Ok? ==> WordsOk(r.cmd) && TokensOk(r.rest)
    decreases |ts|, 1
  {
    hide WordOk;
    if ts != [] && ts[0].LParen? {
      LineWords(ts[1..]);
      var body := ParseLine(ts[1..]);
      if body.Ok? && body.rest != [] && body.rest[0].RParen? {
        RedirsWords(body.rest[1..]);
        var more := ParseRedirs(body.rest[1..]);
        if more.Found? {
          WrapWords(body.cmd, more.redirs);
        }
      }
    } else {
      RedirsWords(ts);
      var more := ParseRedirs(ts);
      if more.Found? {
        ArgsWords([], more.redirs, more.left);
      }
    }
  }

  lemma {:induction false} PipeWords(ts: seq<Token>)
    requires TokensOk(ts)
    ensures var r := ParsePipe(ts); r.Ok? ==> WordsOk(r.cmd) && TokensOk(r.rest)
    decreases |ts|, 2
  {
    hide WordOk;
    ExecWords(ts);
    var left := ParseExec(ts);
    if left.Ok? && left.rest != [] && left.rest[0].Bar? {
      PipeWords(left.rest[1..]);
    }
  }

  lemma {:induction false} AmpsWords(cmd: Cmd<string>, ts: seq<Token>)
    requires WordsOk(cmd) && TokensOk(ts)
    ensures var r := ParseAmps(cmd, ts); WordsOk(r.cmd) && TokensOk(r.rest)
    decreases |ts|
  {
    hide WordOk;
    if ts != [] && ts[0].Amp? {
      AmpsWords(Back(cmd), ts[1..]);
    }
  }

  lemma {:induction false} LineWords(ts: seq<Token>)
    requires TokensOk(ts)
    ensures var r := ParseLine(ts); r.Ok? ==> WordsOk(r.cmd) && TokensOk(r.rest)
    decreases |ts|, 3
  {
    hide WordOk;
    PipeWords(ts);
    var pipe := ParsePipe(ts);
    if pipe.Ok? {
      AmpsWords(pipe.cmd, pipe.rest);
      var job := ParseAmps(pipe.cmd, pipe.rest);
      if job.rest != [] && job.rest[0].Semi? {
        LineWords(job.rest[1..]);
      }
    }
  }

  /** Some line parses to a command exactly if its words can be written and no part of it has too many. */
  lemma LineIff(t: Cmd<string>)
    ensures (exists line: Text :: ParseCmd(Tokens(line, 0)) == Ok(t, [])) <==> WordsOk(t) && Fits(t)
  {
    hide Tokens, ParseLine, WordsOk, TokensOk, Render;
    if WordsOk(t) && Fits(t) {
      CanonicalLine(t);
    }
    forall line: Text | ParseCmd(Tokens(line, 0)) == Ok(t, [])
      ensures WordsOk(t) && Fits(t)
    {
      CutTokensOk(line, 0);
      LineWords(Tokens(line, 0));
      ParsableIffFits(t);
    }
  }
}
