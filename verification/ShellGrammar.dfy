/**
 The grammar of sh.c over token sequences: what the recursive descent computes, and that
 it inverts the canonical printing of command trees.
 */
module ShellGrammar {
  const MAXARGS: nat := 10

  /** A command; words and file names are of type T. Input redirects descriptor 0, otherwise 1. */
  datatype Cmd<T> =
    | Exec(args: seq<T>)
    | Redir(cmd: Cmd<T>, file: T, input: bool)
    | Pipe(left: Cmd<T>, right: Cmd<T>)
    | List(first: Cmd<T>, second: Cmd<T>)
    | Back(job: Cmd<T>)

  datatype Redirection<T> = Redirection(file: T, input: bool)

  datatype Token = Word(text: string) | In | Out | Append | Bar | Amp | Semi | LParen | RParen

  datatype Why = MissingFile | MissingParen | BadToken | TooManyArgs | Leftovers
  datatype Parsed = Ok(cmd: Cmd<string>, rest: seq<Token>) | Fault(why: Why)
  datatype Redirs = Found(redirs: seq<Redirection<string>>, left: seq<Token>) | Missing

  /** The command inside its redirections, the first one innermost. */
  function Wrap<T>(cmd: Cmd<T>, rs: seq<Redirection<T>>): Cmd<T>
    decreases |rs|
  {
    if rs == [] then cmd else Wrap(Redir(cmd, rs[0].file, rs[0].input), rs[1..])
  }

  predicate IsRedir(t: Token) { t.In? || t.Out? || t.Append? }
  predicate EndsExec(t: Token) { t.Bar? || t.Amp? || t.Semi? || t.RParen? }

  /** parseredirs. */
  function ParseRedirs(ts: seq<Token>): (r: Redirs)
    ensures r.Found? ==> |r.left| <= |ts|
  {
    if ts == [] || !IsRedir(ts[0]) then Found([], ts)
    else if |ts| == 1 || !ts[1].Word? then Missing
    else
      var r := ParseRedirs(ts[2..]);
      if r.Missing? then Missing else Found([Redirection(ts[1].text, ts[0].In?)] + r.redirs, r.left)
  }

  /** The loop of parseexec over arguments, each followed by redirections. */
  function ParseArgs(args: seq<string>, rs: seq<Redirection<string>>, ts: seq<Token>): (r: Parsed)
    ensures r.Ok? ==> |r.rest| <= |ts|
    decreases |ts|
  {
    if ts == [] || EndsExec(ts[0]) then Ok(Wrap(Exec(args), rs), ts)
    else if !ts[0].Word? then Fault(BadToken)
    else if |args| + 1 >= MAXARGS then Fault(TooManyArgs)
    else
      var more := ParseRedirs(ts[1..]);
      if more.Missing? then Fault(MissingFile) else ParseArgs(args + [ts[0].text], rs + more.redirs, more.left)
  }

  function ParseBlock(ts: seq<Token>): (r: Parsed)
    requires ts != [] && ts[0].LParen?
    ensures r.Ok? ==> |r.rest| < |ts|
    decreases |ts|, 0
  {
    var body := ParseLine(ts[1..]);
    if body.Fault? then body
    else if body.rest == [] || !body.rest[0].RParen? then Fault(MissingParen)
    else
      var more := ParseRedirs(body.rest[1..]);
      if more.Missing? then Fault(MissingFile) else Ok(Wrap(body.cmd, more.redirs), more.left)
  }

  function ParseExec(ts: seq<Token>): (r: Parsed)
    ensures r.Ok? ==> |r.rest| <= |ts|
    decreases |ts|, 1
  {
    if ts != [] && ts[0].LParen? then ParseBlock(ts)
    else
      var more := ParseRedirs(ts);
      if more.Missing? then Fault(MissingFile) else ParseArgs([], more.redirs, more.left)
  }

  function ParsePipe(ts: seq<Token>): (r: Parsed)
    ensures r.Ok? ==> |r.rest| <= |ts|
    decreases |ts|, 2
  {
    var left := ParseExec(ts);
    if left.Fault? || left.rest == [] || !left.rest[0].Bar? then left
    else
      var right := ParsePipe(left.rest[1..]);
      if right.Fault? then right else Ok(Pipe(left.cmd, right.cmd), right.rest)
  }

  function ParseAmps(cmd: Cmd<string>, ts: seq<Token>): (r: Parsed)
    ensures r.Ok? && |r.rest| <= |ts|
    decreases |ts|
  {
    if ts == [] || !ts[0].Amp? then Ok(cmd, ts) else ParseAmps(Back(cmd), ts[1..])
  }

  function ParseLine(ts: seq<Token>): (r: Parsed)
    ensures r.Ok? ==> |r.rest| <= |ts|
    decreases |ts|, 3
  {
    var pipe := ParsePipe(ts);
    if pipe.Fault? then pipe
    else
      var job := ParseAmps(pipe.cmd, pipe.rest);
      if job.rest == [] || !job.rest[0].Semi? then job
      else
        var next := ParseLine(job.rest[1..]);
        if next.Fault? then next else Ok(List(job.cmd, next.cmd), next.rest)
  }

  function ParseCmd(ts: seq<Token>): Parsed {
    var r := ParseLine(ts);
    if r.Ok? && r.rest != [] then Fault(Leftovers) else r
  }

  // ---------------------------------------------------------------- printing

  function RedirTokens(rs: seq<Redirection<string>>): seq<Token> {
    if rs == [] then [] else [if rs[0].input then In else Out, Word(rs[0].file)] + RedirTokens(rs[1..])
  }

  function WordTokens(args: seq<string>): seq<Token> {
    seq(|args|, i requires 0 <= i < |args| => Word(args[i]))
  }

  /** The canonical form: parentheses only where the grammar needs them, redirections after the words. */
  function LineTokens(t: Cmd<string>): seq<Token>
    decreases t, 3
  {
    match t
    case List(first, second) => BackTokens(first) + [Semi] + LineTokens(second)
    case _ => BackTokens(t)
  }

  function BackTokens(t: Cmd<string>): seq<Token>
    decreases t, if t.List? then 6 else 2
  {
    match t
    case Back(job) => BackTokens(job) + [Amp]
    case _ => PipeTokens(t)
  }

  function PipeTokens(t: Cmd<string>): seq<Token>
    decreases t, if t.List? || t.Back? then 5 else 1
  {
    match t
    case Pipe(left, right) => ExecTokens(left) + [Bar] + PipeTokens(right)
    case _ => ExecTokens(t)
  }

  function ExecTokens(t: Cmd<string>): seq<Token>
    decreases t, if t.Exec? || t.Redir? then 0 else 4
  {
    match t
    case Exec(args) => WordTokens(args)
    case Redir(cmd, file, input) => ExecTokens(cmd) + RedirTokens([Redirection(file, input)])
    case _ => [LParen] + LineTokens(t) + [RParen]
  }

  /** What sh can represent: fewer than MAXARGS words in a command. */
  ghost predicate Fits<T>(t: Cmd<T>) {
    match t
    case Exec(args) => |args| < MAXARGS
    case Redir(cmd, _, _) => Fits(cmd)
    case Pipe(left, right) => Fits(left) && Fits(right)
    case List(first, second) => Fits(first) && Fits(second)
    case Back(job) => Fits(job)
  }

  // ---------------------------------------------------------------- parsing what was printed

  /** Tokens that can follow a command without continuing it. */
  predicate AfterExec(ts: seq<Token>) { ts == [] || EndsExec(ts[0]) }
  predicate AfterPipe(ts: seq<Token>) { ts == [] || ts[0].Amp? || ts[0].Semi? || ts[0].RParen? }
  predicate AfterJob(ts: seq<Token>) { ts == [] || ts[0].Semi? || ts[0].RParen? }
  predicate AfterLine(ts: seq<Token>) { ts == [] || ts[0].RParen? }

  lemma RedirStep(r: Redirection<string>, tail: seq<Token>)
    ensures var p := ParseRedirs(tail);
            ParseRedirs([if r.input then In else Out, Word(r.file)] + tail) == if p.Missing? then Missing
            else Found([r] + p.redirs, p.left)
  {
  }

  lemma NoRedirs(rest: seq<Token>)
    requires AfterExec(rest)
    ensures ParseRedirs(rest) == Found([], rest)
  {
  }

  lemma {:induction false} RedirsBack(rs: seq<Redirection<string>>, rest: seq<Token>)
    requires AfterExec(rest)
    ensures ParseRedirs(RedirTokens(rs) + rest) == Found(rs, rest)
  {
    hide ParseRedirs;
    if rs == [] {
      assert RedirTokens(rs) + rest == rest;
      NoRedirs(rest);
    } else {
      var r, tail := rs[0], RedirTokens(rs[1..]) + rest;
      assert RedirTokens(rs) + rest == [if r.input then In else Out, Word(r.file)] + tail;
      RedirStep(r, tail);
      RedirsBack(rs[1..], rest);
      assert rs == [r] + rs[1..];
    }
  }

  lemma ArgStep(args: seq<string>, w: string, tail: seq<Token>)
    requires |args| + 1 < MAXARGS
    ensures var more := ParseRedirs(tail);
            ParseArgs(args, [], [Word(w)] + tail) == if more.Missing? then Fault(MissingFile)
            else ParseArgs(args + [w], more.redirs, more.left)
  {
    assert ([Word(w)] + tail)[1..] == tail;
    var rs := ParseRedirs(tail);
    assert rs.Found? ==> [] + rs.redirs == rs.redirs;
  }

  lemma {:induction false} ArgsBack(args: seq<string>, more: seq<string>, rs: seq<Redirection<string>>,
                                    rest: seq<Token>)
    requires AfterExec(rest) && more != [] && |args| + |more| < MAXARGS
    ensures ParseArgs(args, [], WordTokens(more) + RedirTokens(rs) + rest) == Ok(Wrap(Exec(args + more), rs), rest)
    decreases |more|
  {
    hide RedirTokens, Wrap;
    var tail := WordTokens(more[1..]) + RedirTokens(rs) + rest;
    assert WordTokens(more) + RedirTokens(rs) + rest == [Word(more[0])] + tail;
    ArgStep(args, more[0], tail);
    assert args + more == args + [more[0]] + more[1..];
    if |more| == 1 {
      assert tail == RedirTokens(rs) + rest && args + more == args + [more[0]];
      RedirsBack(rs, rest);
    } else {
      assert tail[0] == Word(more[1]);
      ArgsBack(args + [more[0]], more[1..], rs, rest);
    }
  }

  lemma ExecOfWord(ts: seq<Token>)
    requires ts != [] && ts[0].Word?
    ensures ParseExec(ts) == ParseArgs([], [], ts)
  {
  }

  lemma ExecOfRedirs(ts: seq<Token>, rs: seq<Redirection<string>>, rest: seq<Token>)
    requires (ts == [] || !ts[0].LParen?) && ParseRedirs(ts) == Found(rs, rest) && AfterExec(rest)
    ensures ParseExec(ts) == Ok(Wrap(Exec([]), rs), rest)
  {
  }

  lemma RedirsFirst(rs: seq<Redirection<string>>, rest: seq<Token>)
    requires AfterExec(rest)
    ensures var ts := RedirTokens(rs) + rest; ts == [] || !ts[0].LParen?
  {
  }

  lemma WordsBack(args: seq<string>, rs: seq<Redirection<string>>, rest: seq<Token>)
    requires AfterExec(rest) && |args| < MAXARGS
    ensures ParseExec(WordTokens(args) + RedirTokens(rs) + rest) == Ok(Wrap(Exec(args), rs), rest)
  {
    hide ParseExec, ParseArgs, ParseRedirs, RedirTokens, Wrap;
    var ts := WordTokens(args) + RedirTokens(rs) + rest;
    if args == [] {
      assert ts == RedirTokens(rs) + rest;
      RedirsBack(rs, rest);
      RedirsFirst(rs, rest);
      ExecOfRedirs(ts, rs, rest);
    } else {
      assert ts[0] == Word(args[0]);
      ExecOfWord(ts);
      ArgsBack([], args, rs, rest);
      assert [] + args == args;
    }
  }

  lemma {:induction false} ExecBack(t: Cmd<string>, rs: seq<Redirection<string>>, rest: seq<Token>)
    requires Fits(t) && AfterExec(rest)
    ensures ParseExec(ExecTokens(t) + RedirTokens(rs) + rest) == Ok(Wrap(t, rs), rest)
    decreases t, if t.Exec? || t.Redir? then 0 else 5
  {
    match t
    case Exec(args) => WordsBack(args, rs, rest);
    case Redir(cmd, file, input) =>
      var r := Redirection(file, input);
      assert ([r] + rs)[1..] == rs;
      assert RedirTokens([r]) + RedirTokens(rs) == RedirTokens([r] + rs) by {
        assert [r][1..] == [];
      }
      assert ExecTokens(t) + RedirTokens(rs) + rest == ExecTokens(cmd) + RedirTokens([r] + rs) + rest;
      ExecBack(cmd, [r] + rs, rest);
    case _ =>
      BlockBack(t, rs, rest);
  }

  lemma {:induction false} BlockBack(t: Cmd<string>, rs: seq<Redirection<string>>, rest: seq<Token>)
    requires Fits(t) && AfterExec(rest) && !t.Exec? && !t.Redir?
    ensures ParseExec([LParen] + LineTokens(t) + [RParen] + RedirTokens(rs) + rest) == Ok(Wrap(t, rs), rest)
    decreases t, 4
  {
    hide LineTokens, RedirTokens, ParseLine, ParseRedirs, Wrap;
    var ts := [LParen] + LineTokens(t) + [RParen] + RedirTokens(rs) + rest;
    var after := [RParen] + (RedirTokens(rs) + rest);
    assert ts[1..] == LineTokens(t) + after;
    LineBack(t, after);
    assert after[1..] == RedirTokens(rs) + rest;
    RedirsBack(rs, rest);
  }

  lemma {:induction false} PipeBack(t: Cmd<string>, rest: seq<Token>)
    requires Fits(t) && AfterPipe(rest)
    ensures ParsePipe(PipeTokens(t) + rest) == Ok(t, rest)
    decreases t, if t.List? || t.Back? then 6 else 1
  {
    match t
    case Pipe(left, right) =>
      var after := [Bar] + (PipeTokens(right) + rest);
      assert PipeTokens(t) + rest == ExecTokens(left) + RedirTokens([]) + after;
      ExecBack(left, [], after);
      assert after[1..] == PipeTokens(right) + rest;
      PipeBack(right, rest);
    case _ =>
      assert PipeTokens(t) + rest == ExecTokens(t) + RedirTokens([]) + rest;
      ExecBack(t, [], rest);
  }

  function Amps(k: nat): seq<Token> {
    seq(k, _ => Amp)
  }

  function Backs(t: Cmd<string>, k: nat): Cmd<string>
    decreases k
  {
    if k == 0 then t else Backs(Back(t), k - 1)
  }

  lemma {:induction false} AmpsBack(t: Cmd<string>, k: nat, rest: seq<Token>)
    requires AfterJob(rest)
    ensures ParseAmps(t, Amps(k) + rest) == Ok(Backs(t, k), rest)
    decreases k
  {
    var ts := Amps(k) + rest;
    if k == 0 {
      assert ts == rest;
    } else {
      assert ts[1..] == Amps(k - 1) + rest;
      AmpsBack(Back(t), k - 1, rest);
    }
  }

  /** A job printed with k more ampersands behind it. */
  lemma {:induction false} JobBack(t: Cmd<string>, k: nat, rest: seq<Token>)
    requires Fits(t) && AfterJob(rest)
    ensures var pipe := ParsePipe(BackTokens(t) + Amps(k) + rest);
            pipe.Ok? && ParseAmps(pipe.cmd, pipe.rest) == Ok(Backs(t, k), rest)
    decreases t, if t.List? then 7 else 2
  {
    match t
    case Back(job) =>
      assert [Amp] + Amps(k) == Amps(k + 1);
      assert BackTokens(t) + Amps(k) + rest == BackTokens(job) + Amps(k + 1) + rest;
      JobBack(job, k + 1, rest);
    case _ =>
      assert BackTokens(t) + Amps(k) + rest == PipeTokens(t) + (Amps(k) + rest);
      assert Amps(k) + rest == if k == 0 then rest else [Amp] + (Amps(k - 1) + rest);
      PipeBack(t, Amps(k) + rest);
      AmpsBack(t, k, rest);
  }

  lemma {:induction false} LineBack(t: Cmd<string>, rest: seq<Token>)
    requires Fits(t) && AfterLine(rest)
    ensures ParseLine(LineTokens(t) + rest) == Ok(t, rest)
    decreases t, 3
  {
    match t
    case List(first, second) =>
      var after := [Semi] + (LineTokens(second) + rest);
      assert LineTokens(t) + rest == BackTokens(first) + Amps(0) + after;
      JobBack(first, 0, after);
      assert after[1..] == LineTokens(second) + rest;
      LineBack(second, rest);
    case _ =>
      assert LineTokens(t) + rest == BackTokens(t) + Amps(0) + rest;
      JobBack(t, 0, rest);
  }

  /** Parsing the canonical form of a command gives the command back. */
  lemma PrintedParses(t: Cmd<string>)
    requires Fits(t)
    ensures ParseCmd(LineTokens(t)) == Ok(t, [])
  {
    assert LineTokens(t) + [] == LineTokens(t);
    LineBack(t, []);
  }

  // ---------------------------------------------------------------- only what fits is parsed

  lemma {:induction false} WrapFits(t: Cmd<string>, rs: seq<Redirection<string>>)
    requires Fits(t)
    ensures Fits(Wrap(t, rs))
    decreases |rs|
  {
    if rs != [] {
      WrapFits(Redir(t, rs[0].file, rs[0].input), rs[1..]);
    }
  }

  lemma {:induction false} ArgsFit(args: seq<string>, rs: seq<Redirection<string>>, ts: seq<Token>)
    requires |args| < MAXARGS
    ensures var r := ParseArgs(args, rs, ts); r.Ok? ==> Fits(r.cmd)
    decreases |ts|
  {
    if ts == [] || EndsExec(ts[0]) {
      WrapFits(Exec(args), rs);
    } else if ts[0].Word? && |args| + 1 < MAXARGS {
      var more := ParseRedirs(ts[1..]);
      if more.Found? {
        ArgsFit(args + [ts[0].text], rs + more.redirs, more.left);
      }
    }
  }

  lemma {:induction false} ExecFits(ts: seq<Token>)
    ensures var r := ParseExec(ts); r.Ok? ==> Fits(r.cmd)
    decreases |ts|, 1
  {
    if ts != [] && ts[0].LParen? {
      LineFits(ts[1..]);
      var body := ParseLine(ts[1..]);
      if body.Ok? && body.rest != [] && body.rest[0].RParen? {
        var more := ParseRedirs(body.rest[1..]);
        if more.Found? {
          WrapFits(body.cmd, more.redirs);
        }
      }
    } else {
      var more := ParseRedirs(ts);
      if more.Found? {
        ArgsFit([], more.redirs, more.left);
      }
    }
  }

  lemma {:induction false} PipeFits(ts: seq<Token>)
    ensures var r := ParsePipe(ts); r.Ok? ==> Fits(r.cmd)
    decreases |ts|, 2
  {
    ExecFits(ts);
    var left := ParseExec(ts);
    if left.Ok? && left.rest != [] && left.rest[0].Bar? {
      PipeFits(left.rest[1..]);
    }
  }

  lemma {:induction false} AmpsFit(cmd: Cmd<string>, ts: seq<Token>)
    requires Fits(cmd)
    ensures Fits(ParseAmps(cmd, ts).cmd)
    decreases |ts|
  {
    if ts != [] && ts[0].Amp? {
      AmpsFit(Back(cmd), ts[1..]);
    }
  }

  lemma {:induction false} LineFits(ts: seq<Token>)
    ensures var r := ParseLine(ts); r.Ok? ==> Fits(r.cmd)
    decreases |ts|, 3
  {
    PipeFits(ts);
    var pipe := ParsePipe(ts);
    if pipe.Ok? {
      AmpsFit(pipe.cmd, pipe.rest);
      var job := ParseAmps(pipe.cmd, pipe.rest);
      if job.rest != [] && job.rest[0].Semi? {
        LineFits(job.rest[1..]);
      }
    }
  }

  /** A command can be had by parsing exactly when no part of it has MAXARGS or more words. */
  lemma ParsableIffFits(t: Cmd<string>)
    ensures (exists ts :: ParseCmd(ts) == Ok(t, [])) <==> Fits(t)
  {
    if Fits(t) {
      PrintedParses(t);
    }
    forall ts | ParseCmd(ts) == Ok(t, [])
      ensures Fits(t)
    {
      LineFits(ts);
    }
  }
}
