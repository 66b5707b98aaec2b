/**
 The grammar of command lines, over tokens. `Line`, `Pipeline`, `Command` and `Redirections` say which
 trees a sequence of tokens stands for; the recursive descent of sh.c, as a function on tokens, finds
 exactly those.
 */
module ShellGrammar {
  import opened Options

  const MAXARGS := 10

  /** A string in the buffer, from `q` up to but not including `eq`. */
  datatype Span = Span(q: nat, eq: nat)

  /** A redirection: its file, opened for writing or reading. */
  datatype Redirection = Redirection(file: Span, write: bool)

  datatype Cmd =
    | Exec(argv: seq<Span>)
    | Redir(cmd: Cmd, redir: Redirection)
    | Pipe(left: Cmd, right: Cmd)
    | List(left: Cmd, right: Cmd)
    | Back(cmd: Cmd)

  /** A token: 'a' for a word, '+' for >>, otherwise the symbol itself. */
  datatype Tok = Tok(kind: char, w: Span)

  type Toks = seq<Tok>

  predicate Starts(ts: Toks, kind: char) {
    ts != [] && ts[0].kind == kind
  }

  predicate RedirKind(k: char) {
    k == '<' || k == '>' || k == '+'
  }

  /** The command inside its redirections, the last one outermost. */
  function Wrap(cmd: Cmd, rs: seq<Redirection>): Cmd {
    if rs == [] then cmd else Redir(Wrap(cmd, rs[..|rs| - 1]), rs[|rs| - 1])
  }

  function Backs(cmd: Cmd, n: nat): Cmd {
    if n == 0 then cmd else Back(Backs(cmd, n - 1))
  }

  // ----- The grammar -----

  /** Pairs of a redirection symbol and a word. */
  ghost predicate Redirections(ts: Toks, rs: seq<Redirection>) {
    if ts == [] then rs == []
    else
      && |ts| >= 2 && RedirKind(ts[0].kind) && ts[1].kind == 'a' && rs != []
      && rs[0] == Redirection(ts[1].w, ts[0].kind != '<') && Redirections(ts[2..], rs[1..])
  }

  /** Words and redirections in any order. */
  ghost predicate Words(ts: Toks, argv: seq<Span>, rs: seq<Redirection>) {
    if ts == [] then argv == [] && rs == []
    else if ts[0].kind == 'a' then argv != [] && argv[0] == ts[0].w && Words(ts[1..], argv[1..], rs)
    else
      && |ts| >= 2 && RedirKind(ts[0].kind) && ts[1].kind == 'a' && rs != []
      && rs[0] == Redirection(ts[1].w, ts[0].kind != '<') && Words(ts[2..], argv, rs[1..])
  }

  /** Parentheses around the tokens `1..k`. */
  predicate Block(ts: Toks, k: int) {
    Starts(ts, '(') && 1 <= k < |ts| && ts[k].kind == ')'
  }

  /** A simple command of fewer than MAXARGS words, or a line in parentheses and its redirections. */
  ghost predicate Command(ts: Toks, cmd: Cmd)
    decreases |ts|, 0
  {
    || (exists argv, rs :: Words(ts, argv, rs) && |argv| < MAXARGS && cmd == Wrap(Exec(argv), rs))
    || (exists k, inner, rs :: Block(ts, k) && Line(ts[1..k], inner) && Redirections(ts[k + 1..], rs) && cmd == Wrap(inner, rs))
  }

  /** Commands separated by | */
  ghost predicate Pipeline(ts: Toks, cmd: Cmd)
    decreases |ts|, 1
  {
    || Command(ts, cmd)
    || (exists k :: 0 <= k < |ts| && ts[k].kind == '|' && cmd.Pipe? && Command(ts[..k], cmd.left) && Pipeline(ts[k + 1..], cmd.right))
  }

  ghost predicate Amps(ts: Toks) {
    forall i :: 0 <= i < |ts| ==> ts[i].kind == '&'
  }

  /** A pipeline in the background as often as & follows it. */
  ghost predicate Job(ts: Toks, cmd: Cmd)
    decreases |ts|, 2
  {
    exists k, c :: 0 <= k <= |ts| && Pipeline(ts[..k], c) && Amps(ts[k..]) && cmd == Backs(c, |ts| - k)
  }

  /** Jobs separated by ; */
  ghost predicate Line(ts: Toks, cmd: Cmd)
    decreases |ts|, 3
  {
    || Job(ts, cmd)
    || (exists k :: 0 <= k < |ts| && ts[k].kind == ';' && cmd.List? && Job(ts[..k], cmd.left) && Line(ts[k + 1..], cmd.right))
  }

  // ----- The recursive descent -----

  /** A result and the tokens left. */
  datatype Rest<T> = Rest(value: T, ts: Toks)

  function TakeRedirs(ts: Toks): (r: Option<Rest<seq<Redirection>>>)
    ensures r.Some? ==> |r.value.ts| <= |ts|
  {
    if ts == [] || !RedirKind(ts[0].kind) then Some(Rest([], ts))
    else if |ts| < 2 || ts[1].kind != 'a' then None
    else
      match TakeRedirs(ts[2..])
      case None => None
      case Some(x) => Some(Rest([Redirection(ts[1].w, ts[0].kind != '<')] + x.value, x.ts))
  }

  predicate Stop(k: char) {
    k == '|' || k == ')' || k == '&' || k == ';'
  }

  function TakeWords(ts: Toks, argv: seq<Span>, rs: seq<Redirection>): (r: Option<Rest<(seq<Span>, seq<Redirection>)>>)
    ensures r.Some? ==> |r.value.ts| <= |ts|
    decreases |ts|
  {
    if ts == [] || Stop(ts[0].kind) then Some(Rest((argv, rs), ts))
    else if ts[0].kind != 'a' || |argv| + 1 >= MAXARGS then None
    else
      match TakeRedirs(ts[1..])
      case None => None
      case Some(x) => TakeWords(x.ts, argv + [ts[0].w], rs + x.value)
  }

  function TakeCommand(ts: Toks): (r: Option<Rest<Cmd>>)
    ensures r.Some? ==> |r.value.ts| <= |ts|
    decreases |ts|, 1
  {
    if Starts(ts, '(') then TakeBlock(ts)
    else
      match TakeRedirs(ts)
      case None => None
      case Some(x) =>
        match TakeWords(x.ts, [], x.value)
        case None => None
        case Some(y) => Some(Rest(Wrap(Exec(y.value.0), y.value.1), y.ts))
  }

  function TakeBlock(ts: Toks): (r: Option<Rest<Cmd>>)
    requires Starts(ts, '(')
    ensures r.Some? ==> |r.value.ts| <= |ts|
    decreases |ts|, 0
  {
    match TakeLine(ts[1..])
    case None => None
    case Some(x) =>
      if !Starts(x.ts, ')') then None
      else
        match TakeRedirs(x.ts[1..])
        case None => None
        case Some(y) => Some(Rest(Wrap(x.value, y.value), y.ts))
  }

  function TakePipe(ts: Toks): (r: Option<Rest<Cmd>>)
    ensures r.Some? ==> |r.value.ts| <= |ts|
    decreases |ts|, 2
  {
    match TakeCommand(ts)
    case None => None
    case Some(x) =>
      if !Starts(x.ts, '|') then Some(x)
      else
        match TakePipe(x.ts[1..])
        case None => None
        case Some(y) => Some(Rest(Pipe(x.value, y.value), y.ts))
  }

  function TakeAmps(cmd: Cmd, ts: Toks): (r: Rest<Cmd>)
    ensures |r.ts| <= |ts|
    decreases |ts|
  {
    if Starts(ts, '&') then TakeAmps(Back(cmd), ts[1..]) else Rest(cmd, ts)
  }

  function TakeLine(ts: Toks): (r: Option<Rest<Cmd>>)
    ensures r.Some? ==> |r.value.ts| <= |ts|
    decreases |ts|, 3
  {
    match TakePipe(ts)
    case None => None
    case Some(x) =>
      var y := TakeAmps(x.value, x.ts);
      if !Starts(y.ts, ';') then Some(y)
      else
        match TakeLine(y.ts[1..])
        case None => None
        case Some(z) => Some(Rest(List(y.value, z.value), z.ts))
  }

  // ----- Building derivations -----

  lemma {:induction false} RedirectionsIntro(t: Tok, w: Tok, a: Toks, rs: seq<Redirection>)
    requires RedirKind(t.kind) && w.kind == 'a' && Redirections(a, rs)
    ensures Redirections([t, w] + a, [Redirection(w.w, t.kind != '<')] + rs)
  {
    assert ([t, w] + a)[2..] == a && ([Redirection(w.w, t.kind != '<')] + rs)[1..] == rs;
  }

  lemma {:induction false} WordsIntro(t: Tok, a: Toks, argv: seq<Span>, rs: seq<Redirection>)
    requires t.kind == 'a' && Words(a, argv, rs)
    ensures Words([t] + a, [t.w] + argv, rs)
  {
    assert ([t] + a)[1..] == a && ([t.w] + argv)[1..] == argv;
  }

  /** Redirections before words and redirections. */
  lemma {:induction false} WordsAfter(a: Toks, rs: seq<Redirection>, b: Toks, argv: seq<Span>, more: seq<Redirection>)
    requires Redirections(a, rs) && Words(b, argv, more)
    ensures Words(a + b, argv, rs + more)
    decreases |a|
  {
    if a == [] {
      assert a + b == b && rs + more == more;
    } else {
      WordsAfter(a[2..], rs[1..], b, argv, more);
      assert (a + b)[2..] == a[2..] + b && (rs + more)[1..] == rs[1..] + more;
    }
  }

  lemma {:induction false} BlockIntro(open: Tok, a: Toks, close: Tok, b: Toks, inner: Cmd, rs: seq<Redirection>)
    requires open.kind == '(' && close.kind == ')' && Line(a, inner) && Redirections(b, rs)
    ensures Command([open] + a + [close] + b, Wrap(inner, rs))
  {
    var ts, k := [open] + a + [close] + b, |a| + 1;
    assert ts[1..k] == a && ts[k + 1..] == b && Block(ts, k);
  }

  lemma {:induction false} PipelineIntro(a: Toks, bar: Tok, b: Toks, l: Cmd, r: Cmd)
    requires Command(a, l) && bar.kind == '|' && Pipeline(b, r)
    ensures Pipeline(a + [bar] + b, Pipe(l, r))
  {
    var ts := a + [bar] + b;
    assert ts[..|a|] == a && ts[|a| + 1..] == b && ts[|a|] == bar;
  }

  lemma {:induction false} JobIntro(a: Toks, b: Toks, c: Cmd)
    requires Pipeline(a, c) && Amps(b)
    ensures Job(a + b, Backs(c, |b|))
  {
    var ts := a + b;
    assert ts[..|a|] == a && ts[|a|..] == b;
  }

  lemma {:induction false} LineIntro(a: Toks, semi: Tok, b: Toks, l: Cmd, r: Cmd)
    requires Job(a, l) && semi.kind == ';' && Line(b, r)
    ensures Line(a + [semi] + b, List(l, r))
  {
    var ts := a + [semi] + b;
    assert ts[..|a|] == a && ts[|a| + 1..] == b && ts[|a|] == semi;
  }

  /** Parts taken one after the other are one part. */
  lemma {:induction false} Glue<T>(a: seq<T>, b: seq<T>, c: seq<T>)
    ensures a + (b + c) == a + b + c
  {
  }

  // ----- What the descent finds is derived -----

  lemma {:induction false} SoundRedirs(ts: Toks) returns (a: Toks)
    requires TakeRedirs(ts).Some?
    ensures var x := TakeRedirs(ts).value; ts == a + x.ts && Redirections(a, x.value)
    decreases |ts|
  {
    a := [];
    if ts != [] && RedirKind(ts[0].kind) {
      var b := SoundRedirs(ts[2..]);
      RedirectionsIntro(ts[0], ts[1], b, TakeRedirs(ts[2..]).value.value);
      a := [ts[0], ts[1]] + b;
      assert ts == [ts[0], ts[1]] + ts[2..];
    }
  }

  lemma {:induction false} SoundWords(ts: Toks, argv: seq<Span>, rs: seq<Redirection>)
    returns (a: Toks, argv': seq<Span>, rs': seq<Redirection>)
    requires |argv| < MAXARGS && TakeWords(ts, argv, rs).Some?
    ensures var x := TakeWords(ts, argv, rs).value;
            ts == a + x.ts && x.value == (argv + argv', rs + rs') && |x.value.0| < MAXARGS && Words(a, argv', rs')
    decreases |ts|
  {
    a, argv', rs' := [], [], [];
    if ts == [] || Stop(ts[0].kind) {
      assert argv + [] == argv && rs + [] == rs;
    } else {
      hide Words, Redirections, TakeRedirs;
      var x := TakeRedirs(ts[1..]).value;
      var b := SoundRedirs(ts[1..]);
      var c, argv2, rs2 := SoundWords(x.ts, argv + [ts[0].w], rs + x.value);
      WordsAfter(b, x.value, c, argv2, rs2);
      WordsIntro(ts[0], b + c, argv2, x.value + rs2);
      a, argv', rs' := [ts[0]] + (b + c), [ts[0].w] + argv2, x.value + rs2;
      var rest := TakeWords(ts, argv, rs).value.ts;
      calc {
        ts;
        [ts[0]] + ts[1..];
        [ts[0]] + (b + (c + rest));
        { Glue(b, c, rest); }
        [ts[0]] + ((b + c) + rest);
        { Glue([ts[0]], b + c, rest); }
        a + rest;
      }
      Glue(argv, [ts[0].w], argv2);
      Glue(rs, x.value, rs2);
    }
  }

  lemma {:induction false} SoundCommand(ts: Toks) returns (a: Toks)
    requires TakeCommand(ts).Some?
    ensures var x := TakeCommand(ts).value; ts == a + x.ts && Command(a, x.value)
    decreases |ts|, 1
  {
    if Starts(ts, '(') {
      a := SoundBlock(ts);
    } else {
      hide Words, Redirections;
      var x := TakeRedirs(ts).value;
      var b := SoundRedirs(ts);
      var c, argv, rs := SoundWords(x.ts, [], x.value);
      WordsAfter(b, x.value, c, argv, rs);
      a := b + c;
      assert [] + argv == argv;
    }
  }

  lemma {:induction false} SoundBlock(ts: Toks) returns (a: Toks)
    requires Starts(ts, '(') && TakeBlock(ts).Some?
    ensures var x := TakeBlock(ts).value; ts == a + x.ts && Command(a, x.value)
    decreases |ts|, 0
  {
    hide Command, Line, Redirections;
    var x := TakeLine(ts[1..]).value;
    var b := SoundLine(ts[1..]);
    var c := SoundRedirs(x.ts[1..]);
    var y := TakeRedirs(x.ts[1..]).value;
    BlockIntro(ts[0], b, x.ts[0], c, x.value, y.value);
    a := [ts[0]] + b + [x.ts[0]] + c;
    calc {
      ts;
      [ts[0]] + ts[1..];
      [ts[0]] + (b + ([x.ts[0]] + (c + y.ts)));
      { Glue([x.ts[0]], c, y.ts); }
      [ts[0]] + (b + ([x.ts[0]] + c + y.ts));
      { Glue([ts[0]], b, [x.ts[0]] + c + y.ts); }
      [ts[0]] + b + ([x.ts[0]] + c + y.ts);
      { Glue([ts[0]] + b, [x.ts[0]] + c, y.ts); Glue([ts[0]] + b, [x.ts[0]], c); }
      a + y.ts;
    }
  }

  lemma {:induction false} SoundPipe(ts: Toks) returns (a: Toks)
    requires TakePipe(ts).Some?
    ensures var x := TakePipe(ts).value; ts == a + x.ts && Pipeline(a, x.value)
    decreases |ts|, 2
  {
    hide Command;
    var x := TakeCommand(ts).value;
    a := SoundCommand(ts);
    if Starts(x.ts, '|') {
      var b := SoundPipe(x.ts[1..]);
      PipelineIntro(a, x.ts[0], b, x.value, TakePipe(x.ts[1..]).value.value);
      a := a + [x.ts[0]] + b;
      assert x.ts == [x.ts[0]] + x.ts[1..];
    }
  }

  lemma {:induction false} BacksIn(cmd: Cmd, n: nat)
    ensures Backs(Back(cmd), n) == Backs(cmd, n + 1)
  {
    if n > 0 {
      BacksIn(cmd, n - 1);
    }
  }

  lemma {:induction false} SoundAmps(cmd: Cmd, ts: Toks) returns (a: Toks)
    ensures var x := TakeAmps(cmd, ts); ts == a + x.ts && Amps(a) && x.value == Backs(cmd, |a|)
    decreases |ts|
  {
    a := [];
    if Starts(ts, '&') {
      var b := SoundAmps(Back(cmd), ts[1..]);
      BacksIn(cmd, |b|);
      a := [ts[0]] + b;
      assert ts == [ts[0]] + ts[1..];
    }
  }

  lemma {:induction false} SoundLine(ts: Toks) returns (a: Toks)
    requires TakeLine(ts).Some?
    ensures var x := TakeLine(ts).value; ts == a + x.ts && Line(a, x.value)
    decreases |ts|, 3
  {
    hide Pipeline, Job, Amps, TakePipe, TakeAmps;
    var x := TakePipe(ts).value;
    var b := SoundPipe(ts);
    var y := TakeAmps(x.value, x.ts);
    var c := SoundAmps(x.value, x.ts);
    JobIntro(b, c, x.value);
    Glue(b, c, y.ts);
    a := b + c;
    if Starts(y.ts, ';') {
      var z := TakeLine(y.ts[1..]).value;
      var d := SoundLine(y.ts[1..]);
      LineIntro(a, y.ts[0], d, y.value, z.value);
      assert y.ts == [y.ts[0]] + y.ts[1..];
      Glue([y.ts[0]], d, z.ts);
      Glue(a, [y.ts[0]] + d, z.ts);
      Glue(a, [y.ts[0]], d);
      a := a + [y.ts[0]] + d;
    }
  }

  // ----- What is derived the descent finds -----

  /** Tokens that may follow a command, a pipeline, a job, a line. */
  predicate AfterCommand(rest: Toks) {
    rest == [] || Stop(rest[0].kind)
  }

  predicate AfterPipeline(rest: Toks) {
    AfterCommand(rest) && !Starts(rest, '|')
  }

  predicate AfterJob(rest: Toks) {
    AfterPipeline(rest) && !Starts(rest, '&')
  }

  predicate AfterLine(rest: Toks) {
    AfterJob(rest) && !Starts(rest, ';')
  }

  /** What comes from token `k` on, when `rest` follows. */
  function After(a: Toks, k: nat, rest: Toks): (r: Toks)
    requires k < |a|
    ensures r != [] && r[0] == a[k] && r[1..] == a[k + 1..] + rest && a + rest == a[..k] + r
  {
    [a[k]] + (a[k + 1..] + rest)
  }

  lemma {:induction false} FindRedirs(a: Toks, rs: seq<Redirection>, rest: Toks)
    requires Redirections(a, rs) && (rest == [] || !RedirKind(rest[0].kind))
    ensures TakeRedirs(a + rest) == Some(Rest(rs, rest))
    decreases |a|
  {
    if a == [] {
      assert a + rest == rest;
    } else {
      FindRedirs(a[2..], rs[1..], rest);
      assert (a + rest)[2..] == a[2..] + rest && (a + rest)[0] == a[0] && (a + rest)[1] == a[1];
      assert rs == [rs[0]] + rs[1..];
    }
  }

  /** Words and redirections begin with redirections, up to the first word. */
  lemma {:induction false} SplitWords(ts: Toks, argv: seq<Span>, rs: seq<Redirection>)
    returns (a: Toks, b: Toks, rs1: seq<Redirection>, rs2: seq<Redirection>)
    requires Words(ts, argv, rs)
    ensures ts == a + b && rs == rs1 + rs2 && Redirections(a, rs1) && Words(b, argv, rs2) && (b == [] || b[0].kind == 'a')
    decreases |ts|
  {
    if ts == [] || ts[0].kind == 'a' {
      a, b, rs1, rs2 := [], ts, [], rs;
    } else {
      var c, r1;
      c, b, r1, rs2 := SplitWords(ts[2..], argv, rs[1..]);
      RedirectionsIntro(ts[0], ts[1], c, r1);
      a, rs1 := [ts[0], ts[1]] + c, [rs[0]] + r1;
      assert ts == [ts[0], ts[1]] + ts[2..] && rs == [rs[0]] + rs[1..];
    }
  }

  lemma {:induction false} TailGlue(a: Toks, b: Toks, c: Toks, rest: Toks)
    requires a != [] && a[1..] == b + c
    ensures a + rest != [] && (a + rest)[0] == a[0] && (a + rest)[1..] == b + (c + rest)
  {
    assert (a + rest)[1..] == a[1..] + rest;
  }

  lemma {:induction false} FindWords(a: Toks, argv: seq<Span>, rs: seq<Redirection>, rest: Toks, argv0: seq<Span>, rs0: seq<Redirection>)
    requires Words(a, argv, rs) && (a == [] || a[0].kind == 'a') && AfterCommand(rest) && |argv0| + |argv| < MAXARGS
    ensures TakeWords(a + rest, argv0, rs0) == Some(Rest((argv0 + argv, rs0 + rs), rest))
    decreases |a|
  {
    if a == [] {
      assert a + rest == rest && argv0 + [] == argv0 && rs0 + [] == rs0;
    } else {
      var w := a[0].w;
      var b, c, rs1, rs2 := SplitWords(a[1..], argv[1..], rs);
      assert argv == [w] + argv[1..];
      hide Words, Redirections, TakeRedirs;
      FindRedirs(b, rs1, c + rest);
      FindWords(c, argv[1..], rs2, rest, argv0 + [w], rs0 + rs1);
      TailGlue(a, b, c, rest);
      Glue(argv0, [w], argv[1..]);
      Glue(rs0, rs1, rs2);
    }
  }

  lemma {:induction false} FindCommand(a: Toks, cmd: Cmd, rest: Toks)
    requires Command(a, cmd) && AfterCommand(rest)
    ensures TakeCommand(a + rest) == Some(Rest(cmd, rest))
    decreases |a|, 1
  {
    if argv, rs :| Words(a, argv, rs) && |argv| < MAXARGS && cmd == Wrap(Exec(argv), rs) {
      FindSimple(a, argv, rs, rest);
    } else {
      var k, inner, rs :| Block(a, k) && Line(a[1..k], inner) && Redirections(a[k + 1..], rs) && cmd == Wrap(inner, rs);
      FindBlock(a, k, inner, rs, rest);
    }
  }

  lemma {:induction false} FindBlock(a: Toks, k: nat, inner: Cmd, rs: seq<Redirection>, rest: Toks)
    requires Block(a, k) && Line(a[1..k], inner) && Redirections(a[k + 1..], rs) && AfterCommand(rest)
    ensures TakeBlock(a + rest) == Some(Rest(Wrap(inner, rs), rest))
    decreases |a|, 0
  {
    hide Line, Redirections, TakeLine, TakeRedirs, After;
    var after := After(a, k, rest);
    FindLine(a[1..k], inner, after);
    FindRedirs(a[k + 1..], rs, rest);
    assert a[..k][1..] == a[1..k];
    assert (a + rest)[1..] == a[1..k] + after;
  }

  lemma {:induction false} FindSimple(a: Toks, argv: seq<Span>, rs: seq<Redirection>, rest: Toks)
    requires Words(a, argv, rs) && |argv| < MAXARGS && AfterCommand(rest)
    ensures TakeCommand(a + rest) == Some(Rest(Wrap(Exec(argv), rs), rest))
  {
    assert !Starts(a, '(');
    var b, c, rs1, rs2 := SplitWords(a, argv, rs);
    hide Words, Redirections;
    FindRedirs(b, rs1, c + rest);
    FindWords(c, argv, rs2, rest, [], rs1);
    Glue(b, c, rest);
    assert [] + argv == argv;
  }

  lemma {:induction false} FindPipe(a: Toks, cmd: Cmd, rest: Toks)
    requires Pipeline(a, cmd) && AfterPipeline(rest)
    ensures TakePipe(a + rest) == Some(Rest(cmd, rest))
    decreases |a|, 2
  {
    if Command(a, cmd) {
      FindCommand(a, cmd, rest);
    } else {
      var k :| 0 <= k < |a| && a[k].kind == '|' && cmd.Pipe? && Command(a[..k], cmd.left) && Pipeline(a[k + 1..], cmd.right);
      hide Command, Pipeline, TakeCommand, After;
      FindCommand(a[..k], cmd.left, After(a, k, rest));
      FindPipe(a[k + 1..], cmd.right, rest);
    }
  }

  lemma {:induction false} FindAmps(a: Toks, cmd: Cmd, rest: Toks)
    requires Amps(a) && !Starts(rest, '&')
    ensures TakeAmps(cmd, a + rest) == Rest(Backs(cmd, |a|), rest)
    decreases |a|
  {
    if a == [] {
      assert a + rest == rest;
    } else {
      FindAmps(a[1..], Back(cmd), rest);
      BacksIn(cmd, |a| - 1);
      assert (a + rest)[1..] == a[1..] + rest;
    }
  }

  /** A job is what the first part of the descent into a line finds. */
  lemma {:induction false} FindJob(a: Toks, cmd: Cmd, rest: Toks)
    requires Job(a, cmd) && AfterJob(rest)
    ensures var x := TakePipe(a + rest); x.Some? && TakeAmps(x.value.value, x.value.ts) == Rest(cmd, rest)
    decreases |a|, 3
  {
    var k, c :| 0 <= k <= |a| && Pipeline(a[..k], c) && Amps(a[k..]) && cmd == Backs(c, |a| - k);
    assert AfterPipeline(a[k..] + rest);
    hide Pipeline;
    FindPipe(a[..k], c, a[k..] + rest);
    FindAmps(a[k..], c, rest);
    assert a + rest == a[..k] + (a[k..] + rest);
  }

  lemma {:induction false} FindLine(a: Toks, cmd: Cmd, rest: Toks)
    requires Line(a, cmd) && AfterLine(rest)
    ensures TakeLine(a + rest) == Some(Rest(cmd, rest))
    decreases |a|, 4
  {
    if Job(a, cmd) {
      hide Job;
      FindJob(a, cmd, rest);
    } else {
      var k :| 0 <= k < |a| && a[k].kind == ';' && cmd.List? && Job(a[..k], cmd.left) && Line(a[k + 1..], cmd.right);
      hide Job, Line, TakePipe, TakeAmps, After;
      FindJob(a[..k], cmd.left, After(a, k, rest));
      FindLine(a[k + 1..], cmd.right, rest);
    }
  }

  /** The descent takes the whole line, and returns a tree, exactly if the grammar gives the line that tree. */
  lemma {:induction false} ExactlyTheGrammar(ts: Toks, cmd: Cmd)
    ensures TakeLine(ts) == Some(Rest(cmd, [])) <==> Line(ts, cmd)
  {
    hide Line, TakeLine;
    if TakeLine(ts) == Some(Rest(cmd, [])) {
      var a := SoundLine(ts);
      assert a + [] == a;
    }
    if Line(ts, cmd) {
      FindLine(ts, cmd, []);
      assert ts + [] == ts;
    }
  }
}
