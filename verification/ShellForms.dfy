/**
 Which tokens are a written form of which command, said without a parser. The grammar functions, and so the parser of
 sh.c, accept just these token lists and give just these commands.
 */
module ShellForms {
  import opened ShellGrammar

  // ---------------------------------------------------------------- forms

  /** The arguments of a simple command, inside of its redirections. */
  function Argv<W>(c: Cmd<W>): seq<W> {
    match c
    case Exec(args) => args
    case Redir(d, _, _) => Argv(d)
    case _ => []
  }

  function WithArgv<W>(c: Cmd<W>, args: seq<W>): Cmd<W> {
    match c
    case Exec(_) => Exec(args)
    case Redir(d, f, out) => Redir(WithArgv(d, args), f, out)
    case _ => c
  }

  predicate RedirSym<W>(t: Token<W>) {
    t.Append? || (t.Sym? && (t.c == '<' || t.c == '>'))
  }

  predicate EndsInRedir<W>(ts: seq<Token<W>>) {
    |ts| >= 2 && RedirSym(ts[|ts| - 2]) && ts[|ts| - 1].Word?
  }

  /** The last two tokens are the outermost redirection of c. */
  ghost predicate LastRedir<W>(ts: seq<Token<W>>, c: Cmd<W>) {
    && EndsInRedir(ts) && c.Redir?
    && c.file == ts[|ts| - 1].w
    && (c.out <==> !(ts[|ts| - 2].Sym? && ts[|ts| - 2].c == '<'))
  }

  /** Arguments and redirections, in any order among each other; at most MAXARGS - 1 arguments. */
  ghost predicate SimpleForm<W>(ts: seq<Token<W>>, c: Cmd<W>)
    decreases |ts|
  {
    var n := |ts| - 1;
    if ts == [] then c == Exec([])
    else if EndsInRedir(ts) then LastRedir(ts, c) && SimpleForm(ts[..n - 1], c.sub)
    else
      var k := |Argv(c)| - 1;
      && ts[n].Word? && 0 <= k < MAXARGS - 1 && Argv(c)[k] == ts[n].w
      && SimpleForm(ts[..n], WithArgv(c, Argv(c)[..k]))
  }

  /** A line in parentheses, and redirections behind it. */
  ghost predicate ParenForm<W>(ts: seq<Token<W>>, c: Cmd<W>)
    decreases |ts|, 0
  {
    var n := |ts| - 1;
    || (n >= 1 && ts[0] == Sym('(') && ts[n] == Sym(')') && LineForm(ts[1..n], c))
    || (LastRedir(ts, c) && ParenForm(ts[..n - 1], c.sub))
  }

  ghost predicate BlockForm<W>(ts: seq<Token<W>>, c: Cmd<W>)
    decreases |ts|, 1
  {
    SimpleForm(ts, c) || ParenForm(ts, c)
  }

  /** Blocks with | between them. */
  ghost predicate PipeForm<W>(ts: seq<Token<W>>, c: Cmd<W>)
    decreases |ts|, 2
  {
    || BlockForm(ts, c)
    || (c.Pipe? && exists k ::
          0 <= k < |ts| && ts[k] == Sym('|') && BlockForm(ts[..k], c.left) && PipeForm(ts[k + 1..], c.right))
  }

  /** A pipe with any number of & behind it. */
  ghost predicate BackForm<W>(ts: seq<Token<W>>, c: Cmd<W>)
    decreases |ts|, 3
  {
    var n := |ts| - 1;
    || PipeForm(ts, c)
    || (c.Back? && n >= 0 && ts[n] == Sym('&') && BackForm(ts[..n], c.sub))
  }

  /** Such with ; between them. */
  ghost predicate LineForm<W>(ts: seq<Token<W>>, c: Cmd<W>)
    decreases |ts|, 4
  {
    || BackForm(ts, c)
    || (c.List? && exists k ::
          0 <= k < |ts| && ts[k] == Sym(';') && BackForm(ts[..k], c.left) && LineForm(ts[k + 1..], c.right))
  }

  // ---------------------------------------------------------------- simple commands, read from the left

  lemma {:induction false} WrapArgv(args: seq<Span>, more: seq<Span>, rs: seq<Redirection>)
    ensures Argv(Wrap(Exec(args), rs)) == args
    ensures WithArgv(Wrap(Exec(args), rs), more) == Wrap(Exec(more), rs)
    decreases |rs|
  {
    if rs != [] {
      WrapArgv(args, more, rs[..|rs| - 1]);
    }
  }

  lemma WrapMore(c: Command, rs: seq<Redirection>, r: Redirection)
    ensures Wrap(c, rs + [r]) == Redir(Wrap(c, rs), r.file, r.out)
  {
    assert (rs + [r])[..|rs|] == rs;
  }

  lemma {:induction false} WithTwice<W>(c: Cmd<W>, a: seq<W>, b: seq<W>)
    ensures WithArgv(WithArgv(c, a), b) == WithArgv(c, b) && WithArgv(c, Argv(c)) == c
  {
    if c.Redir? {
      WithTwice(c.sub, a, b);
    }
  }

  lemma RedirsStop(ts: Tokens, rs: seq<Redirection>)
    requires !StartsRedir(ts)
    ensures Redirs(ts, rs) == RedirsOk(rs, ts)
  {
  }

  /** The redirection that two tokens make. */
  function Made(t: Token<Span>, w: Span): Redirection {
    Redirection(w, t != Sym('<'))
  }

  lemma RedirsNext(t: Token<Span>, w: Span, ts: Tokens, rs: seq<Redirection>)
    requires RedirSym(t)
    ensures Redirs([t, Word(w)] + ts, rs) == Redirs(ts, rs + [Made(t, w)])
  {
    hide Redirs;
    var q: Tokens := [t, Word(w)] + ts;
    assert q[2..] == ts;
    RedirsStep(q, rs);
  }

  lemma RedirsStep(ts: Tokens, rs: seq<Redirection>)
    requires |ts| >= 2 && RedirSym(ts[0]) && ts[1].Word?
    ensures Redirs(ts, rs) == Redirs(ts[2..], rs + [Made(ts[0], ts[1].w)])
  {
    assert StartsRedir(ts);
  }

  lemma WordsSame(ts: Tokens, us: Tokens, args: seq<Span>, rs: seq<Redirection>, qs: seq<Redirection>)
    requires Redirs(ts, rs) == Redirs(us, qs)
    ensures Words(ts, args, rs) == Words(us, args, qs)
  {
    hide Redirs;
  }

  lemma WordsTake(w: Span, ts: Tokens, args: seq<Span>, rs: seq<Redirection>)
    requires |args| + 1 < MAXARGS
    ensures Words([Word(w)] + ts, args, rs) == Words(ts, args + [w], rs)
  {
    var q: Tokens := [Word(w)] + ts;
    assert q[1..] == ts;
    RedirsStop(q, rs);
    hide Redirs;
  }

  /** After a simple command, the loop over arguments has it. */
  lemma {:induction false} SimpleParsed(ts: Tokens, c: Command, rest: Tokens)
      returns (args: seq<Span>, rs: seq<Redirection>)
    requires SimpleForm(ts, c)
    ensures c == Wrap(Exec(args), rs) && |args| < MAXARGS
    ensures Words(ts + rest, [], []) == Words(rest, args, rs)
    decreases |ts|
  {
    hide Words, Redirs, Wrap, WithArgv, StartsRedir, StartsStop;
    var n := |ts| - 1;
    if ts == [] {
      args, rs := [], [];
      assert ts + rest == rest;
      assert Wrap(Exec([]), []) == Exec([]) by { WrapNone(Exec([])); }
    } else if EndsInRedir(ts) {
      var t, w := ts[n - 1], ts[n].w;
      args, rs := SimpleParsed(ts[..n - 1], c.sub, [t, Word(w)] + rest);
      assert ts[..n - 1] + ([t, Word(w)] + rest) == ts + rest;
      RedirsNext(t, w, rest, rs);
      WordsSame([t, Word(w)] + rest, rest, args, rs, rs + [Made(t, w)]);
      WrapMore(Exec(args), rs, Made(t, w));
      rs := rs + [Made(t, w)];
    } else {
      var w, k := ts[n].w, |Argv(c)| - 1;
      args, rs := SimpleParsed(ts[..n], WithArgv(c, Argv(c)[..k]), [Word(w)] + rest);
      assert ts[..n] + ([Word(w)] + rest) == ts + rest;
      OneMoreArg(c, args, rs);
      WordsTake(w, rest, args, rs);
      args := Argv(c);
    }
  }

  lemma OneMoreArg(c: Command, args: seq<Span>, rs: seq<Redirection>)
    requires Argv(c) != [] && WithArgv(c, Argv(c)[..|Argv(c)| - 1]) == Wrap(Exec(args), rs)
    ensures c == Wrap(Exec(Argv(c)), rs) && |Argv(c)| == |args| + 1 && Argv(c) == args + [Argv(c)[|args|]]
  {
    hide Wrap, Argv, WithArgv;
    var fewer := Argv(c)[..|Argv(c)| - 1];
    WithTwice(c, fewer, Argv(c));
    WrapArgv(args, Argv(c), rs);
    ArgvWith(c, fewer);
  }

  lemma WrapNone(c: Command)
    ensures Wrap(c, []) == c
  {
  }

  lemma {:induction false} ArgvWith<W>(c: Cmd<W>, a: seq<W>)
    requires Argv(c) != []
    ensures Argv(WithArgv(c, a)) == a
  {
    if c.Redir? {
      ArgvWith(c.sub, a);
    }
  }

  lemma {:induction false} SimpleHead<W>(ts: seq<Token<W>>, c: Cmd<W>)
    requires SimpleForm(ts, c) && ts != []
    ensures (ts[0].Word? || RedirSym(ts[0])) && ts[|ts| - 1].Word?
    decreases |ts|
  {
    var n := |ts| - 1;
    if EndsInRedir(ts) {
      if n > 1 {
        SimpleHead(ts[..n - 1], c.sub);
      }
    } else if n > 0 {
      SimpleHead(ts[..n], WithArgv(c, Argv(c)[..|Argv(c)| - 1]));
    }
  }

  // ---------------------------------------------------------------- every form is parsed

  /** Neither | nor a word or redirection follows. */
  predicate PipeEnds(rest: Tokens) {
    rest == [] || StartsWith(rest, '&') || StartsWith(rest, ';') || StartsWith(rest, ')')
  }

  predicate LineEnds(rest: Tokens) {
    rest == [] || StartsWith(rest, ')')
  }

  lemma StopsNoRedir(rest: Tokens)
    requires StartsStop(rest)
    ensures !StartsRedir(rest) && !StartsWith(rest, '(')
  {
  }

  lemma WordsEnd(rest: Tokens, args: seq<Span>, rs: seq<Redirection>)
    requires StartsStop(rest)
    ensures Words(rest, args, rs) == Ok(Wrap(Exec(args), rs), rest)
  {
    StopsNoRedir(rest);
    RedirsStop(rest, rs);
    hide Redirs, Wrap;
  }

  function AfterParen(base: Command, r: RedirParse): Parse {
    match r
    case RedirsBad => Bad(MissingFile)
    case RedirsOk(rs, q) => Ok(Wrap(base, rs), q)
  }

  lemma BlockIs(ts: Tokens, c: Command, rest: Tokens)
    requires StartsWith(ts, '(') && Line(ts[1..]) == Ok(c, [Sym(')')] + rest)
    ensures Block(ts) == AfterParen(c, Redirs(rest, []))
  {
    hide Line, Redirs, Wrap;
    assert ([Sym(')')] + rest)[1..] == rest;
  }

  lemma {:induction false} ParenParsed(ts: Tokens, c: Command, rest: Tokens)
      returns (base: Command, rs: seq<Redirection>)
    requires ParenForm(ts, c)
    ensures c == Wrap(base, rs) && StartsWith(ts, '(')
    ensures Block(ts + rest) == AfterParen(base, Redirs(rest, rs))
    decreases |ts|, 0
  {
    hide Line, Block, Redirs, Wrap, LineForm;
    var n := |ts| - 1;
    if n >= 1 && ts[0] == Sym('(') && ts[n] == Sym(')') && LineForm(ts[1..n], c) {
      LineParsed(ts[1..n], c, [Sym(')')] + rest);
      assert (ts + rest)[1..] == ts[1..n] + ([Sym(')')] + rest);
      BlockIs(ts + rest, c, rest);
      WrapNone(c);
      base, rs := c, [];
    } else {
      var t, w := ts[n - 1], ts[n].w;
      base, rs := ParenParsed(ts[..n - 1], c.sub, [t, Word(w)] + rest);
      assert ts[..n - 1] + ([t, Word(w)] + rest) == ts + rest;
      RedirsNext(t, w, rest, rs);
      WrapMore(base, rs, Made(t, w));
      rs := rs + [Made(t, w)];
    }
  }

  lemma ExecIs(ts: Tokens)
    ensures ExecLine(ts) == if StartsWith(ts, '(') then Block(ts) else Words(ts, [], [])
  {
    hide Block, Words;
  }

  lemma {:induction false} BlockParsed(ts: Tokens, c: Command, rest: Tokens)
    requires BlockForm(ts, c) && StartsStop(rest)
    ensures ExecLine(ts + rest) == Ok(c, rest)
    decreases |ts|, 1
  {
    hide ExecLine, Block, Words, Redirs, Wrap, SimpleForm, ParenForm;
    ExecIs(ts + rest);
    StopsNoRedir(rest);
    if SimpleForm(ts, c) {
      var args, rs := SimpleParsed(ts, c, rest);
      WordsEnd(rest, args, rs);
      if ts == [] {
        assert ts + rest == rest;
      } else {
        SimpleHead(ts, c);
      }
    } else {
      var base, rs := ParenParsed(ts, c, rest);
      RedirsStop(rest, rs);
    }
  }

  lemma SplitAt(ts: Tokens, k: nat, rest: Tokens)
    requires k < |ts|
    ensures
      var more := ts[k..] + rest;
      ts + rest == ts[..k] + more && more[0] == ts[k] && more[1..] == ts[k + 1..] + rest
  {
    var more, after := ts[k..] + rest, ts[k + 1..] + rest;
    assert forall i :: 0 <= i < |after| ==> more[1..][i] == after[i];
    assert ts == ts[..k] + ts[k..];
  }

  lemma PipeIs(ts: Tokens, c: Command, rest: Tokens)
    requires ExecLine(ts) == Ok(c, rest)
    ensures !StartsWith(rest, '|') ==> PipeLine(ts) == Ok(c, rest)
    ensures StartsWith(rest, '|') && PipeLine(rest[1..]).Ok? ==>
      PipeLine(ts) == Ok(Pipe(c, PipeLine(rest[1..]).cmd), PipeLine(rest[1..]).rest)
  {
    hide ExecLine;
  }

  lemma {:induction false} PipeParsed(ts: Tokens, c: Command, rest: Tokens)
    requires PipeForm(ts, c) && PipeEnds(rest)
    ensures PipeLine(ts + rest) == Ok(c, rest)
    decreases |ts|, 2
  {
    hide ExecLine, PipeLine, BlockForm;
    if BlockForm(ts, c) {
      BlockParsed(ts, c, rest);
      PipeIs(ts + rest, c, rest);
    } else {
      var k :| 0 <= k < |ts| && ts[k] == Sym('|') && BlockForm(ts[..k], c.left) && PipeForm(ts[k + 1..], c.right);
      var more := ts[k..] + rest;
      SplitAt(ts, k, rest);
      BlockParsed(ts[..k], c.left, more);
      PipeParsed(ts[k + 1..], c.right, rest);
      PipeIs(ts + rest, c.left, more);
    }
  }

  lemma LineIs(ts: Tokens, c: Command, rest: Tokens)
    requires PipeLine(ts) == Ok(c, rest)
    ensures Line(ts) == Backs(c, rest)
  {
    hide PipeLine, Backs;
  }

  lemma BacksAre(c: Command, ts: Tokens)
    ensures StartsWith(ts, '&') ==> Backs(c, ts) == Backs(Back(c), ts[1..])
    ensures StartsWith(ts, ';') && Line(ts[1..]).Ok? ==>
      Backs(c, ts) == Ok(List(c, Line(ts[1..]).cmd), Line(ts[1..]).rest)
    ensures StartsWith(ts, ';') && Line(ts[1..]).Bad? ==> Backs(c, ts) == Line(ts[1..])
    ensures !StartsWith(ts, ';') && !StartsWith(ts, '&') ==> Backs(c, ts) == Ok(c, ts)
  {
    hide Line;
  }

  lemma {:induction false} BackParsed(ts: Tokens, c: Command, rest: Tokens)
    requires BackForm(ts, c) && PipeEnds(rest)
    ensures Line(ts + rest) == Backs(c, rest)
    decreases |ts|, 3
  {
    hide PipeLine, Line, Backs, PipeForm;
    var n := |ts| - 1;
    if PipeForm(ts, c) {
      PipeParsed(ts, c, rest);
      LineIs(ts + rest, c, rest);
    } else {
      var more := ts[n..] + rest;
      SplitAt(ts, n, rest);
      assert ts[n + 1..] + rest == rest;
      BackParsed(ts[..n], c.sub, more);
      BacksAre(c.sub, more);
    }
  }

  lemma {:induction false} LineParsed(ts: Tokens, c: Command, rest: Tokens)
    requires LineForm(ts, c) && LineEnds(rest)
    ensures Line(ts + rest) == Ok(c, rest)
    decreases |ts|, 4
  {
    hide Line, Backs, BackForm;
    if BackForm(ts, c) {
      BackParsed(ts, c, rest);
      BacksAre(c, rest);
    } else {
      var k :| 0 <= k < |ts| && ts[k] == Sym(';') && BackForm(ts[..k], c.left) && LineForm(ts[k + 1..], c.right);
      var more := ts[k..] + rest;
      SplitAt(ts, k, rest);
      BackParsed(ts[..k], c.left, more);
      LineParsed(ts[k + 1..], c.right, rest);
      BacksAre(c.left, more);
    }
  }

  // ---------------------------------------------------------------- and only forms are

  /** What a parse has consumed. */
  function Taken(ts: Tokens, rest: Tokens): Tokens
    requires |rest| <= |ts|
  {
    ts[..|ts| - |rest|]
  }

  lemma TakenMore(a: Tokens, ts: Tokens, n: nat, rest: Tokens)
    requires n <= |ts| && SuffixOf(rest, ts[n..])
    ensures a + ts[..n] + Taken(ts[n..], rest) == a + Taken(ts, rest)
  {
  }

  lemma SimpleRedir(a: Tokens, c: Command, t: Token<Span>, w: Span)
    requires SimpleForm(a, c) && RedirSym(t)
    ensures SimpleForm(a + [t, Word(w)], Redir(c, w, Made(t, w).out))
  {
    var ts: Tokens := a + [t, Word(w)];
    assert ts[..|ts| - 2] == a;
    hide SimpleForm;
    assert EndsInRedir(ts) && LastRedir(ts, Redir(c, w, Made(t, w).out));
    SimpleRedirIs(ts, Redir(c, w, Made(t, w).out));
  }

  lemma SimpleRedirIs<W>(ts: seq<Token<W>>, c: Cmd<W>)
    requires LastRedir(ts, c) && SimpleForm(ts[..|ts| - 2], c.sub)
    ensures SimpleForm(ts, c)
  {
  }

  lemma SimpleWord(a: Tokens, args: seq<Span>, rs: seq<Redirection>, w: Span)
    requires SimpleForm(a, Wrap(Exec(args), rs)) && |args| + 1 < MAXARGS
    ensures SimpleForm(a + [Word(w)], Wrap(Exec(args + [w]), rs))
  {
    hide SimpleForm, Wrap;
    var ts: Tokens := a + [Word(w)];
    if a != [] {
      SimpleHead(a, Wrap(Exec(args), rs));
      assert ts[|ts| - 2] == a[|a| - 1];
    }
    assert !EndsInRedir(ts) && ts[..|ts| - 1] == a;
    WrapArgv(args + [w], args, rs);
    assert (args + [w])[..|args|] == args;
    SimpleWordIs(ts, Wrap(Exec(args + [w]), rs));
  }

  lemma SimpleWordIs<W>(ts: seq<Token<W>>, c: Cmd<W>)
    requires ts != [] && !EndsInRedir(ts) && ts[|ts| - 1].Word? && 1 <= |Argv(c)| < MAXARGS
    requires Argv(c)[|Argv(c)| - 1] == ts[|ts| - 1].w
    requires SimpleForm(ts[..|ts| - 1], WithArgv(c, Argv(c)[..|Argv(c)| - 1]))
    ensures SimpleForm(ts, c)
  {
  }

  lemma RedirsHead(ts: Tokens, rs: seq<Redirection>)
    requires Redirs(ts, rs).RedirsOk? && StartsRedir(ts)
    ensures |ts| >= 2 && ts[1].Word? && RedirSym(ts[0])
    ensures Redirs(ts, rs) == Redirs(ts[2..], rs + [Made(ts[0], ts[1].w)])
  {
  }

  lemma {:induction false} RedirsSimple(a: Tokens, ts: Tokens, args: seq<Span>, rs: seq<Redirection>)
    requires SimpleForm(a, Wrap(Exec(args), rs)) && Redirs(ts, rs).RedirsOk?
    ensures
      var r := Redirs(ts, rs);
      SimpleForm(a + Taken(ts, r.rest), Wrap(Exec(args), r.redirs))
    decreases |ts|
  {
    hide SimpleForm, Redirs, Wrap;
    if StartsRedir(ts) {
      RedirsHead(ts, rs);
      SimpleRedir(a, Wrap(Exec(args), rs), ts[0], ts[1].w);
      WrapMore(Exec(args), rs, Made(ts[0], ts[1].w));
      assert a + [ts[0], Word(ts[1].w)] == a + ts[..2];
      RedirsSimple(a + ts[..2], ts[2..], args, rs + [Made(ts[0], ts[1].w)]);
      TakenMore(a, ts, 2, Redirs(ts, rs).rest);
    } else {
      RedirsStop(ts, rs);
      assert a + Taken(ts, ts) == a;
    }
  }

  lemma WordsStep(ts: Tokens, args: seq<Span>, rs: seq<Redirection>)
    requires Words(ts, args, rs).Ok?
    ensures Redirs(ts, rs).RedirsOk?
    ensures
      var r := Redirs(ts, rs);
      if StartsStop(r.rest) then Words(ts, args, rs) == Ok(Wrap(Exec(args), r.redirs), r.rest)
      else
        && r.rest[0].Word? && |args| + 1 < MAXARGS
        && Words(ts, args, rs) == Words(r.rest[1..], args + [r.rest[0].w], r.redirs)
  {
    hide Redirs, Wrap;
  }

  lemma {:induction false} WordsSimple(a: Tokens, ts: Tokens, args: seq<Span>, rs: seq<Redirection>)
    requires SimpleForm(a, Wrap(Exec(args), rs)) && Words(ts, args, rs).Ok?
    ensures
      var p := Words(ts, args, rs);
      SimpleForm(a + Taken(ts, p.rest), p.cmd)
    decreases |ts|
  {
    hide SimpleForm, Redirs, Wrap, Words;
    WordsStep(ts, args, rs);
    RedirsSimple(a, ts, args, rs);
    var r := Redirs(ts, rs);
    if !StartsStop(r.rest) {
      var q, n := r.rest, |ts| - |r.rest|;
      assert q == ts[n..];
      SimpleWord(a + Taken(ts, q), args, r.redirs, q[0].w);
      assert a + Taken(ts, q) + [Word(q[0].w)] == a + ts[..n + 1];
      WordsSimple(a + ts[..n + 1], q[1..], args + [q[0].w], r.redirs);
      assert q[1..] == ts[n + 1..];
      TakenMore(a, ts, n + 1, Words(ts, args, rs).rest);
    }
  }

  lemma {:induction false} RedirsParen(a: Tokens, ts: Tokens, base: Command, rs: seq<Redirection>)
    requires ParenForm(a, Wrap(base, rs)) && Redirs(ts, rs).RedirsOk?
    ensures
      var r := Redirs(ts, rs);
      ParenForm(a + Taken(ts, r.rest), Wrap(base, r.redirs))
    decreases |ts|
  {
    hide ParenForm, Redirs, Wrap;
    if StartsRedir(ts) {
      RedirsHead(ts, rs);
      var r := Made(ts[0], ts[1].w);
      WrapMore(base, rs, r);
      assert (a + ts[..2])[..|a + ts[..2]| - 2] == a;
      ParenRedir(a + ts[..2], Redir(Wrap(base, rs), r.file, r.out));
      RedirsParen(a + ts[..2], ts[2..], base, rs + [r]);
      TakenMore(a, ts, 2, Redirs(ts, rs).rest);
    } else {
      RedirsStop(ts, rs);
      assert a + Taken(ts, ts) == a;
    }
  }

  lemma ParenRedir<W>(ts: seq<Token<W>>, c: Cmd<W>)
    requires LastRedir(ts, c) && ParenForm(ts[..|ts| - 2], c.sub)
    ensures ParenForm(ts, c)
  {
    hide LineForm;
  }

  lemma ParenLine<W>(ts: seq<Token<W>>, c: Cmd<W>)
    requires |ts| >= 2 && ts[0] == Sym('(') && ts[|ts| - 1] == Sym(')') && LineForm(ts[1..|ts| - 1], c)
    ensures ParenForm(ts, c)
  {
    hide LineForm;
  }

  lemma BlockStep(ts: Tokens)
    requires Block(ts).Ok?
    ensures StartsWith(ts, '(') && Line(ts[1..]).Ok? && StartsWith(Line(ts[1..]).rest, ')')
    ensures
      var p := Line(ts[1..]);
      Redirs(p.rest[1..], []).RedirsOk? && Block(ts) == AfterParen(p.cmd, Redirs(p.rest[1..], []))
  {
    hide Line, Redirs, Wrap;
  }

  lemma {:induction false} BlockTaken(ts: Tokens)
    requires Block(ts).Ok?
    ensures ParenForm(Taken(ts, Block(ts).rest), Block(ts).cmd)
    decreases |ts|, 1
  {
    hide Line, Redirs, Wrap, Block, ParenForm, LineForm;
    BlockStep(ts);
    var p := Line(ts[1..]);
    LineTaken(ts[1..]);
    var n := |ts| - |p.rest|;
    assert p.rest == ts[n..];
    var a := ts[..n + 1];
    assert a[1..n] == Taken(ts[1..], p.rest);
    ParenLine(a, p.cmd);
    WrapNone(p.cmd);
    RedirsParen(a, p.rest[1..], p.cmd, []);
    assert p.rest[1..] == ts[n + 1..];
    assert a + Taken(ts[n + 1..], Block(ts).rest) == Taken(ts, Block(ts).rest);
  }

  lemma {:induction false} ExecTaken(ts: Tokens)
    requires ExecLine(ts).Ok?
    ensures BlockForm(Taken(ts, ExecLine(ts).rest), ExecLine(ts).cmd)
    decreases |ts|, 2
  {
    hide Block, Words, ParenForm, SimpleForm, ExecLine;
    ExecIs(ts);
    if StartsWith(ts, '(') {
      BlockTaken(ts);
    } else {
      WrapNone(Exec([]));
      NothingSimple();
      WordsSimple([], ts, [], []);
      var a := Taken(ts, ExecLine(ts).rest);
      assert [] + a == a;
    }
  }

  lemma NothingSimple()
    ensures SimpleForm<Span>([], Exec([]))
  {
  }

  lemma PipeStep(ts: Tokens)
    requires PipeLine(ts).Ok?
    ensures ExecLine(ts).Ok?
    ensures
      var p := ExecLine(ts);
      if StartsWith(p.rest, '|') then
        && PipeLine(p.rest[1..]).Ok?
        && PipeLine(ts) == Ok(Pipe(p.cmd, PipeLine(p.rest[1..]).cmd), PipeLine(p.rest[1..]).rest)
      else PipeLine(ts) == p
  {
    hide ExecLine;
  }

  lemma {:induction false} PipeTaken(ts: Tokens)
    requires PipeLine(ts).Ok?
    ensures PipeForm(Taken(ts, PipeLine(ts).rest), PipeLine(ts).cmd)
    decreases |ts|, 3
  {
    hide ExecLine, PipeLine, BlockForm;
    PipeStep(ts);
    ExecTaken(ts);
    var p := ExecLine(ts);
    if StartsWith(p.rest, '|') {
      PipeTaken(p.rest[1..]);
      var n := |ts| - |p.rest|;
      assert p.rest == ts[n..] && p.rest[1..] == ts[n + 1..];
      var a := Taken(ts, PipeLine(ts).rest);
      assert a[..n] == Taken(ts, p.rest) && a[n + 1..] == Taken(p.rest[1..], PipeLine(ts).rest);
      assert a[n] == Sym('|');
    }
  }

  lemma {:induction false} BacksTaken(a: Tokens, c: Command, ts: Tokens)
    requires BackForm(a, c) && Backs(c, ts).Ok?
    ensures LineForm(a + Taken(ts, Backs(c, ts).rest), Backs(c, ts).cmd)
    decreases |ts|, 0
  {
    hide Line, Backs, BackForm;
    BacksAre(c, ts);
    var p := Backs(c, ts);
    if StartsWith(ts, '&') {
      assert (a + ts[..1])[..|a|] == a;
      BackMore(a + ts[..1], Back(c));
      BacksTaken(a + ts[..1], Back(c), ts[1..]);
      TakenMore(a, ts, 1, p.rest);
    } else if StartsWith(ts, ';') {
      LineTaken(ts[1..]);
      var b := a + Taken(ts, p.rest);
      assert b[..|a|] == a && b[|a|] == Sym(';') && b[|a| + 1..] == Taken(ts[1..], p.rest);
    } else {
      assert a + Taken(ts, ts) == a;
    }
  }

  lemma BackMore<W>(ts: seq<Token<W>>, c: Cmd<W>)
    requires ts != [] && ts[|ts| - 1] == Sym('&') && c.Back? && BackForm(ts[..|ts| - 1], c.sub)
    ensures BackForm(ts, c)
  {
    hide PipeForm;
  }

  lemma {:induction false} LineTaken(ts: Tokens)
    requires Line(ts).Ok?
    ensures LineForm(Taken(ts, Line(ts).rest), Line(ts).cmd)
    decreases |ts|, 4
  {
    hide PipeLine, Backs, PipeForm, LineForm;
    PipeTaken(ts);
    var p := PipeLine(ts);
    BacksTaken(Taken(ts, p.rest), p.cmd, p.rest);
    assert p.rest == ts[|ts| - |p.rest|..];
    TakenMore([], ts, |ts| - |p.rest|, Line(ts).rest);
    assert [] + Taken(ts, p.rest) == Taken(ts, p.rest) && [] + Taken(ts, Line(ts).rest) == Taken(ts, Line(ts).rest);
  }

  /** The parser takes a list of tokens for a command exactly if they are a form of it. */
  lemma FormsExactly(ts: Tokens, c: Command)
    ensures Line(ts) == Ok(c, []) <==> LineForm(ts, c)
  {
    hide Line, LineForm;
    assert ts + [] == ts;
    if LineForm(ts, c) {
      LineParsed(ts, c, []);
    }
    if Line(ts) == Ok(c, []) {
      LineTaken(ts);
      assert Taken(ts, []) == ts;
    }
  }

  /** No list of tokens is a form of two commands. */
  lemma Unambiguous(ts: Tokens, c: Command, d: Command)
    requires LineForm(ts, c) && LineForm(ts, d)
    ensures c == d
  {
    hide Line, LineForm;
    FormsExactly(ts, c);
    FormsExactly(ts, d);
  }

  // ---------------------------------------------------------------- no word is lost

  /** The words of tokens, in order. */
  function WordsIn<W>(ts: seq<Token<W>>): seq<W>
    decreases |ts|
  {
    var n := |ts| - 1;
    if ts == [] then [] else WordsIn(ts[..n]) + if ts[n].Word? then [ts[n].w] else []
  }

  /** The words of a command, redirection files included. */
  function Spans<W>(c: Cmd<W>): seq<W> {
    match c
    case Exec(args) => args
    case Redir(d, f, _) => Spans(d) + [f]
    case Pipe(l, r) => Spans(l) + Spans(r)
    case List(l, r) => Spans(l) + Spans(r)
    case Back(d) => Spans(d)
  }

  lemma {:induction false} WordsConcat<W>(a: seq<Token<W>>, b: seq<Token<W>>)
    ensures WordsIn(a + b) == WordsIn(a) + WordsIn(b)
    decreases |b|
  {
    if b == [] {
      assert a + b == a;
    } else {
      WordsConcat(a, b[..|b| - 1]);
      assert (a + b)[..|a + b| - 1] == a + b[..|b| - 1];
    }
  }

  lemma WordsAround<W>(ts: seq<Token<W>>, k: nat)
    requires k < |ts| && ts[k].Sym?
    ensures WordsIn(ts) == WordsIn(ts[..k]) + WordsIn(ts[k + 1..])
  {
    hide WordsIn;
    assert ts == ts[..k + 1] + ts[k + 1..];
    WordsConcat(ts[..k + 1], ts[k + 1..]);
    LastWord(ts[..k + 1]);
    assert ts[..k + 1][..k] == ts[..k];
  }

  lemma {:induction false} SpansArgv<W>(c: Cmd<W>, w: W)
    requires Argv(c) != [] && Argv(c)[|Argv(c)| - 1] == w
    ensures multiset(Spans(c)) == multiset(Spans(WithArgv(c, Argv(c)[..|Argv(c)| - 1]))) + multiset{w}
  {
    if c.Redir? {
      SpansArgv(c.sub, w);
    } else {
      var args := c.args;
      assert args == args[..|args| - 1] + [w];
    }
  }

  lemma LastTwoWords<W>(ts: seq<Token<W>>, c: Cmd<W>)
    requires LastRedir(ts, c)
    ensures WordsIn(ts) == WordsIn(ts[..|ts| - 2]) + [c.file]
  {
    hide WordsIn;
    var n := |ts| - 1;
    LastWord(ts);
    LastWord(ts[..n]);
    assert ts[..n][..n - 1] == ts[..n - 1];
  }

  lemma LastWord<W>(ts: seq<Token<W>>)
    requires ts != []
    ensures
      var n := |ts| - 1;
      WordsIn(ts) == WordsIn(ts[..n]) + if ts[n].Word? then [ts[n].w] else []
  {
  }

  lemma {:induction false} SimpleWords<W>(ts: seq<Token<W>>, c: Cmd<W>)
    requires SimpleForm(ts, c)
    ensures multiset(Spans(c)) == multiset(WordsIn(ts))
    decreases |ts|
  {
    hide Argv, WithArgv;
    var n := |ts| - 1;
    if ts == [] {
    } else if EndsInRedir(ts) {
      SimpleWords(ts[..n - 1], c.sub);
      LastTwoWords(ts, c);
    } else {
      SimpleWords(ts[..n], WithArgv(c, Argv(c)[..|Argv(c)| - 1]));
      SpansArgv(c, ts[n].w);
    }
  }

  lemma {:induction false} ParenWords<W>(ts: seq<Token<W>>, c: Cmd<W>)
    requires ParenForm(ts, c)
    ensures multiset(Spans(c)) == multiset(WordsIn(ts))
    decreases |ts|, 0
  {
    hide WordsIn, LineForm;
    var n := |ts| - 1;
    if n >= 1 && ts[0] == Sym('(') && ts[n] == Sym(')') && LineForm(ts[1..n], c) {
      LineWords(ts[1..n], c);
      WordsAround(ts, 0);
      WordsAround(ts[1..], n - 1);
      assert ts[1..][..n - 1] == ts[1..n] && ts[1..][n..] == [];
      NoWords<W>();
      assert ts[..0] == [];
    } else {
      ParenWords(ts[..n - 1], c.sub);
      LastTwoWords(ts, c);
    }
  }

  lemma NoWords<W>()
    ensures WordsIn<W>([]) == []
  {
  }

  lemma {:induction false} PipeWords<W>(ts: seq<Token<W>>, c: Cmd<W>)
    requires PipeForm(ts, c)
    ensures multiset(Spans(c)) == multiset(WordsIn(ts))
    decreases |ts|, 2
  {
    hide WordsIn, SimpleForm, ParenForm;
    if SimpleForm(ts, c) {
      SimpleWords(ts, c);
    } else if ParenForm(ts, c) {
      ParenWords(ts, c);
    } else {
      var k :| 0 <= k < |ts| && ts[k] == Sym('|') && BlockForm(ts[..k], c.left) && PipeForm(ts[k + 1..], c.right);
      BlockIsPipe(ts[..k], c.left);
      PipeWords(ts[..k], c.left);
      PipeWords(ts[k + 1..], c.right);
      WordsAround(ts, k);
    }
  }

  lemma BlockIsPipe<W>(ts: seq<Token<W>>, c: Cmd<W>)
    requires BlockForm(ts, c)
    ensures PipeForm(ts, c)
  {
    hide SimpleForm, ParenForm;
  }

  lemma {:induction false} BackWords<W>(ts: seq<Token<W>>, c: Cmd<W>)
    requires BackForm(ts, c)
    ensures multiset(Spans(c)) == multiset(WordsIn(ts))
    decreases |ts|, 3
  {
    hide PipeForm;
    if PipeForm(ts, c) {
      PipeWords(ts, c);
    } else {
      BackWords(ts[..|ts| - 1], c.sub);
    }
  }

  /** The words of a command are just those of its form, each as often as it is there. */
  lemma {:induction false} LineWords<W>(ts: seq<Token<W>>, c: Cmd<W>)
    requires LineForm(ts, c)
    ensures multiset(Spans(c)) == multiset(WordsIn(ts))
    decreases |ts|, 4
  {
    hide WordsIn, BackForm;
    if BackForm(ts, c) {
      BackWords(ts, c);
    } else {
      var k :| 0 <= k < |ts| && ts[k] == Sym(';') && BackForm(ts[..k], c.left) && LineForm(ts[k + 1..], c.right);
      BackWords(ts[..k], c.left);
      LineWords(ts[k + 1..], c.right);
      WordsAround(ts, k);
    }
  }

  /** So no word of an accepted line is lost, and none is made up. */
  lemma ParsedWords(ts: Tokens, c: Command)
    requires Line(ts) == Ok(c, [])
    ensures multiset(Spans(c)) == multiset(WordsIn(ts))
  {
    hide Line, LineForm, Spans, WordsIn;
    FormsExactly(ts, c);
    LineWords(ts, c);
  }
}
