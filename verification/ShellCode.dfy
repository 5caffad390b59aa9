/** The recursive-descent parser of sh.c, which scans as it parses, and nulterminate. */
module ShellCode {
  import opened ShellGrammar
  import opened ShellForms
  import opened ShellRoundTrip

  /** What a parse function returns, or the panic that ends the process. */
  datatype Result = Good(cmd: Command) | Syntax(reason: Reason)

  datatype RedirResult = GoodRedirs(redirs: seq<Redirection>) | NoFile

  /** A result of the code against one of the grammar. */
  ghost predicate Agrees(r: Result, rest: Tokens, p: Parse) {
    match r
    case Good(c) => p == Ok(c, rest)
    case Syntax(e) => p == Bad(e)
  }

  /** What the first character of the rest of the line says of its first token. */
  lemma Head(s: string, i: nat)
    requires IsLine(s) && i <= |s| && Skip(s, i) == i
    ensures Lex(s, i) == [] <==> i == |s|
    ensures StartsWith(Lex(s, i), '|') <==> CharAt(s, i) == '|'
    ensures StartsWith(Lex(s, i), '&') <==> CharAt(s, i) == '&'
    ensures StartsWith(Lex(s, i), ';') <==> CharAt(s, i) == ';'
    ensures StartsWith(Lex(s, i), '(') <==> CharAt(s, i) == '('
    ensures StartsWith(Lex(s, i), ')') <==> CharAt(s, i) == ')'
    ensures StartsRedir(Lex(s, i)) <==> CharAt(s, i) == '<' || CharAt(s, i) == '>'
    ensures CharAt(s, i) == '<' ==> StartsWith(Lex(s, i), '<')
    ensures CharAt(s, i) == '\0' <==> i == |s|
  {
  }

  class Parser {
    const line: string
    var ps: nat          // *ps, as an index

    ghost predicate Valid()
      reads this
    {
      IsLine(line) && ps <= |line|
    }

    /** The tokens that are left. */
    ghost function Left(): Tokens
      reads this
      requires Valid()
    {
      Lex(line, ps)
    }

    constructor (s: string)
      requires IsLine(s)
      ensures Valid() && line == s && ps == 0
    {
      line, ps := s, 0;
    }

    method SkipSpace()
      requires Valid()
      modifies this
      ensures Valid() && ps == Skip(line, old(ps)) && Skip(line, ps) == ps && Left() == old(Left())
    {
      var s := ps;
      while s < |line| && IsSpace(line[s])
        invariant ps <= s <= |line| && Skip(line, s) == Skip(line, ps)
      {
        s := s + 1;
      }
      SkipTwice(line, ps);
      ps := s;
    }

    /** Is the next character, after blanks, one of toks? */
    method Peek(toks: string) returns (r: bool)
      requires Valid() && '\0' !in toks
      modifies this
      ensures Valid() && Skip(line, ps) == ps && Left() == old(Left())
      ensures r <==> CharAt(line, ps) in toks
    {
      SkipSpace();
      r := ps < |line| && line[ps] in toks;
    }

    /** The next token: '\\0' at the end, 'a' for a word q .. eq, '+' for >>, otherwise the symbol. */
    method GetToken() returns (ret: char, q: nat, eq: nat)
      requires Valid()
      modifies this
      ensures Valid()
      ensures old(Left()) == [] ==> ret == '\0' && Left() == []
      ensures old(Left()) != [] ==>
        && Left() == old(Left())[1..]
        && match old(Left())[0]
           case Sym(c) => ret == c && IsSymbol(c)
           case Append => ret == '+'
           case Word(w) => ret == 'a' && w == Span(q, eq)
    {
      hide Lex;
      SkipSpace();
      OneToken(line, ps);
      q := ps;
      ret := CharAt(line, ps);
      var s := ps;
      if ret == '\0' {
      } else if ret == '>' {
        s := s + 1;
        if CharAt(line, s) == '>' {
          ret := '+';
          s := s + 1;
        }
      } else if IsSymbol(ret) {
        s := s + 1;
      } else {
        ret := 'a';
        while s < |line| && !IsSpace(line[s]) && !IsSymbol(line[s])
          invariant ps <= s <= |line| && WordEnd(line, s) == WordEnd(line, ps)
        {
          s := s + 1;
        }
      }
      eq := s;
      ps := s;
      SkipSpace();
    }

    // ------------------------------------------------------------ the grammar

    method ParseLine() returns (r: Result)
      requires Valid()
      modifies this
      ensures Valid() && Agrees(r, Left(), Line(old(Left())))
      decreases |Left()|, 4
    {
      hide Lex, PipeLine, Line, Backs;
      ghost var ts := Left();
      r := ParsePipe();
      if r.Syntax? {
        LineFails(ts, r.reason);
        return;
      }
      LineIs(ts, r.cmd, Left());
      var cmd := r.cmd;
      var more := Peek("&");
      while more
        invariant Valid() && |Left()| <= |ts|
        invariant Line(ts) == Backs(cmd, Left())
        invariant Skip(line, ps) == ps && (more <==> CharAt(line, ps) in "&")
        decreases |Left()|
      {
        Head(line, ps);
        BacksAre(cmd, Left());
        var tok, q, eq := GetToken();
        cmd := Back(cmd);
        more := Peek("&");
      }
      Head(line, ps);
      more := Peek(";");
      Head(line, ps);
      ghost var here := Left();
      if more {
        var tok, q, eq := GetToken();
        r := ParseLine();
        BacksAre(cmd, here);
        if r.Syntax? {
          return;
        }
        return Good(List(cmd, r.cmd));
      }
      BacksAre(cmd, here);
      return Good(cmd);
    }

    method ParsePipe() returns (r: Result)
      requires Valid()
      modifies this
      ensures Valid() && Agrees(r, Left(), PipeLine(old(Left())))
      decreases |Left()|, 3
    {
      hide Lex, ExecLine;
      r := ParseExec();
      if r.Syntax? {
        return;
      }
      var cmd := r.cmd;
      var more := Peek("|");
      Head(line, ps);
      if more {
        var tok, q, eq := GetToken();
        r := ParsePipe();
        if r.Syntax? {
          return;
        }
        return Good(Pipe(cmd, r.cmd));
      }
    }

    /** parseredirs: the redirections are put around the command in the order of the line. */
    method ParseRedirs(before: seq<Redirection>) returns (r: RedirResult)
      requires Valid()
      modifies this
      ensures Valid()
      ensures
        var p := Redirs(old(Left()), before);
        match r
        case GoodRedirs(rs) => p == RedirsOk(rs, Left())
        case NoFile => p == RedirsBad
    {
      hide Lex;
      ghost var ts := Left();
      var rs := before;
      var more := Peek("<>");
      Head(line, ps);
      while more
        invariant Valid()
        invariant Redirs(ts, before) == Redirs(Left(), rs)
        invariant Skip(line, ps) == ps && (more <==> CharAt(line, ps) in "<>")
        decreases |Left()|
      {
        Head(line, ps);
        ghost var now := Left();
        var tok, q, eq := GetToken();
        var kind;
        kind, q, eq := GetToken();
        if kind != 'a' {
          return NoFile;
        }
        NotSymbol('a');
        assert Left() == now[2..];
        rs := rs + [Redirection(Span(q, eq), tok != '<')];
        more := Peek("<>");
      }
      Head(line, ps);
      r := GoodRedirs(rs);
    }

    method ParseBlock() returns (r: Result)
      requires Valid()
      modifies this
      ensures Valid() && Agrees(r, Left(), Block(old(Left())))
      decreases |Left()|, 1
    {
      hide Lex, Line;
      ghost var ts := Left();
      var open := Peek("(");
      Head(line, ps);
      if !open {
        return Syntax(NotABlock);
      }
      var tok, q, eq := GetToken();
      r := ParseLine();
      if r.Syntax? {
        return;
      }
      var cmd := r.cmd;
      var close := Peek(")");
      Head(line, ps);
      if !close {
        return Syntax(MissingParen);
      }
      tok, q, eq := GetToken();
      var rs := ParseRedirs([]);
      if rs.NoFile? {
        return Syntax(MissingFile);
      }
      return Good(Wrap(cmd, rs.redirs));
    }

    method ParseExec() returns (r: Result)
      requires Valid()
      modifies this
      ensures Valid() && Agrees(r, Left(), ExecLine(old(Left())))
      decreases |Left()|, 2
    {
      hide Lex, Block, Words;
      ghost var ts := Left();
      var open := Peek("(");
      Head(line, ps);
      if open {
        r := ParseBlock();
        return;
      }
      r := ParseWords();
    }

    /** parseexec of a simple command: argv and the redirections around it. */
    method ParseWords() returns (r: Result)
      requires Valid()
      modifies this
      ensures Valid() && Agrees(r, Left(), Words(old(Left()), [], []))
    {
      hide Lex, Redirs;
      ghost var ts := Left();
      var args: seq<Span> := [];
      ghost var here, rs0 := ts, [];
      var rs := ParseRedirs([]);
      if rs.NoFile? {
        return Syntax(MissingFile);
      }
      var stop := Peek("|)&;");
      while !stop
        invariant Valid() && rs.GoodRedirs?
        invariant Redirs(here, rs0) == RedirsOk(rs.redirs, Left())
        invariant Words(ts, [], []) == Words(here, args, rs0)
        invariant |args| < MAXARGS
        invariant Skip(line, ps) == ps && (stop <==> CharAt(line, ps) in "|)&;")
        decreases |Left()|
      {
        Head(line, ps);
        ghost var now := Left();
        var tok, q, eq := GetToken();
        if tok == '\0' {
          NotSymbol('\0');
          break;
        }
        if tok != 'a' {
          return Syntax(UnexpectedToken);
        }
        NotSymbol('a');
        args := args + [Span(q, eq)];
        if |args| >= MAXARGS {
          return Syntax(TooManyArgs);
        }
        here, rs0 := Left(), rs.redirs;
        rs := ParseRedirs(rs.redirs);
        if rs.NoFile? {
          return Syntax(MissingFile);
        }
        stop := Peek("|)&;");
      }
      if stop {
        Head(line, ps);
      }
      return Good(Wrap(Exec(args), rs.redirs));
    }
  }

  lemma LineFails(ts: Tokens, e: Reason)
    requires PipeLine(ts) == Bad(e)
    ensures Line(ts) == Bad(e)
  {
    hide PipeLine;
  }

  lemma NotSymbol(c: char)
    requires c == 'a' || c == '\0'
    ensures !IsSymbol(c)
  {
  }

  lemma OneToken(s: string, i: nat)
    requires IsLine(s) && i <= |s| && Skip(s, i) == i
    ensures
      if i == |s| then Lex(s, i) == []
      else if s[i] == '>' && CharAt(s, i + 1) == '>' then Lex(s, i) == [Append] + Lex(s, i + 2)
      else if IsSymbol(s[i]) then Lex(s, i) == [Sym(s[i])] + Lex(s, i + 1)
      else Lex(s, i) == [Word(Span(i, WordEnd(s, i)))] + Lex(s, WordEnd(s, i))
  {
  }

  // ---------------------------------------------------------------- nulterminate

  /** Some word of c ends at k. */
  ghost predicate EndsAt(c: Command, k: int) {
    exists w :: w in Spans(c) && w.eq == k
  }

  ghost predicate Terminated(before: seq<char>, after: seq<char>, c: Command) {
    && |after| == |before|
    && forall k :: 0 <= k < |before| ==> after[k] == if EndsAt(c, k) then '\0' else before[k]
  }

  /** A NUL goes behind every word of the command, so that the words become C strings. */
  method Nulterminate(buf: array<char>, c: Command)
    requires forall w :: w in Spans(c) ==> w.eq < buf.Length
    modifies buf
    ensures Terminated(old(buf[..]), buf[..], c)
    decreases c
  {
    match c
    case Exec(args) =>
      for i := 0 to |args|
        invariant forall k :: 0 <= k < buf.Length ==>
          buf[k] == if EndsAt(Exec(args[..i]), k) then '\0' else old(buf[..])[k]
      {
        OneMore(args, i);
        assert args[i] in Spans(c);
        buf[args[i].eq] := '\0';
      }
      assert args[..|args|] == args;
    case Redir(d, f, _) =>
      EndsAtEither(c);
      Nulterminate(buf, d);
      buf[f.eq] := '\0';
    case Pipe(l, r) =>
      EndsAtEither(c);
      Nulterminate(buf, l);
      Nulterminate(buf, r);
    case List(l, r) =>
      EndsAtEither(c);
      Nulterminate(buf, l);
      Nulterminate(buf, r);
    case Back(d) =>
      EndsAtEither(c);
      Nulterminate(buf, d);
  }

  lemma OneMore(args: seq<Span>, i: nat)
    requires i < |args|
    ensures forall k :: EndsAt(Exec(args[..i + 1]), k) <==> EndsAt(Exec(args[..i]), k) || args[i].eq == k
  {
    assert args[..i + 1] == args[..i] + [args[i]];
    forall k ensures EndsAt(Exec(args[..i + 1]), k) <==> EndsAt(Exec(args[..i]), k) || args[i].eq == k {
      assert args[i] in args[..i + 1];
      assert forall w :: w in args[..i + 1] <==> w in args[..i] || w == args[i];
    }
  }

  /** The words of a command are those of its parts. */
  lemma EndsAtEither(c: Command)
    requires !c.Exec?
    ensures c.Redir? ==> c.file in Spans(c) && (forall w :: w in Spans(c.sub) ==> w in Spans(c))
    ensures c.Redir? ==> forall k :: EndsAt(c, k) <==> EndsAt(c.sub, k) || c.file.eq == k
    ensures c.Pipe? || c.List? ==> (forall w :: w in Spans(c.left) || w in Spans(c.right) ==> w in Spans(c))
    ensures c.Pipe? || c.List? ==> forall k :: EndsAt(c, k) <==> EndsAt(c.left, k) || EndsAt(c.right, k)
    ensures c.Back? ==> Spans(c.sub) == Spans(c) && forall k :: EndsAt(c, k) <==> EndsAt(c.sub, k)
  {
  }

  /** The C string at q: up to the first NUL. */
  function CString(b: seq<char>, q: nat): string
    requires q <= |b|
    decreases |b| - q
  {
    if q == |b| || b[q] == '\0' then "" else [b[q]] + CString(b, q + 1)
  }

  lemma {:induction false} CStringIs(b: seq<char>, q: nat, e: nat)
    requires q <= e < |b| && b[e] == '\0' && forall k :: q <= k < e ==> b[k] != '\0'
    ensures CString(b, q) == b[q..e]
    decreases e - q
  {
    if q < e {
      CStringIs(b, q + 1, e);
      assert b[q..e] == [b[q]] + b[q + 1..e];
    }
  }

  /** The NULs fall on delimiters only, so that each word is still there, and now ends where it should. */
  lemma WordsRead(s: string, after: seq<char>, c: Command, w: Span)
    requires IsLine(s) && Terminated(s + ['\0'], after, c) && w in Spans(c)
    requires forall u :: u in Spans(c) ==> GoodSpan(s, u)
    ensures w.q < w.eq <= |s| && CString(after, w.q) == s[w.q..w.eq]
  {
    var b := s + ['\0'];
    assert GoodSpan(s, w);
    assert EndsAt(c, w.eq);
    forall k | w.q <= k < w.eq ensures after[k] == s[k] {
      assert !EndsAt(c, k);
    }
    CStringIs(after, w.q, w.eq);
    assert after[w.q..w.eq] == s[w.q..w.eq];
  }

  // ---------------------------------------------------------------- parsecmd

  /** What the buffer holds before its first NUL. */
  method Strlen(buf: array<char>) returns (n: nat)
    requires '\0' in buf[..]
    ensures n < buf.Length && buf[n] == '\0' && IsLine(buf[..n])
  {
    n := 0;
    while buf[n] != '\0'
      invariant n < buf.Length && forall k :: 0 <= k < n ==> buf[k] != '\0'
      invariant exists k :: n <= k < buf.Length && buf[k] == '\0'
      decreases buf.Length - n
    {
      n := n + 1;
    }
  }

  /**
   parsecmd of the line in buf. It returns exactly if the tokens of the line are a form of some tree, and then the
   command in the buffer is that tree, its words as C strings; otherwise it panics as the grammar says.
   */
  method Parsecmd(buf: array<char>) returns (r: Result)
    requires '\0' in buf[..]
    modifies buf
    ensures
      var s := CString(old(buf[..]), 0);
      && IsLine(s) && Agrees(r, [], Parsed(s))
      && (r.Syntax? ==> buf[..] == old(buf[..]))
      && (r.Good? ==> forall w :: w in Spans(r.cmd) ==>
            w.q < w.eq <= |s| && w.q <= buf.Length && CString(buf[..], w.q) == s[w.q..w.eq])
      && (r.Good? <==> exists t :: LineForm(ReadLex(s, 0), t))
      && (r.Good? ==> LineForm(ReadLex(s, 0), TreeIn(buf[..], r.cmd)))
  {
    hide Line, Lex, CString, LineForm, ReadLex;
    ghost var was := buf[..];
    var n := Strlen(buf);
    var s := buf[..n];
    LineAt(was, n);
    var parser := new Parser(s);
    r := parser.ParseLine();
    Accepted(s);
    if r.Syntax? {
      return;
    }
    var cmd := r.cmd;
    var more := parser.Peek("");
    Head(s, parser.ps);
    if parser.ps != n {
      return Syntax(Leftovers);
    }
    GoodSpans(s, cmd);
    Nulterminate(buf, cmd);
    AllWordsRead(was, buf[..], s, n, cmd);
    SameWords(s, buf[..], cmd);
    ParsedExactly(s, TreeOf(s, cmd));
  }

  lemma SameWords(s: string, b: seq<char>, c: Command)
    requires forall w :: w in Spans(c) ==> w.q < w.eq <= |s| && w.q <= |b| && CString(b, w.q) == s[w.q..w.eq]
    ensures TreeIn(b, c) == TreeOf(s, c)
  {
    hide CString, TreeIn, TreeOf;
    forall w | w in Spans(c) ensures WordIn(b, w) == TextOf(s, w) {
    }
    SameTree(s, b, c);
  }

  /** The command as the shell runs it: its words are the C strings in the buffer. */
  function TreeIn(b: seq<char>, c: Command): Tree {
    match c
    case Exec(args) => Tree.Exec(seq(|args|, k requires 0 <= k < |args| => WordIn(b, args[k])))
    case Redir(d, f, out) => Tree.Redir(TreeIn(b, d), WordIn(b, f), out)
    case Pipe(l, r) => Tree.Pipe(TreeIn(b, l), TreeIn(b, r))
    case List(l, r) => Tree.List(TreeIn(b, l), TreeIn(b, r))
    case Back(d) => Tree.Back(TreeIn(b, d))
  }

  function WordIn(b: seq<char>, w: Span): string {
    if w.q <= |b| then CString(b, w.q) else ""
  }

  lemma {:induction false} SameTree(s: string, b: seq<char>, c: Command)
    requires forall w :: w in Spans(c) ==> WordIn(b, w) == TextOf(s, w)
    ensures TreeIn(b, c) == TreeOf(s, c)
  {
    hide WordIn, TextOf;
    match c
    case Exec(args) =>
      assert forall k :: 0 <= k < |args| ==> args[k] in Spans(c);
    case Redir(d, f, _) =>
      assert f in Spans(c);
      SameTree(s, b, d);
    case Pipe(l, r) => SameTree(s, b, l); SameTree(s, b, r);
    case List(l, r) => SameTree(s, b, l); SameTree(s, b, r);
    case Back(d) => SameTree(s, b, d);
  }

  /**
   Whatever command tree is printed into the buffer, parsecmd finds that tree, its words as C strings in the buffer.
   */
  method ParsePrinted(buf: array<char>, ghost t: Tree, ghost gaps: seq<string>) returns (r: Result)
    requires GoodTree(t) && |gaps| == |LineTokens(t)| + 1 && GoodGaps(LineTokens(t), gaps)
    requires Write(LineTokens(t), gaps) + ['\0'] <= buf[..]
    modifies buf
    ensures r.Good? && TreeIn(buf[..], r.cmd) == t
  {
    hide Lex, Line, LineForm, LineTokens, Write, GoodTree, GoodGaps, ReadLex;
    ghost var s := Write(LineTokens(t), gaps);
    assert (s + ['\0'])[|s|] == buf[..][|s|] == '\0' && '\0' in buf[..];
    PrintedGood(t);
    WriteIsLine(LineTokens(t), gaps);
    assert buf[..|s|] == s;
    LineAt(buf[..], |s|);
    RoundTrip(t, gaps);
    ParsedExactly(s, t);
    r := Parsecmd(buf);
    ParsedExactly(s, TreeIn(buf[..], r.cmd));
  }

  lemma LineAt(b: seq<char>, n: nat)
    requires n < |b| && b[n] == '\0' && IsLine(b[..n])
    ensures CString(b, 0) == b[..n]
  {
    forall k | 0 <= k < n ensures b[k] != '\0' {
      assert b[k] == b[..n][k];
    }
    CStringIs(b, 0, n);
  }

  lemma {:induction false} InTokens(ts: Tokens, w: Span)
    requires w in WordsIn(ts)
    ensures Word(w) in ts
    decreases |ts|
  {
    var n := |ts| - 1;
    if ts[n] != Word(w) {
      InTokens(ts[..n], w);
    }
  }

  lemma GoodSpans(s: string, c: Command)
    requires Line(Lex(s, 0)) == Ok(c, [])
    ensures forall w :: w in Spans(c) ==> GoodSpan(s, w)
  {
    hide Line, Lex;
    var ts := Lex(s, 0);
    ParsedWords(ts, c);
    forall w | w in Spans(c) ensures GoodSpan(s, w) {
      assert w in multiset(Spans(c));
      assert w in WordsIn(ts);
      InTokens(ts, w);
      LexWords(s, 0, w);
    }
  }

  /** What lies behind the NUL of the line does not matter. */
  lemma AllWordsRead(was: seq<char>, now: seq<char>, s: string, n: nat, c: Command)
    requires n < |was| && was[n] == '\0' && s == was[..n] && IsLine(s)
    requires Terminated(was, now, c) && forall w :: w in Spans(c) ==> GoodSpan(s, w)
    ensures forall w :: w in Spans(c) ==> w.q < w.eq <= |s| && CString(now, w.q) == s[w.q..w.eq]
  {
    hide CString;
    var b, a := was[..n + 1], now[..n + 1];
    assert b == s + ['\0'];
    assert Terminated(b, a, c);
    forall w | w in Spans(c) ensures w.q < w.eq <= |s| && CString(now, w.q) == s[w.q..w.eq] {
      WordsRead(s, a, c, w);
      assert GoodSpan(s, w);
      assert EndsAt(c, w.eq);
      Prefix(now, n + 1, w.q, w.eq);
    }
  }

  lemma {:induction false} Prefix(b: seq<char>, n: nat, q: nat, e: nat)
    requires q <= e < n <= |b| && b[e] == '\0'
    ensures CString(b[..n], q) == CString(b, q)
    decreases e - q
  {
    if q < e && b[q] != '\0' {
      Prefix(b, n, q + 1, e);
    }
  }
}
