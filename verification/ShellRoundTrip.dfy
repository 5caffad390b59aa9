/**
 Lines of text. A line is accepted with a command tree exactly if its tokens, with words as text, are a form of that
 tree; and every tree, printed with no more parentheses than it needs, parses back to itself.
 */
module ShellRoundTrip {
  import opened ShellGrammar
  import opened ShellForms

  /** A command with its words as text. */
  type Tree = Cmd<string>

  type Texts = seq<Token<string>>

  ghost predicate GoodWord(w: string) {
    w != "" && forall k :: 0 <= k < |w| ==> IsWordChar(w[k])
  }

  /** Words without blanks, symbols or NUL, and at most MAXARGS - 1 of them in a command. */
  ghost predicate GoodTree(t: Tree) {
    match t
    case Exec(args) => |args| < MAXARGS && forall k :: 0 <= k < |args| ==> GoodWord(args[k])
    case Redir(c, f, _) => GoodTree(c) && GoodWord(f)
    case Pipe(l, r) => GoodTree(l) && GoodTree(r)
    case List(l, r) => GoodTree(l) && GoodTree(r)
    case Back(c) => GoodTree(c)
  }

  function TextOf(s: string, w: Span): string {
    if w.q <= w.eq <= |s| then s[w.q..w.eq] else ""
  }

  function TokenText(s: string, t: Token<Span>): Token<string> {
    match t
    case Sym(c) => Sym(c)
    case Append => Append
    case Word(w) => Word(TextOf(s, w))
  }

  /** The tokens of the line, with words as text. */
  function Read(s: string, ts: Tokens): (r: Texts)
    ensures |r| == |ts|
  {
    seq(|ts|, k requires 0 <= k < |ts| => TokenText(s, ts[k]))
  }

  function WordTexts(s: string, ws: seq<Span>): (r: seq<string>)
    ensures |r| == |ws|
  {
    seq(|ws|, k requires 0 <= k < |ws| => TextOf(s, ws[k]))
  }

  /** The command, with words as text. */
  function TreeOf(s: string, c: Command): Tree {
    match c
    case Exec(args) => Exec(WordTexts(s, args))
    case Redir(d, f, out) => Redir(TreeOf(s, d), TextOf(s, f), out)
    case Pipe(l, r) => Pipe(TreeOf(s, l), TreeOf(s, r))
    case List(l, r) => List(TreeOf(s, l), TreeOf(s, r))
    case Back(d) => Back(TreeOf(s, d))
  }

  /** The tokens of the line from i on, with words as text. */
  function ReadLex(s: string, i: nat): Texts
    requires i <= |s|
  {
    Read(s, Lex(s, i))
  }

  // ---------------------------------------------------------------- forms of stretches and of their texts

  lemma ReadPart(s: string, ts: Tokens, i: nat, j: nat)
    requires i <= j <= |ts|
    ensures Read(s, ts[i..j]) == Read(s, ts)[i..j]
  {
  }

  lemma ReadParts(s: string, ts: Tokens, k: nat)
    requires k < |ts|
    ensures Read(s, ts[..k]) == Read(s, ts)[..k] && Read(s, ts[k + 1..]) == Read(s, ts)[k + 1..]
    ensures forall c :: Read(s, ts)[k] == Sym(c) <==> ts[k] == Sym(c)
  {
  }

  lemma ReadRedir(s: string, ts: Tokens)
    ensures EndsInRedir(Read(s, ts)) <==> EndsInRedir(ts)
  {
  }

  lemma {:induction false} ArgvTexts(s: string, c: Command, args: seq<Span>)
    ensures Argv(TreeOf(s, c)) == WordTexts(s, Argv(c))
    ensures TreeOf(s, WithArgv(c, args)) == WithArgv(TreeOf(s, c), WordTexts(s, args))
  {
    hide WordTexts;
    if c.Redir? {
      ArgvTexts(s, c.sub, args);
    } else if !c.Exec? {
      assert WordTexts(s, []) == [];
    }
  }

  /** If the tokens are a form of some tree by their texts, they are one of a command. */
  lemma {:induction false} SimpleUnread(s: string, ts: Tokens, t: Tree) returns (c: Command)
    requires SimpleForm(Read(s, ts), t)
    ensures SimpleForm(ts, c) && TreeOf(s, c) == t
    decreases |ts|
  {
    hide SimpleForm, Read, TreeOf, WordTexts, Argv, WithArgv;
    var n := |ts| - 1;
    ReadRedir(s, ts);
    if ts == [] {
      c := Exec([]);
      SimpleNone(s, ts, t);
    } else if EndsInRedir(ts) {
      SimpleRedirParts(Read(s, ts), t);
      ReadPart(s, ts, 0, n - 1);
      assert ts[0..n - 1] == ts[..n - 1] && Read(s, ts)[0..n - 1] == Read(s, ts)[..n - 1];
      var d := SimpleUnread(s, ts[..n - 1], t.sub);
      c := Redir(d, ts[n].w, t.out);
      LastRead(s, ts, t, c);
      SimpleRedirIs(ts, c);
    } else {
      SimpleWordParts(Read(s, ts), t);
      ReadParts(s, ts, n);
      WordRead(s, ts, n);
      var d := SimpleUnread(s, ts[..n], WithArgv(t, Argv(t)[..|Argv(t)| - 1]));
      c := WordUnread(s, ts, t, d);
    }
  }

  lemma SimpleNone(s: string, ts: Tokens, t: Tree)
    requires ts == []
    ensures SimpleForm(Read(s, ts), t) <==> t == Exec([])
    ensures SimpleForm<Span>([], Exec([])) && TreeOf(s, Exec([])) == Exec([])
  {
    assert Read(s, ts) == [];
  }

  lemma SimpleRedirParts<W>(ts: seq<Token<W>>, c: Cmd<W>)
    requires SimpleForm(ts, c) && EndsInRedir(ts)
    ensures LastRedir(ts, c) && SimpleForm(ts[..|ts| - 2], c.sub)
  {
  }

  lemma SimpleWordParts<W>(ts: seq<Token<W>>, c: Cmd<W>)
    requires SimpleForm(ts, c) && ts != [] && !EndsInRedir(ts)
    ensures ts[|ts| - 1].Word? && 1 <= |Argv(c)| < MAXARGS && Argv(c)[|Argv(c)| - 1] == ts[|ts| - 1].w
    ensures SimpleForm(ts[..|ts| - 1], WithArgv(c, Argv(c)[..|Argv(c)| - 1]))
  {
  }

  lemma LastRead(s: string, ts: Tokens, t: Tree, c: Command)
    requires EndsInRedir(ts) && t.Redir? && c.Redir? && TreeOf(s, c.sub) == t.sub && c.out == t.out
    requires LastRedir(Read(s, ts), t) && c.file == ts[|ts| - 1].w
    ensures LastRedir(ts, c) && TreeOf(s, c) == t
  {
  }

  lemma WordUnread(s: string, ts: Tokens, t: Tree, d: Command) returns (c: Command)
    requires ts != [] && !EndsInRedir(ts) && ts[|ts| - 1].Word? && SimpleForm(ts[..|ts| - 1], d)
    requires 1 <= |Argv(t)| < MAXARGS && Argv(t)[|Argv(t)| - 1] == TextOf(s, ts[|ts| - 1].w)
    requires TreeOf(s, d) == WithArgv(t, Argv(t)[..|Argv(t)| - 1])
    ensures SimpleForm(ts, c) && TreeOf(s, c) == t
  {
    hide SimpleForm, Read, TreeOf, WordTexts, Argv, WithArgv, TextOf;
    var w, k := ts[|ts| - 1].w, |Argv(t)| - 1;
    var args := Argv(d) + [w];
    c := WithArgv(d, args);
    ArgvWith(t, Argv(t)[..k]);
    ArgvTexts(s, d, args);
    assert WordTexts(s, Argv(d)) == Argv(t)[..k];
    TextsMore(s, Argv(d), w);
    assert WordTexts(s, args) == Argv(t);
    WithTwice(t, Argv(t)[..k], Argv(t));
    assert TreeOf(s, c) == t;
    Extended(d, args, k, t, s);
    SimpleWordIs(ts, c);
  }

  lemma TextsMore(s: string, ws: seq<Span>, w: Span)
    ensures WordTexts(s, ws + [w]) == WordTexts(s, ws) + [TextOf(s, w)]
  {
  }

  /** d is a simple command, because its tree is one. */
  lemma Extended(d: Command, args: seq<Span>, k: nat, t: Tree, s: string)
    requires |Argv(t)| == k + 1 && TreeOf(s, d) == WithArgv(t, Argv(t)[..k]) && |Argv(d)| == k
    requires |args| == k + 1 && args[..k] == Argv(d)
    ensures Argv(WithArgv(d, args)) == args && WithArgv(WithArgv(d, args), args[..k]) == d
  {
    WithTwice(d, args, Argv(d));
    ArgvSimple(s, d, t, Argv(t)[..k], args);
  }

  lemma {:induction false} ArgvSimple(s: string, d: Command, t: Tree, fewer: seq<string>, args: seq<Span>)
    requires Argv(t) != [] && TreeOf(s, d) == WithArgv(t, fewer)
    ensures Argv(WithArgv(d, args)) == args
  {
    if t.Redir? {
      ArgvSimple(s, d.sub, t.sub, fewer, args);
    }
  }

  lemma {:induction false} ParenUnread(s: string, ts: Tokens, t: Tree) returns (c: Command)
    requires ParenForm(Read(s, ts), t)
    ensures ParenForm(ts, c) && TreeOf(s, c) == t
    decreases |ts|, 0
  {
    hide LineForm, ParenForm, TreeOf, Read;
    var n := |ts| - 1;
    ParenParts(Read(s, ts), t);
    ReadRedir(s, ts);
    if LastRedir(Read(s, ts), t) && ParenForm(Read(s, ts)[..n - 1], t.sub) {
      ReadPart(s, ts, 0, n - 1);
      assert ts[0..n - 1] == ts[..n - 1] && Read(s, ts)[0..n - 1] == Read(s, ts)[..n - 1];
      var d := ParenUnread(s, ts[..n - 1], t.sub);
      c := Redir(d, ts[n].w, t.out);
      LastRead(s, ts, t, c);
      ParenRedir(ts, c);
    } else {
      ReadPart(s, ts, 1, n);
      ReadParts(s, ts, 0);
      ReadParts(s, ts, n);
      c := LineUnread(s, ts[1..n], t);
      ParenLine(ts, c);
    }
  }

  lemma ParenParts<W>(ts: seq<Token<W>>, c: Cmd<W>)
    requires ParenForm(ts, c)
    ensures |ts| >= 2
    ensures
      || (ts[0] == Sym('(') && ts[|ts| - 1] == Sym(')') && LineForm(ts[1..|ts| - 1], c))
      || (LastRedir(ts, c) && ParenForm(ts[..|ts| - 2], c.sub))
  {
    hide LineForm;
  }

  lemma {:induction false} PipeUnread(s: string, ts: Tokens, t: Tree) returns (c: Command)
    requires PipeForm(Read(s, ts), t)
    ensures PipeForm(ts, c) && TreeOf(s, c) == t
    decreases |ts|, 2
  {
    hide SimpleForm, ParenForm, Read;
    var us := Read(s, ts);
    if SimpleForm(us, t) {
      c := SimpleUnread(s, ts, t);
    } else if ParenForm(us, t) {
      c := ParenUnread(s, ts, t);
    } else {
      var k :| 0 <= k < |us| && us[k] == Sym('|') && BlockForm(us[..k], t.left) && PipeForm(us[k + 1..], t.right);
      ReadParts(s, ts, k);
      BlockIsPipe(us[..k], t.left);
      var l := BlockUnread(s, ts[..k], t.left);
      var r := PipeUnread(s, ts[k + 1..], t.right);
      c := Pipe(l, r);
    }
  }

  lemma {:induction false} BlockUnread(s: string, ts: Tokens, t: Tree) returns (c: Command)
    requires BlockForm(Read(s, ts), t)
    ensures BlockForm(ts, c) && TreeOf(s, c) == t
    decreases |ts|, 1
  {
    hide SimpleForm, ParenForm, Read;
    if SimpleForm(Read(s, ts), t) {
      c := SimpleUnread(s, ts, t);
    } else {
      c := ParenUnread(s, ts, t);
    }
  }

  lemma {:induction false} BackUnread(s: string, ts: Tokens, t: Tree) returns (c: Command)
    requires BackForm(Read(s, ts), t)
    ensures BackForm(ts, c) && TreeOf(s, c) == t
    decreases |ts|, 3
  {
    hide PipeForm, Read;
    var us := Read(s, ts);
    if PipeForm(us, t) {
      c := PipeUnread(s, ts, t);
    } else {
      ReadParts(s, ts, |ts| - 1);
      var d := BackUnread(s, ts[..|ts| - 1], t.sub);
      c := Back(d);
    }
  }

  lemma {:induction false} LineUnread(s: string, ts: Tokens, t: Tree) returns (c: Command)
    requires LineForm(Read(s, ts), t)
    ensures LineForm(ts, c) && TreeOf(s, c) == t
    decreases |ts|, 4
  {
    hide BackForm, Read;
    var us := Read(s, ts);
    if BackForm(us, t) {
      c := BackUnread(s, ts, t);
    } else {
      var k :| 0 <= k < |us| && us[k] == Sym(';') && BackForm(us[..k], t.left) && LineForm(us[k + 1..], t.right);
      ReadParts(s, ts, k);
      var l := BackUnread(s, ts[..k], t.left);
      var r := LineUnread(s, ts[k + 1..], t.right);
      c := List(l, r);
    }
  }

  /** And the texts of a form of a command are a form of its tree. */
  lemma {:induction false} SimpleRead(s: string, ts: Tokens, c: Command)
    requires SimpleForm(ts, c)
    ensures SimpleForm(Read(s, ts), TreeOf(s, c))
    decreases |ts|
  {
    hide SimpleForm, Read, TreeOf, WordTexts, Argv, WithArgv, TextOf;
    var n := |ts| - 1;
    ReadRedir(s, ts);
    if ts == [] {
      SimpleNone(s, ts, TreeOf(s, c));
      NoTokens(c);
    } else if EndsInRedir(ts) {
      SimpleRedirParts(ts, c);
      SimpleRead(s, ts[..n - 1], c.sub);
      ReadPart(s, ts, 0, n - 1);
      assert ts[0..n - 1] == ts[..n - 1] && Read(s, ts)[0..n - 1] == Read(s, ts)[..n - 1];
      LastWritten(s, ts, c);
      SimpleRedirIs(Read(s, ts), TreeOf(s, c));
    } else {
      SimpleWordParts(ts, c);
      var k := |Argv(c)| - 1;
      SimpleRead(s, ts[..n], WithArgv(c, Argv(c)[..k]));
      ReadParts(s, ts, n);
      WordRead(s, ts, n);
      ArgvTexts(s, c, Argv(c)[..k]);
      TextsMore(s, Argv(c)[..k], Argv(c)[k]);
      assert Argv(c) == Argv(c)[..k] + [Argv(c)[k]];
      SimpleWordIs(Read(s, ts), TreeOf(s, c));
    }
  }

  lemma NoTokens(c: Command)
    requires SimpleForm([], c)
    ensures c == Exec([])
  {
  }

  lemma WordRead(s: string, ts: Tokens, k: nat)
    requires k < |ts|
    ensures Read(s, ts)[k].Word? <==> ts[k].Word?
    ensures ts[k].Word? ==> Read(s, ts)[k] == Word(TextOf(s, ts[k].w))
  {
  }

  lemma LastWritten(s: string, ts: Tokens, c: Command)
    requires LastRedir(ts, c)
    ensures LastRedir(Read(s, ts), TreeOf(s, c)) && TreeOf(s, c).sub == TreeOf(s, c.sub)
  {
  }

  lemma {:induction false} ParenRead(s: string, ts: Tokens, c: Command)
    requires ParenForm(ts, c)
    ensures ParenForm(Read(s, ts), TreeOf(s, c))
    decreases |ts|, 0
  {
    hide LineForm, ParenForm, TreeOf, Read;
    var n := |ts| - 1;
    ParenParts(ts, c);
    if LastRedir(ts, c) && ParenForm(ts[..n - 1], c.sub) {
      ParenRead(s, ts[..n - 1], c.sub);
      ReadPart(s, ts, 0, n - 1);
      assert ts[0..n - 1] == ts[..n - 1] && Read(s, ts)[0..n - 1] == Read(s, ts)[..n - 1];
      LastWritten(s, ts, c);
      ParenRedir(Read(s, ts), TreeOf(s, c));
    } else {
      LineRead(s, ts[1..n], c);
      ReadPart(s, ts, 1, n);
      ReadParts(s, ts, 0);
      ReadParts(s, ts, n);
      ParenLine(Read(s, ts), TreeOf(s, c));
    }
  }

  lemma {:induction false} BlockRead(s: string, ts: Tokens, c: Command)
    requires BlockForm(ts, c)
    ensures BlockForm(Read(s, ts), TreeOf(s, c))
    decreases |ts|, 1
  {
    hide SimpleForm, ParenForm, Read;
    if SimpleForm(ts, c) {
      SimpleRead(s, ts, c);
    } else {
      ParenRead(s, ts, c);
    }
  }

  lemma {:induction false} PipeRead(s: string, ts: Tokens, c: Command)
    requires PipeForm(ts, c)
    ensures PipeForm(Read(s, ts), TreeOf(s, c))
    decreases |ts|, 2
  {
    hide BlockForm, Read;
    if BlockForm(ts, c) {
      BlockRead(s, ts, c);
    } else {
      var k :| 0 <= k < |ts| && ts[k] == Sym('|') && BlockForm(ts[..k], c.left) && PipeForm(ts[k + 1..], c.right);
      ReadParts(s, ts, k);
      BlockRead(s, ts[..k], c.left);
      PipeRead(s, ts[k + 1..], c.right);
    }
  }

  lemma {:induction false} BackRead(s: string, ts: Tokens, c: Command)
    requires BackForm(ts, c)
    ensures BackForm(Read(s, ts), TreeOf(s, c))
    decreases |ts|, 3
  {
    hide PipeForm, Read;
    if PipeForm(ts, c) {
      PipeRead(s, ts, c);
    } else {
      BackRead(s, ts[..|ts| - 1], c.sub);
      ReadParts(s, ts, |ts| - 1);
    }
  }

  lemma {:induction false} LineRead(s: string, ts: Tokens, c: Command)
    requires LineForm(ts, c)
    ensures LineForm(Read(s, ts), TreeOf(s, c))
    decreases |ts|, 4
  {
    hide BackForm, Read;
    if BackForm(ts, c) {
      BackRead(s, ts, c);
    } else {
      var k :| 0 <= k < |ts| && ts[k] == Sym(';') && BackForm(ts[..k], c.left) && LineForm(ts[k + 1..], c.right);
      ReadParts(s, ts, k);
      BackRead(s, ts[..k], c.left);
      LineRead(s, ts[k + 1..], c.right);
    }
  }

  /** For every line and every tree: the line is accepted with that tree exactly if its tokens are a form of it. */
  lemma ParsedExactly(s: string, t: Tree)
    ensures Parsed(s).Ok? && TreeOf(s, Parsed(s).cmd) == t <==> LineForm(ReadLex(s, 0), t)
  {
    hide Line, LineForm, Lex, TreeOf, Read;
    var ts := Lex(s, 0);
    if LineForm(Read(s, ts), t) {
      var c := LineUnread(s, ts, t);
      FormsExactly(ts, c);
    }
    if Parsed(s).Ok? {
      FormsExactly(ts, Parsed(s).cmd);
      LineRead(s, ts, Parsed(s).cmd);
    }
  }

  lemma Accepted(s: string)
    ensures Parsed(s).Ok? <==> exists t :: LineForm(ReadLex(s, 0), t)
  {
    hide Line, LineForm, Lex, TreeOf, Read;
    if Parsed(s).Ok? {
      ParsedExactly(s, TreeOf(s, Parsed(s).cmd));
    }
    if t :| LineForm(ReadLex(s, 0), t) {
      ParsedExactly(s, t);
    }
  }

  // ---------------------------------------------------------------- scanning what was written

  function Spelled(t: Token<string>): string {
    match t
    case Sym(c) => [c]
    case Append => ">>"
    case Word(w) => w
  }

  /** The tokens with stretches of blanks before, between and behind them. */
  function Write(ts: Texts, gaps: seq<string>): string
    requires |gaps| == |ts| + 1
  {
    if ts == [] then gaps[0] else gaps[0] + Spelled(ts[0]) + Write(ts[1..], gaps[1..])
  }

  /** Without a blank between them, these would be read as one token, or as others. */
  predicate NeedsBlank(a: Token<string>, b: Token<string>) {
    (a.Word? && b.Word?) || (a == Sym('>') && (b == Sym('>') || b.Append?))
  }

  ghost predicate AllSpace(gap: string) {
    forall k :: 0 <= k < |gap| ==> IsSpace(gap[k])
  }

  ghost predicate GoodGaps(ts: Texts, gaps: seq<string>)
    requires |gaps| == |ts| + 1
  {
    && (forall k :: 0 <= k < |gaps| ==> AllSpace(gaps[k]))
    && (forall k :: 0 < k < |ts| && NeedsBlank(ts[k - 1], ts[k]) ==> gaps[k] != "")
  }

  ghost predicate GoodToken(t: Token<string>) {
    match t
    case Sym(c) => IsSymbol(c)
    case Append => true
    case Word(w) => GoodWord(w)
  }

  ghost predicate GoodTexts(ts: Texts) {
    forall k :: 0 <= k < |ts| ==> GoodToken(ts[k])
  }

  lemma {:induction false} LexSpaces(s: string, i: nat, j: nat)
    requires i <= j <= |s| && AllSpace(s[i..j])
    ensures ReadLex(s, i) == ReadLex(s, j)
    decreases j - i
  {
    hide ReadLex;
    if i < j {
      assert s[i] == s[i..j][0] && s[i + 1..j] == s[i..j][1..];
      LexSpace(s, i);
      LexSpaces(s, i + 1, j);
    }
  }

  lemma LexSpace(s: string, i: nat)
    requires i < |s| && IsSpace(s[i])
    ensures ReadLex(s, i) == ReadLex(s, i + 1)
  {
    assert Skip(s, i) == Skip(s, i + 1);
  }

  lemma ReadFirst(s: string, t: Token<Span>, ts: Tokens)
    ensures Read(s, [t] + ts) == [TokenText(s, t)] + Read(s, ts)
  {
  }

  /** At place e no word goes on. */
  predicate Delimited(s: string, e: nat) {
    e == |s| || (e < |s| && (IsSpace(s[e]) || IsSymbol(s[e])))
  }

  lemma LexSymbol(s: string, i: nat, c: char)
    requires i < |s| && s[i] == c && IsSymbol(c) && !(c == '>' && CharAt(s, i + 1) == '>')
    ensures ReadLex(s, i) == [Sym(c)] + ReadLex(s, i + 1)
  {
    assert Lex(s, i) == [Sym(c)] + Lex(s, i + 1);
    ReadFirst(s, Sym(c), Lex(s, i + 1));
  }

  lemma LexAppend(s: string, i: nat)
    requires i + 1 < |s| && s[i] == '>' && s[i + 1] == '>'
    ensures ReadLex(s, i) == [Append] + ReadLex(s, i + 2)
  {
    assert Lex(s, i) == [Append] + Lex(s, i + 2);
    ReadFirst(s, Append, Lex(s, i + 2));
  }

  lemma {:induction false} WordEndIs(s: string, i: nat, e: nat)
    requires i <= e <= |s| && Delimited(s, e)
    requires forall k :: i <= k < e ==> !IsSpace(s[k]) && !IsSymbol(s[k])
    ensures WordEnd(s, i) == e
    decreases e - i
  {
    if i < e {
      WordEndIs(s, i + 1, e);
    }
  }

  lemma LexWord(s: string, i: nat, w: string)
    requires i + |w| <= |s| && s[i..i + |w|] == w && GoodWord(w) && Delimited(s, i + |w|)
    ensures ReadLex(s, i) == [Word(w)] + ReadLex(s, i + |w|)
  {
    var e := i + |w|;
    forall k | i <= k < e ensures !IsSpace(s[k]) && !IsSymbol(s[k]) {
      assert s[k] == s[i..e][k - i] == w[k - i];
    }
    WordEndIs(s, i, e);
    var t: Token<Span> := Word(Span(i, e));
    assert Lex(s, i) == [t] + Lex(s, e);
    ReadFirst(s, t, Lex(s, e));
  }

  /** What stands at e does not belong to token t before it. */
  predicate Closed(s: string, e: nat, t: Token<string>) {
    (t.Word? ==> Delimited(s, e)) && (t == Sym('>') ==> CharAt(s, e) != '>')
  }

  lemma LexToken(s: string, i: nat, t: Token<string>)
    requires GoodToken(t) && i + |Spelled(t)| <= |s| && s[i..i + |Spelled(t)|] == Spelled(t)
    requires Closed(s, i + |Spelled(t)|, t)
    ensures ReadLex(s, i) == [t] + ReadLex(s, i + |Spelled(t)|)
  {
    hide ReadLex, GoodWord, IsSymbol, Delimited;
    var p := s[i..i + |Spelled(t)|];
    match t
    case Sym(c) =>
      assert p[0] == c;
      LexSymbol(s, i, c);
    case Append =>
      assert p[0] == '>' && p[1] == '>';
      LexAppend(s, i);
    case Word(w) => LexWord(s, i, w);
  }

  lemma FirstChar(t: Token<string>)
    requires GoodToken(t)
    ensures Spelled(t) != ""
    ensures !t.Word? ==> IsSymbol(Spelled(t)[0])
    ensures Spelled(t)[0] == '>' ==> t == Sym('>') || t.Append?
    ensures !IsSpace('>')
  {
    if t.Word? {
      assert IsWordChar(t.w[0]);
    }
  }

  /** The blank or the token behind t closes it. */
  lemma WrittenCloses(s: string, e: nat, t: Token<string>, ts: Texts, gaps: seq<string>)
    requires e <= |s| && |gaps| == |ts| + 1 && s[e..] == Write(ts, gaps) && GoodTexts(ts)
    requires AllSpace(gaps[0]) && (ts != [] && NeedsBlank(t, ts[0]) ==> gaps[0] != "")
    ensures Closed(s, e, t)
  {
    hide IsSymbol, GoodToken, Spelled, IsSpace;
    if e < |s| {
      assert s[e] == s[e..][0];
      if gaps[0] != "" {
        assert s[e] == gaps[0][0];
        FirstChar(Append);
      } else if ts != [] {
        assert GoodToken(ts[0]);
        FirstChar(ts[0]);
        assert s[e] == Spelled(ts[0])[0];
      }
    }
  }

  lemma GapsRest(ts: Texts, gaps: seq<string>)
    requires |gaps| == |ts| + 1 && GoodGaps(ts, gaps) && ts != []
    ensures GoodGaps(ts[1..], gaps[1..])
    ensures AllSpace(gaps[0]) && AllSpace(gaps[1]) && (|ts| > 1 && NeedsBlank(ts[0], ts[1]) ==> gaps[1] != "")
  {
    hide AllSpace, NeedsBlank;
    forall k | 0 < k < |ts[1..]| && NeedsBlank(ts[1..][k - 1], ts[1..][k]) ensures gaps[1..][k] != "" {
      assert ts[1..][k - 1] == ts[k] && ts[1..][k] == ts[k + 1];
    }
  }

  lemma Parts(s: string, i: nat, a: string, b: string, c: string)
    requires i <= |s| && s[i..] == a + b + c
    ensures i + |a| + |b| <= |s| && s[i..i + |a|] == a
    ensures s[i + |a|..i + |a| + |b|] == b && s[i + |a| + |b|..] == c
  {
    var t := s[i..];
    assert t == a + (b + c);
    assert s[i..i + |a|] == t[..|a|] && s[i + |a|..i + |a| + |b|] == t[|a|..|a| + |b|];
    assert s[i + |a| + |b|..] == t[|a| + |b|..];
  }

  /** Scanning what was written gives the tokens back. */
  lemma {:induction false} LexWritten(s: string, i: nat, ts: Texts, gaps: seq<string>)
    requires |gaps| == |ts| + 1 && GoodTexts(ts) && GoodGaps(ts, gaps) && i <= |s| && s[i..] == Write(ts, gaps)
    ensures ReadLex(s, i) == ts
    decreases |ts|
  {
    hide ReadLex, GoodToken, Spelled, GoodGaps, AllSpace, NeedsBlank, Closed;
    var j := i + |gaps[0]|;
    if ts == [] {
      LastGap(s, i, gaps);
    } else {
      GapsRest(ts, gaps);
      var p, more := Spelled(ts[0]), Write(ts[1..], gaps[1..]);
      Parts(s, i, gaps[0], p, more);
      LexSpaces(s, i, j);
      WrittenCloses(s, j + |p|, ts[0], ts[1..], gaps[1..]);
      LexToken(s, j, ts[0]);
      LexWritten(s, j + |p|, ts[1..], gaps[1..]);
    }
  }

  lemma LastGap(s: string, i: nat, gaps: seq<string>)
    requires |gaps| == 1 && GoodGaps([], gaps) && i <= |s| && s[i..] == Write([], gaps)
    ensures ReadLex(s, i) == []
  {
    assert s[i..|s|] == s[i..];
    LexSpaces(s, i, |s|);
  }

  /** A written line has no NUL, so strlen finds its end. */
  lemma {:induction false} WriteIsLine(ts: Texts, gaps: seq<string>)
    requires |gaps| == |ts| + 1 && GoodTexts(ts) && GoodGaps(ts, gaps)
    ensures IsLine(Write(ts, gaps))
    decreases |ts|
  {
    hide GoodToken, Spelled, IsSpace, GoodGaps;
    GapIsLine(ts, gaps);
    if ts != [] {
      GapsRest(ts, gaps);
      WriteIsLine(ts[1..], gaps[1..]);
      assert GoodToken(ts[0]);
      TokenIsLine(ts[0]);
    }
  }

  lemma GapIsLine(ts: Texts, gaps: seq<string>)
    requires |gaps| == |ts| + 1 && GoodGaps(ts, gaps)
    ensures IsLine(gaps[0])
  {
    assert AllSpace(gaps[0]);
  }

  lemma TokenIsLine(t: Token<string>)
    requires GoodToken(t)
    ensures IsLine(Spelled(t))
  {
    var w := Spelled(t);
    if t.Word? {
      assert forall k :: 0 <= k < |w| ==> IsWordChar(w[k]);
    }
  }

  /** Whatever form of a tree is written, the line is accepted with that tree. */
  lemma WrittenParsed(ts: Texts, gaps: seq<string>, t: Tree)
    requires LineForm(ts, t) && GoodTexts(ts) && |gaps| == |ts| + 1 && GoodGaps(ts, gaps)
    ensures Parsed(Write(ts, gaps)).Ok? && TreeOf(Write(ts, gaps), Parsed(Write(ts, gaps)).cmd) == t
  {
    hide LineForm, ReadLex, GoodTexts, GoodGaps;
    var s := Write(ts, gaps);
    assert s[0..] == s;
    LexWritten(s, 0, ts, gaps);
    ParsedExactly(s, t);
  }

  // ---------------------------------------------------------------- a tree with no needless parentheses

  function WordTokens(ws: seq<string>): (r: Texts)
    ensures |r| == |ws|
  {
    seq(|ws|, k requires 0 <= k < |ws| => Word(ws[k]))
  }

  /** List on top. */
  function LineTokens(t: Tree): Texts
    decreases t, 3
  {
    if t.List? then BackTokens(t.left) + [Sym(';')] + LineTokens(t.right) else BackTokens(t)
  }

  function BackTokens(t: Tree): Texts
    decreases t, 2
  {
    if t.Back? then BackTokens(t.sub) + [Sym('&')] else PipeTokens(t)
  }

  function PipeTokens(t: Tree): Texts
    decreases t, 1
  {
    if t.Pipe? then BlockTokens(t.left) + [Sym('|')] + PipeTokens(t.right) else BlockTokens(t)
  }

  /** Parentheses only around what is no simple command. */
  function BlockTokens(t: Tree): Texts
    decreases t, 0
  {
    match t
    case Exec(args) => WordTokens(args)
    case Redir(c, f, out) => BlockTokens(c) + [Sym(if out then '>' else '<'), Word(f)]
    case Pipe(l, r) => [Sym('(')] + (BlockTokens(l) + [Sym('|')] + PipeTokens(r)) + [Sym(')')]
    case List(l, r) => [Sym('(')] + (BackTokens(l) + [Sym(';')] + LineTokens(r)) + [Sym(')')]
    case Back(c) => [Sym('(')] + (BackTokens(c) + [Sym('&')]) + [Sym(')')]
  }

  lemma {:induction false} WordsPrinted(ws: seq<string>)
    requires |ws| < MAXARGS
    ensures SimpleForm(WordTokens(ws), Exec(ws))
    decreases |ws|
  {
    if ws == [] {
      assert WordTokens(ws) == [];
    } else {
      var n := |ws| - 1;
      WordsPrinted(ws[..n]);
      assert WordTokens(ws)[..n] == WordTokens(ws[..n]);
      SimpleWordIs(WordTokens(ws), Exec(ws));
    }
  }

  lemma RedirPrinted(ts: Texts, c: Tree, f: string, out: bool)
    requires BlockForm(ts, c)
    ensures BlockForm(ts + [Sym(if out then '>' else '<'), Word(f)], Redir(c, f, out))
  {
    hide SimpleForm, ParenForm;
    var more: Texts := ts + [Sym(if out then '>' else '<'), Word(f)];
    assert more[..|more| - 2] == ts;
    if SimpleForm(ts, c) {
      SimpleRedirIs(more, Redir(c, f, out));
    } else {
      ParenRedir(more, Redir(c, f, out));
    }
  }

  lemma ParenPrinted(ts: Texts, t: Tree)
    requires LineForm(ts, t)
    ensures BlockForm([Sym('(')] + ts + [Sym(')')], t)
  {
    hide LineForm, SimpleForm, ParenForm;
    var more: Texts := [Sym('(')] + ts + [Sym(')')];
    assert more[1..|more| - 1] == ts;
    ParenLine(more, t);
  }

  lemma PipePrinted(a: Texts, l: Tree, b: Texts, r: Tree)
    requires BlockForm(a, l) && PipeForm(b, r)
    ensures PipeForm(a + [Sym('|')] + b, Pipe(l, r))
  {
    hide BlockForm;
    var ts: Texts := a + [Sym('|')] + b;
    assert ts[..|a|] == a && ts[|a|] == Sym('|') && ts[|a| + 1..] == b;
  }

  lemma ListPrinted(a: Texts, l: Tree, b: Texts, r: Tree)
    requires BackForm(a, l) && LineForm(b, r)
    ensures LineForm(a + [Sym(';')] + b, List(l, r))
  {
    hide BackForm;
    var ts: Texts := a + [Sym(';')] + b;
    assert ts[..|a|] == a && ts[|a|] == Sym(';') && ts[|a| + 1..] == b;
  }

  lemma BackPrinted(a: Texts, t: Tree)
    requires BackForm(a, t)
    ensures BackForm(a + [Sym('&')], Back(t))
  {
    hide BackForm;
    var ts: Texts := a + [Sym('&')];
    assert ts[..|ts| - 1] == a;
    BackMore(ts, Back(t));
  }

  lemma Levels(ts: Texts, t: Tree)
    ensures BlockForm(ts, t) ==> PipeForm(ts, t)
    ensures PipeForm(ts, t) ==> BackForm(ts, t)
    ensures BackForm(ts, t) ==> LineForm(ts, t)
  {
    hide BlockForm;
  }

  /** What is printed on each level is a form of that level. */
  lemma {:induction false} PrintedForms(t: Tree)
    requires GoodTree(t)
    ensures BlockForm(BlockTokens(t), t) && PipeForm(PipeTokens(t), t)
    ensures BackForm(BackTokens(t), t) && LineForm(LineTokens(t), t)
  {
    hide SimpleForm, ParenForm, BlockForm, PipeForm, BackForm, LineForm, WordTokens;
    match t {
      case Exec(args) =>
        WordsPrinted(args);
        SimpleIsBlock(BlockTokens(t), t);
      case Redir(c, f, out) =>
        PrintedForms(c);
        RedirPrinted(BlockTokens(c), c, f, out);
      case Pipe(l, r) =>
        PrintedForms(l);
        PrintedForms(r);
        PipePrinted(BlockTokens(l), l, PipeTokens(r), r);
        Levels(PipeTokens(t), t);
        ParenPrinted(PipeTokens(t), t);
      case List(l, r) =>
        PrintedForms(l);
        PrintedForms(r);
        ListPrinted(BackTokens(l), l, LineTokens(r), r);
        ParenPrinted(LineTokens(t), t);
      case Back(c) =>
        PrintedForms(c);
        BackPrinted(BackTokens(c), c);
        Levels(BackTokens(t), t);
        ParenPrinted(BackTokens(t), t);
    }
    Levels(BlockTokens(t), t);
    Levels(PipeTokens(t), t);
    Levels(BackTokens(t), t);
  }

  lemma SimpleIsBlock(ts: Texts, t: Tree)
    requires SimpleForm(ts, t)
    ensures BlockForm(ts, t)
  {
    hide SimpleForm, ParenForm;
  }

  lemma {:induction false} PrintedGood(t: Tree)
    requires GoodTree(t)
    ensures GoodTexts(BlockTokens(t)) && GoodTexts(PipeTokens(t)) && GoodTexts(BackTokens(t))
    ensures GoodTexts(LineTokens(t))
  {
    hide GoodWord, GoodTexts;
    match t
    case Exec(args) => GoodWords(args);
    case Redir(c, f, out) =>
      PrintedGood(c);
      GoodFile(BlockTokens(c), f, out);
    case Pipe(l, r) =>
      PrintedGood(l);
      PrintedGood(r);
      GoodBetween(BlockTokens(l), '|', PipeTokens(r));
    case List(l, r) =>
      PrintedGood(l);
      PrintedGood(r);
      GoodBetween(BackTokens(l), ';', LineTokens(r));
    case Back(c) =>
      PrintedGood(c);
      GoodWords([]);
      GoodBetween(BackTokens(c), '&', WordTokens([]));
      assert BackTokens(c) + [Sym('&')] + WordTokens([]) == BackTokens(c) + [Sym('&')];
  }

  lemma GoodWords(args: seq<string>)
    requires forall k :: 0 <= k < |args| ==> GoodWord(args[k])
    ensures GoodTexts(WordTokens(args))
  {
  }

  lemma GoodFile(ts: Texts, f: string, out: bool)
    requires GoodTexts(ts) && GoodWord(f)
    ensures GoodTexts(ts + [Sym(if out then '>' else '<'), Word(f)])
  {
    hide GoodWord;
  }

  lemma GoodBetween(a: Texts, c: char, b: Texts)
    requires GoodTexts(a) && GoodTexts(b) && (c == '|' || c == ';' || c == '&')
    ensures GoodTexts(a + [Sym(c)] + b) && GoodTexts([Sym('(')] + (a + [Sym(c)] + b) + [Sym(')')])
  {
    hide GoodWord;
  }

  /** Every tree of commands, printed with any blanks that keep its tokens apart, parses to the same tree. */
  lemma RoundTrip(t: Tree, gaps: seq<string>)
    requires GoodTree(t) && |gaps| == |LineTokens(t)| + 1 && GoodGaps(LineTokens(t), gaps)
    ensures
      var s := Write(LineTokens(t), gaps);
      Parsed(s).Ok? && TreeOf(s, Parsed(s).cmd) == t
  {
    hide LineForm, GoodTree, GoodGaps;
    PrintedForms(t);
    PrintedGood(t);
    WrittenParsed(LineTokens(t), gaps, t);
  }

  // ---------------------------------------------------------------- redirections anywhere among the arguments

  datatype Item = Arg(w: string) | File(f: string, out: bool)

  function ItemTokens(items: seq<Item>): Texts
    decreases |items|
  {
    var n := |items| - 1;
    if items == [] then []
    else
      ItemTokens(items[..n])
      + match items[n]
        case Arg(w) => [Word(w)]
        case File(f, out) => [Sym(if out then '>' else '<'), Word(f)]
  }

  function Args(items: seq<Item>): seq<string>
    decreases |items|
  {
    var n := |items| - 1;
    if items == [] then [] else Args(items[..n]) + if items[n].Arg? then [items[n].w] else []
  }

  /** The redirections of the items around t, the last one outermost. */
  function Nested(t: Tree, items: seq<Item>): Tree
    decreases |items|
  {
    var n := |items| - 1;
    if items == [] then t
    else if items[n].File? then Redir(Nested(t, items[..n]), items[n].f, items[n].out)
    else Nested(t, items[..n])
  }

  lemma {:induction false} NestedArgv(args: seq<string>, more: seq<string>, items: seq<Item>)
    ensures Argv(Nested(Exec(args), items)) == args
    ensures WithArgv(Nested(Exec(args), items), more) == Nested(Exec(more), items)
    decreases |items|
  {
    if items != [] {
      NestedArgv(args, more, items[..|items| - 1]);
    }
  }

  /** Wherever the redirections stand among the arguments, the command is the same. */
  lemma {:induction false} AnyOrder(items: seq<Item>)
    requires |Args(items)| < MAXARGS
    ensures SimpleForm(ItemTokens(items), Nested(Exec(Args(items)), items))
    decreases |items|
  {
    hide SimpleForm, ItemTokens, Args, Nested;
    if items == [] {
      NoItems();
    } else {
      var n := |items| - 1;
      LastItem(items, Exec(Args(items)));
      AnyOrder(items[..n]);
      if items[n].File? {
        SimpleFile(ItemTokens(items[..n]), Nested(Exec(Args(items)), items[..n]), items[n].f, items[n].out);
      } else {
        NestedArgv(Args(items), Args(items[..n]), items[..n]);
        assert Args(items)[..|Args(items)| - 1] == Args(items[..n]);
        SimpleArg(ItemTokens(items[..n]), Nested(Exec(Args(items)), items[..n]), items[n].w);
      }
    }
  }

  lemma LastItem(items: seq<Item>, t: Tree)
    requires items != []
    ensures
      var n := |items| - 1;
      if items[n].File? then
        && ItemTokens(items) == ItemTokens(items[..n])
          + [Sym(if items[n].out then '>' else '<'), Word(items[n].f)]
        && Args(items) == Args(items[..n])
        && Nested(t, items) == Redir(Nested(t, items[..n]), items[n].f, items[n].out)
      else
        && ItemTokens(items) == ItemTokens(items[..n]) + [Word(items[n].w)]
        && Args(items) == Args(items[..n]) + [items[n].w]
        && Nested(t, items) == Nested(t, items[..n])
  {
  }

  lemma SimpleFile(ts: Texts, t: Tree, f: string, out: bool)
    requires SimpleForm(ts, t)
    ensures SimpleForm(ts + [Sym(if out then '>' else '<'), Word(f)], Redir(t, f, out))
  {
    hide SimpleForm;
    var more: Texts := ts + [Sym(if out then '>' else '<'), Word(f)];
    assert more[..|more| - 2] == ts;
    SimpleRedirIs(more, Redir(t, f, out));
  }

  lemma SimpleArg(ts: Texts, t: Tree, w: string)
    requires 1 <= |Argv(t)| < MAXARGS && Argv(t)[|Argv(t)| - 1] == w
    requires SimpleForm(ts, WithArgv(t, Argv(t)[..|Argv(t)| - 1]))
    ensures SimpleForm(ts + [Word(w)], t)
  {
    hide SimpleForm, Argv, WithArgv;
    var more: Texts := ts + [Word(w)];
    assert more[..|more| - 1] == ts;
    if ts != [] {
      SimpleHead(ts, WithArgv(t, Argv(t)[..|Argv(t)| - 1]));
      assert more[|more| - 2] == ts[|ts| - 1];
    }
    SimpleWordIs(more, t);
  }

  lemma NoItems()
    ensures SimpleForm(ItemTokens([]), Nested(Exec(Args([])), []))
  {
  }
}
