/**
 The command language of sh.c in two steps: a line is a list of tokens, and tokens make commands. The parser of sh.c,
 which scans and parses at once, is held against this.
 */
module ShellGrammar {

  const MAXARGS: nat := 10

  // ---------------------------------------------------------------- tokens

  predicate IsSpace(c: char) {
    c == ' ' || c == '\t' || c == '\r' || c == '\n' || c == 11 as char
  }

  predicate IsSymbol(c: char) {
    c == '<' || c == '|' || c == '>' || c == '&' || c == ';' || c == '(' || c == ')'
  }

  predicate IsWordChar(c: char) {
    !IsSpace(c) && !IsSymbol(c) && c != '\0'
  }

  /** A command line: what strlen leaves has no NUL. */
  ghost predicate IsLine(s: string) {
    '\0' !in s
  }

  /** *s, with the NUL that ends the line. */
  function CharAt(s: string, i: nat): char {
    if i < |s| then s[i] else '\0'
  }

  /** The first place from i on that is no space. */
  function Skip(s: string, i: nat): (j: nat)
    requires i <= |s|
    ensures i <= j <= |s| && (j < |s| ==> !IsSpace(s[j]))
    decreases |s| - i
  {
    if i < |s| && IsSpace(s[i]) then Skip(s, i + 1) else i
  }

  /** The first place from i on that does not belong to a word. */
  function WordEnd(s: string, i: nat): (j: nat)
    requires i <= |s|
    ensures i <= j <= |s| && (j < |s| ==> IsSpace(s[j]) || IsSymbol(s[j]))
    ensures forall k :: i <= k < j ==> !IsSpace(s[k]) && !IsSymbol(s[k])
    decreases |s| - i
  {
    if i < |s| && !IsSpace(s[i]) && !IsSymbol(s[i]) then WordEnd(s, i + 1) else i
  }

  /** The stretch q .. eq of the line. */
  datatype Span = Span(q: nat, eq: nat)

  /** Append is the two characters >>. */
  datatype Token<W> = Sym(c: char) | Append | Word(w: W)

  type Tokens = seq<Token<Span>>

  function Lex(s: string, i: nat): Tokens
    requires i <= |s|
    decreases |s| - i
  {
    var j := Skip(s, i);
    if j == |s| then []
    else if s[j] == '>' && CharAt(s, j + 1) == '>' then [Append] + Lex(s, j + 2)
    else if IsSymbol(s[j]) then [Sym(s[j])] + Lex(s, j + 1)
    else [Word(Span(j, WordEnd(s, j)))] + Lex(s, WordEnd(s, j))
  }

  lemma SkipTwice(s: string, i: nat)
    requires i <= |s|
    ensures Skip(s, Skip(s, i)) == Skip(s, i) && Lex(s, Skip(s, i)) == Lex(s, i)
  {
  }

  /** A word of the line: characters of a word up to a delimiter or the end. */
  ghost predicate GoodSpan(s: string, w: Span) {
    && w.q < w.eq <= |s|
    && (forall k :: w.q <= k < w.eq ==> !IsSpace(s[k]) && !IsSymbol(s[k]))
    && (w.eq < |s| ==> IsSpace(s[w.eq]) || IsSymbol(s[w.eq]))
  }

  lemma {:induction false} LexWords(s: string, i: nat, w: Span)
    requires i <= |s| && Word(w) in Lex(s, i)
    ensures GoodSpan(s, w)
    decreases |s| - i
  {
    var j := Skip(s, i);
    if j < |s| {
      if s[j] == '>' && CharAt(s, j + 1) == '>' {
        assert Word(w) in Lex(s, j + 2);
        LexWords(s, j + 2, w);
      } else if IsSymbol(s[j]) {
        assert Word(w) in Lex(s, j + 1);
        LexWords(s, j + 1, w);
      } else if w != Span(j, WordEnd(s, j)) {
        assert Word(w) in Lex(s, WordEnd(s, j));
        LexWords(s, WordEnd(s, j), w);
      }
    }
  }

  // ---------------------------------------------------------------- commands

  /** The tree of struct cmd. A redirection is of standard output (fd 1) or of standard input (fd 0). */
  datatype Cmd<W> =
    | Exec(args: seq<W>)
    | Redir(sub: Cmd<W>, file: W, out: bool)
    | Pipe(left: Cmd<W>, right: Cmd<W>)
    | List(left: Cmd<W>, right: Cmd<W>)
    | Back(sub: Cmd<W>)

  type Command = Cmd<Span>

  datatype Redirection = Redirection(file: Span, out: bool)

  /** The panics of the parser. */
  datatype Reason = Leftovers | MissingFile | NotABlock | MissingParen | UnexpectedToken | TooManyArgs

  datatype Parse = Ok(cmd: Command, rest: Tokens) | Bad(reason: Reason)

  datatype RedirParse = RedirsOk(redirs: seq<Redirection>, rest: Tokens) | RedirsBad

  function Wrap(c: Command, rs: seq<Redirection>): Command
  {
    if rs == [] then c else Redir(Wrap(c, rs[..|rs| - 1]), rs[|rs| - 1].file, rs[|rs| - 1].out)
  }

  predicate StartsWith(ts: Tokens, c: char) {
    ts != [] && ts[0] == Sym(c)
  }

  predicate StartsRedir(ts: Tokens) {
    StartsWith(ts, '<') || StartsWith(ts, '>') || (ts != [] && ts[0].Append?)
  }

  /** No more words of a simple command: one of | ) & ; or the end. */
  predicate StartsStop(ts: Tokens) {
    ts == [] || StartsWith(ts, '|') || StartsWith(ts, ')') || StartsWith(ts, '&') || StartsWith(ts, ';')
  }

  ghost predicate SuffixOf(rest: Tokens, ts: Tokens) {
    |rest| <= |ts| && rest == ts[|ts| - |rest|..]
  }

  // redirs ::= { ("<" | ">" | ">>") word }
  function Redirs(ts: Tokens, rs: seq<Redirection>): (r: RedirParse)
    ensures r.RedirsOk? ==> SuffixOf(r.rest, ts) && |r.rest| + 2 * |r.redirs| == |ts| + 2 * |rs|
    ensures r.RedirsOk? ==> !StartsRedir(r.rest)
    decreases |ts|
  {
    if !StartsRedir(ts) then RedirsOk(rs, ts)
    else if |ts| == 1 || !ts[1].Word? then RedirsBad
    else Redirs(ts[2..], rs + [Redirection(ts[1].w, ts[0] != Sym('<'))])
  }

  // line ::= pipe { "&" } [ ";" line ]
  function Line(ts: Tokens): (p: Parse)
    ensures p.Ok? ==> SuffixOf(p.rest, ts)
    decreases |ts|, 4
  {
    match PipeLine(ts)
    case Bad(e) => Bad(e)
    case Ok(c, r) => Backs(c, r)
  }

  function Backs(c: Command, ts: Tokens): (p: Parse)
    ensures p.Ok? ==> SuffixOf(p.rest, ts)
    decreases |ts|, 0
  {
    if StartsWith(ts, '&') then Backs(Back(c), ts[1..])
    else if StartsWith(ts, ';') then
      match Line(ts[1..])
      case Bad(e) => Bad(e)
      case Ok(d, r) => Ok(List(c, d), r)
    else Ok(c, ts)
  }

  // pipe ::= exec [ "|" pipe ]
  function PipeLine(ts: Tokens): (p: Parse)
    ensures p.Ok? ==> SuffixOf(p.rest, ts)
    decreases |ts|, 3
  {
    match ExecLine(ts)
    case Bad(e) => Bad(e)
    case Ok(c, r) =>
      if StartsWith(r, '|') then
        match PipeLine(r[1..])
        case Bad(e) => Bad(e)
        case Ok(d, q) => Ok(Pipe(c, d), q)
      else Ok(c, r)
  }

  // exec ::= block | redirs { word redirs }
  function ExecLine(ts: Tokens): (p: Parse)
    ensures p.Ok? ==> SuffixOf(p.rest, ts)
    decreases |ts|, 2
  {
    if StartsWith(ts, '(') then Block(ts) else Words(ts, [], [])
  }

  function Words(ts: Tokens, args: seq<Span>, rs: seq<Redirection>): (p: Parse)
    ensures p.Ok? ==> SuffixOf(p.rest, ts)
    decreases |ts|, 0
  {
    match Redirs(ts, rs)
    case RedirsBad => Bad(MissingFile)
    case RedirsOk(rs', r) =>
      if StartsStop(r) then Ok(Wrap(Exec(args), rs'), r)
      else if !r[0].Word? then Bad(UnexpectedToken)
      else if |args| + 1 >= MAXARGS then Bad(TooManyArgs)
      else Words(r[1..], args + [r[0].w], rs')
  }

  // block ::= "(" line ")" redirs
  function Block(ts: Tokens): (p: Parse)
    ensures p.Ok? ==> SuffixOf(p.rest, ts)
    decreases |ts|, 1
  {
    if !StartsWith(ts, '(') then Bad(NotABlock)
    else
      match Line(ts[1..])
      case Bad(e) => Bad(e)
      case Ok(c, r) =>
        if !StartsWith(r, ')') then Bad(MissingParen)
        else
          match Redirs(r[1..], [])
          case RedirsBad => Bad(MissingFile)
          case RedirsOk(rs, q) => Ok(Wrap(c, rs), q)
  }

  /** The whole line is one command. */
  function Parsed(s: string): Parse {
    match Line(Lex(s, 0))
    case Bad(e) => Bad(e)
    case Ok(c, r) => if r == [] then Ok(c, r) else Bad(Leftovers)
  }
}
