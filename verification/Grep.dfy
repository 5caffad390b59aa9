/** The regular-expression matcher of grep.c, proved sound and complete for the language its patterns denote. */
module Grep {

  // ---------------------------------------------------------------- patterns and what they denote

  /** One pattern item: a character or dot, standing once or under a star. */
  datatype Item = One(c: char) | Star(c: char)

  /** A pattern as matchhere reads it: items, then perhaps a final $ that asks for the end of the text. */
  datatype Pattern = Pattern(items: seq<Item>, toEnd: bool)

  /** How matchhere splits a pattern: a star binds to whatever stands before it, and $ is special only at the end. */
  function Read(re: string): Pattern
  {
    if |re| == 0 then Pattern([], false)
    else if |re| >= 2 && re[1] == '*' then
      var rest := Read(re[2..]);
      rest.(items := [Star(re[0])] + rest.items)
    else if re == "$" then Pattern([], true)
    else
      var rest := Read(re[1..]);
      rest.(items := [One(re[0])] + rest.items)
  }

  /** c stands for x. */
  predicate Stands(c: char, x: char) {
    c == '.' || c == x
  }

  predicate AllStand(c: char, w: string) {
    forall i :: 0 <= i < |w| ==> Stands(c, w[i])
  }

  /** w is in the language of the items. */
  ghost predicate InLanguage(items: seq<Item>, w: string)
  {
    if items == [] then w == ""
    else
      match items[0]
      case One(c) => |w| >= 1 && Stands(c, w[0]) && InLanguage(items[1..], w[1..])
      case Star(c) => exists k :: 0 <= k <= |w| && AllStand(c, w[..k]) && InLanguage(items[1..], w[k..])
  }

  /** The pattern matches the text from its beginning: some prefix is in the language, the whole text if it must be. */
  ghost predicate MatchesHere(p: Pattern, text: string)
  {
    exists n :: 0 <= n <= |text| && InLanguage(p.items, text[..n]) && (p.toEnd ==> n == |text|)
  }

  /** The pattern, which may begin with ^, matches somewhere in the text. */
  ghost predicate MatchesSomewhere(re: string, text: string)
  {
    if |re| >= 1 && re[0] == '^' then MatchesHere(Read(re[1..]), text)
    else exists i :: 0 <= i <= |text| && MatchesHere(Read(re), text[i..])
  }

  // ---------------------------------------------------------------- prefixes and first items

  lemma HereEmpty(text: string)
    ensures MatchesHere(Pattern([], false), text)
    ensures MatchesHere(Pattern([], true), text) <==> text == ""
  {
    assert text[..0] == "";
    assert text[..|text|] == text;
  }

  lemma HereOne(c: char, rest: Pattern, text: string)
    ensures
      MatchesHere(rest.(items := [One(c)] + rest.items), text)
      <==> |text| >= 1 && Stands(c, text[0]) && MatchesHere(rest, text[1..])
  {
    var p := rest.(items := [One(c)] + rest.items);
    assert p.items[1..] == rest.items;
    if MatchesHere(p, text) {
      var n :| 0 <= n <= |text| && InLanguage(p.items, text[..n]) && (p.toEnd ==> n == |text|);
      assert text[..n][1..] == text[1..][..n - 1];
    }
    if |text| >= 1 && Stands(c, text[0]) && MatchesHere(rest, text[1..]) {
      var n :| 0 <= n <= |text[1..]| && InLanguage(rest.items, text[1..][..n]) && (rest.toEnd ==> n == |text[1..]|);
      assert text[..n + 1][1..] == text[1..][..n];
      assert InLanguage(p.items, text[..n + 1]);
    }
  }

  /** The rest of a starred pattern matches after some run of standing characters. */
  ghost predicate AfterRun(c: char, rest: Pattern, text: string) {
    exists k :: 0 <= k <= |text| && AllStand(c, text[..k]) && MatchesHere(rest, text[k..])
  }

  lemma HereStar(c: char, rest: Pattern, text: string)
    ensures MatchesHere(rest.(items := [Star(c)] + rest.items), text) <==> AfterRun(c, rest, text)
  {
    var p := rest.(items := [Star(c)] + rest.items);
    assert p.items[1..] == rest.items;
    if MatchesHere(p, text) {
      var n :| 0 <= n <= |text| && InLanguage(p.items, text[..n]) && (p.toEnd ==> n == |text|);
      var k :| 0 <= k <= n && AllStand(c, text[..n][..k]) && InLanguage(rest.items, text[..n][k..]);
      assert text[..n][..k] == text[..k];
      assert text[..n][k..] == text[k..][..n - k];
      assert MatchesHere(rest, text[k..]);
    }
    if AfterRun(c, rest, text) {
      var k :| 0 <= k <= |text| && AllStand(c, text[..k]) && MatchesHere(rest, text[k..]);
      var n :| 0 <= n <= |text[k..]| && InLanguage(rest.items, text[k..][..n]) && (rest.toEnd ==> n == |text[k..]|);
      assert text[..k + n][..k] == text[..k];
      assert text[..k + n][k..] == text[k..][..n];
      assert InLanguage(p.items, text[..k + n]);
    }
  }

  /** A run of standing characters cannot reach past one that does not stand. */
  lemma RunStops(c: char, text: string, t: nat)
    requires t <= |text| && (t == |text| || !Stands(c, text[t]))
    ensures forall k :: t < k <= |text| ==> !AllStand(c, text[..k])
  {
    forall k | t < k <= |text| ensures !AllStand(c, text[..k]) {
      assert text[..k][t] == text[t];
    }
  }

  // ---------------------------------------------------------------- the matcher

  /** *s, where the string ends in a NUL. */
  function At(s: string, i: nat): char {
    if i < |s| then s[i] else '\0'
  }

  predicate Terminated(s: string) {
    '\0' !in s
  }

  /** matchhere */
  method MatchHere(re: string, text: string) returns (found: bool)
    requires Terminated(re) && Terminated(text)
    ensures found <==> MatchesHere(Read(re), text)
    decreases |re|, 0
  {
    if At(re, 0) == '\0' {
      HereEmpty(text);
      return true;
    }
    if At(re, 1) == '*' {
      found := MatchStar(re[0], re[2..], text);
      HereStar(re[0], Read(re[2..]), text);
      return;
    }
    if At(re, 0) == '$' && At(re, 1) == '\0' {
      assert re == "$";
      HereEmpty(text);
      return At(text, 0) == '\0';
    }
    HereOne(re[0], Read(re[1..]), text);
    if At(text, 0) != '\0' && (re[0] == '.' || re[0] == At(text, 0)) {
      found := MatchHere(re[1..], text[1..]);
      return;
    }
    return false;
  }

  /** matchstar: tries the rest of the pattern after 0, 1, 2, ... standing characters. */
  method MatchStar(c: char, re: string, text: string) returns (found: bool)
    requires Terminated(re) && Terminated(text)
    ensures found <==> AfterRun(c, Read(re), text)
    decreases |re|, 1
  {
    var t := 0;
    while true
      invariant 0 <= t <= |text| && AllStand(c, text[..t])
      invariant forall k :: 0 <= k < t ==> !MatchesHere(Read(re), text[k..])
      decreases |text| - t
    {
      found := MatchHere(re, text[t..]);
      if found {
        return true;
      }
      if !(At(text, t) != '\0' && (At(text, t) == c || c == '.')) {
        RunStops(c, text, t);
        return false;
      }
      t := t + 1;
    }
  }

  /** match */
  method Match(re: string, text: string) returns (found: bool)
    requires Terminated(re) && Terminated(text)
    ensures found <==> MatchesSomewhere(re, text)
  {
    if At(re, 0) == '^' {
      found := MatchHere(re[1..], text);
      return;
    }
    var t := 0;
    while true
      invariant 0 <= t <= |text|
      invariant forall i :: 0 <= i < t ==> !MatchesHere(Read(re), text[i..])
      decreases |text| - t
    {
      found := MatchHere(re, text[t..]);
      if found {
        return true;
      }
      if At(text, t) == '\0' {
        return false;
      }
      t := t + 1;
    }
  }

  // ---------------------------------------------------------------- plain patterns

  predicate Plain(re: string) {
    forall i :: 0 <= i < |re| ==> re[i] !in "^$.*"
  }

  lemma {:induction false} PlainHere(re: string, text: string)
    requires Plain(re)
    ensures MatchesHere(Read(re), text) <==> re <= text
  {
    if re == "" {
      HereEmpty(text);
    } else {
      HereOne(re[0], Read(re[1..]), text);
      PlainHere(re[1..], if text == "" then "" else text[1..]);
    }
  }

  /** A pattern without operators matches exactly the texts that contain it. */
  lemma PlainIsSubstring(re: string, text: string)
    requires Plain(re)
    ensures MatchesSomewhere(re, text) <==> exists i :: 0 <= i <= |text| && re <= text[i..]
  {
    forall i | 0 <= i <= |text| ensures MatchesHere(Read(re), text[i..]) <==> re <= text[i..] {
      PlainHere(re, text[i..]);
    }
  }

  // ---------------------------------------------------------------- dots, anchors and stars

  /** Only characters and dots. */
  predicate Dotted(re: string) {
    forall i :: 0 <= i < |re| ==> re[i] !in "^$*"
  }

  /** w is re, where a dot leaves the character open. */
  predicate Fits(re: string, w: string) {
    |re| == |w| && forall i :: 0 <= i < |re| ==> re[i] == '.' || re[i] == w[i]
  }

  predicate FitsAt(re: string, text: string, i: nat) {
    i + |re| <= |text| && Fits(re, text[i..i + |re|])
  }

  lemma FitsFirst(re: string, text: string, i: nat)
    requires re != ""
    ensures FitsAt(re, text, i) <==>
      i < |text| && (re[0] == '.' || re[0] == text[i]) && FitsAt(re[1..], text, i + 1)
  {
    if i + |re| <= |text| {
      var w := text[i..i + |re|];
      assert w[1..] == text[i + 1..i + |re|];
      assert forall k :: 1 <= k < |re| ==> re[k] == re[1..][k - 1] && w[k] == w[1..][k - 1];
      if Fits(re[1..], w[1..]) && (re[0] == '.' || re[0] == w[0]) {
        assert forall k :: 0 <= k < |re| ==> re[k] == '.' || re[k] == w[k];
      }
      if Fits(re, w) {
        assert forall k :: 0 <= k < |re[1..]| ==> re[1..][k] == re[k + 1] && w[1..][k] == w[k + 1];
      }
    }
  }

  /** From its beginning, a text matches characters and dots exactly if it begins with what they leave open. */
  lemma {:induction false} DottedHere(re: string, text: string)
    requires Dotted(re)
    ensures MatchesHere(Read(re), text) <==> FitsAt(re, text, 0)
  {
    if re == "" {
      HereEmpty(text);
      assert text[0..0] == "";
    } else {
      HereOne(re[0], Read(re[1..]), text);
      FitsFirst(re, text, 0);
      if text != "" {
        DottedHere(re[1..], text[1..]);
        FitsShift(re[1..], text, 0);
      }
    }
  }

  lemma FitsShift(re: string, text: string, i: nat)
    requires i < |text|
    ensures FitsAt(re, text[i + 1..], 0) <==> FitsAt(re, text, i + 1)
  {
    if i + 1 + |re| <= |text| {
      assert text[i + 1..][0..|re|] == text[i + 1..i + 1 + |re|];
    }
  }

  /** With a final $ it must end there. */
  lemma {:induction false} DottedToEnd(re: string, text: string)
    requires Dotted(re)
    ensures MatchesHere(Read(re + "$"), text) <==> Fits(re, text)
  {
    if re == "" {
      assert re + "$" == "$";
      HereEmpty(text);
    } else {
      assert (re + "$")[1..] == re[1..] + "$";
      HereOne(re[0], Read(re[1..] + "$"), text);
      FitsFirst(re, text, 0);
      if text != "" {
        DottedToEnd(re[1..], text[1..]);
        if |re| == |text| {
          assert text[0..|re|] == text && text[1..1 + |re[1..]|] == text[1..];
        }
      }
    }
  }

  /** ^ asks for the beginning, $ for the end, and both for the whole text. */
  lemma Anchors(re: string, text: string)
    requires Dotted(re)
    ensures MatchesSomewhere(re, text) <==> exists i :: 0 <= i <= |text| && FitsAt(re, text, i)
    ensures MatchesSomewhere("^" + re, text) <==> FitsAt(re, text, 0)
    ensures MatchesSomewhere(re + "$", text) <==> |re| <= |text| && FitsAt(re, text, |text| - |re|)
    ensures MatchesSomewhere("^" + re + "$", text) <==> Fits(re, text)
  {
    assert ("^" + re)[1..] == re && ("^" + re + "$")[1..] == re + "$";
    DottedHere(re, text);
    DottedToEnd(re, text);
    forall i | 0 <= i <= |text| ensures MatchesHere(Read(re), text[i..]) <==> FitsAt(re, text, i) {
      DottedHere(re, text[i..]);
      if i > 0 {
        FitsShift(re, text, i - 1);
      } else {
        assert text[0..] == text;
      }
    }
    forall i | 0 <= i <= |text|
      ensures MatchesHere(Read(re + "$"), text[i..]) <==> i == |text| - |re| && FitsAt(re, text, i)
    {
      DottedToEnd(re, text[i..]);
      if i == |text| - |re| {
        assert text[i..i + |re|] == text[i..];
      }
    }
  }

  /** A run of n characters that c stands for, the empty run included. */
  predicate RunOf(c: char, text: string, n: nat) {
    n <= |text| && forall i :: 0 <= i < n ==> c == '.' || c == text[i]
  }

  /** c* takes any run of c, of any length, before what follows. */
  lemma StarredHere(c: char, re: string, text: string)
    requires Dotted(re)
    ensures MatchesHere(Read([c, '*'] + re), text) <==> exists n: nat :: RunOf(c, text, n) && FitsAt(re, text, n)
  {
    var p := [c, '*'] + re;
    assert p[2..] == re && p[1] == '*' && p[0] == c;
    HereStar(c, Read(re), text);
    forall n: nat | n <= |text|
      ensures AllStand(c, text[..n]) && MatchesHere(Read(re), text[n..]) <==> RunOf(c, text, n) && FitsAt(re, text, n)
    {
      DottedHere(re, text[n..]);
      if n > 0 {
        FitsShift(re, text, n - 1);
      } else {
        assert text[0..] == text;
      }
      assert forall i :: 0 <= i < n ==> text[..n][i] == text[i];
    }
    if MatchesHere(Read(p), text) {
      var k :| 0 <= k <= |text| && AllStand(c, text[..k]) && MatchesHere(Read(re), text[k..]);
      var n: nat := k;
      assert RunOf(c, text, n) && FitsAt(re, text, n);
    }
    if n: nat :| RunOf(c, text, n) && FitsAt(re, text, n) {
      assert AllStand(c, text[..n]) && MatchesHere(Read(re), text[n..]);
    }
  }

  /** So c* alone is in every text, and ^c*$ matches the texts of nothing but c. */
  lemma StarAlone(c: char, text: string)
    requires c != '^'
    ensures MatchesSomewhere([c, '*'], text)
    ensures MatchesSomewhere(['^', c, '*', '$'], text) <==> RunOf(c, text, |text|)
  {
    assert [c, '*'] + "" == [c, '*'] && text[0..0] == "";
    StarredHere(c, "", text);
    assert RunOf(c, text, 0) && FitsAt("", text, 0);
    assert text[0..] == text;
    var p := [c, '*', '$'];
    assert ['^', c, '*', '$'][1..] == p && p[2..] == "$";
    HereStar(c, Read("$"), text);
    forall k | 0 <= k <= |text| ensures MatchesHere(Read("$"), text[k..]) <==> k == |text| {
      HereEmpty(text[k..]);
    }
    assert text[..|text|] == text;
    if RunOf(c, text, |text|) {
      assert AllStand(c, text[..|text|]);
    }
  }
}
