/**
  The two patterns, the guard and the newlines the writer puts, each against what it is meant to be: a
  grammar of one line, every line of a text however it ends, and exactly one blank line between sections.
*/
module Patterns {
  import opened Types
  import Lines
  import opened SectionText
  import opened Sections

  // The patterns as grammars of a line

  function Indent(k: nat): string {
    seq(k, _ => ' ')
  }

  predicate Marked(text: string, k: nat, rest: string) {
    k <= 3 && text == Indent(k) + ("##" + rest)
  }

  lemma {:induction false} SpacesMean(text: string)
    ensures text[..Spaces(text)] == Indent(Spaces(text))
    ensures Spaces(text) < |text| ==> text[Spaces(text)] != ' '
  {
    if text != "" && text[0] == ' ' {
      SpacesMean(text[1..]);
      var n := Spaces(text[1..]);
      assert text[..n + 1] == [' '] + text[1..][..n];
      assert Indent(n + 1) == [' '] + Indent(n);
    }
  }

  lemma {:induction false} SpacesOf(k: nat, rest: string)
    requires rest != "" && rest[0] != ' '
    ensures Spaces(Indent(k) + rest) == k
  {
    if k == 0 {
      assert Indent(0) + rest == rest;
    } else {
      assert (Indent(k) + rest)[1..] == Indent(k - 1) + rest;
      SpacesOf(k - 1, rest);
    }
  }

  lemma MarkerIs(text: string, k: nat, rest: string)
    ensures AfterMarker(text) == Some(rest) && k == Spaces(text) <==> Marked(text, k, rest)
  {
    SpacesMean(text);
    var n := Spaces(text);
    if AfterMarker(text) == Some(rest) && k == n {
      assert text == text[..n] + (text[n..n + 2] + text[n + 2..]);
    }
    if Marked(text, k, rest) {
      SpacesOf(k, "##" + rest);
      assert text[k..k + 2] == "##" && text[k + 2..] == rest;
    }
  }

  /** Up to three spaces, the marker, and then a blank, a line end of either kind, or nothing. */
  ghost predicate H2Grammar(text: string) {
    exists k, rest :: Marked(text, k, rest) && (rest == "" || rest == "\r" || IsBlank(rest[0]))
  }

  /** The general pattern accepts exactly these lines. */
  lemma H2IsGrammar(text: string)
    ensures IsH2(text) <==> H2Grammar(text)
  {
    if IsH2(text) {
      MarkerIs(text, Spaces(text), AfterMarker(text).value);
    }
    if H2Grammar(text) {
      var k, rest :| Marked(text, k, rest) && (rest == "" || rest == "\r" || IsBlank(rest[0]));
      MarkerIs(text, k, rest);
    }
  }

  /** Blanks, the name, blanks, and perhaps a CR. */
  predicate NameParts(rest: string, h: string, a: string, b: string, end: string) {
    && rest == a + (h + (b + end)) && a != "" && AllBlank(a) && AllBlank(b) && (end == "" || end == "\r")
  }

  ghost predicate HeadingGrammar(text: string, h: string) {
    exists k, rest, a, b, end :: Marked(text, k, rest) && NameParts(rest, h, a, b, end)
  }

  /** The pattern for a name accepts exactly the marker, blanks, the name, blanks and perhaps a CR. */
  lemma HeadingIsGrammar(text: string, h: string)
    ensures IsHeading(text, h) <==> HeadingGrammar(text, h)
  {
    if IsHeading(text, h) {
      var rest := AfterMarker(text).value;
      MarkerIs(text, Spaces(text), rest);
      var end := if Named(rest, h) then "" else "\r";
      assert end == "\r" ==> DropCR(rest) != rest && rest == DropCR(rest) + "\r";
      NamedHasParts(rest, if Named(rest, h) then rest else DropCR(rest), h, end);
    }
    if HeadingGrammar(text, h) {
      var k, rest, a, b, end :| Marked(text, k, rest) && NameParts(rest, h, a, b, end);
      MarkerIs(text, k, rest);
      PartsAreNamed(rest, h, a, b, end);
    }
  }

  lemma NamedHasParts(rest: string, core: string, h: string, end: string)
    requires Named(core, h) && rest == core + end && (end == "" || end == "\r")
    ensures exists a, b :: NameParts(rest, h, a, b, end)
  {
    var i :| 1 <= i <= |core| && NamedAt(core, h, i);
    assert rest == core[..i] + (h + (core[i + |h|..] + end));
    assert NameParts(rest, h, core[..i], core[i + |h|..], end);
  }

  lemma PartsAreNamed(rest: string, h: string, a: string, b: string, end: string)
    requires NameParts(rest, h, a, b, end)
    ensures Named(rest, h) || Named(DropCR(rest), h)
  {
    var core := a + (h + b);
    assert core[..|a|] == a && core[|a|..|a| + |h|] == h && core[|a| + |h|..] == b;
    assert NamedAt(core, h, |a|) && Named(core, h);
    if end == "" {
      assert rest == core;
    } else {
      assert rest == core + "\r" && DropCR(rest) == core;
    }
  }

  // The guard, on every line of a text

  predicate IsBreak(c: char) {
    c == '\n' || c == '\r'
  }

  /** The text up to the next line end of any kind. */
  function UpTo(s: string): (r: string)
    ensures |r| <= |s|
  {
    if s == "" || IsBreak(s[0]) then "" else [s[0]] + UpTo(s[1..])
  }

  /** A line starts at the beginning and behind every LF and CR. */
  predicate LineStart(s: string, i: nat) {
    i <= |s| && (i == 0 || IsBreak(s[i - 1]))
  }

  ghost predicate NoHeadingAnywhere(s: string) {
    forall i: nat :: LineStart(s, i) ==> !IsH2(UpTo(s[i..]))
  }

  /** Where the next line starts: CRLF is one line end. */
  function NextStart(s: string): (n: nat)
    requires UpTo(s) != s
    ensures |UpTo(s)| < n <= |s|
  {
    UpToMeans(s);
    var n := |UpTo(s)|;
    if s[n] == '\r' && n + 1 < |s| && s[n + 1] == '\n' then n + 2 else n + 1
  }

  lemma {:induction false} UpToMeans(s: string)
    ensures UpTo(s) <= s && (forall i :: 0 <= i < |UpTo(s)| ==> !IsBreak(s[i]))
    ensures UpTo(s) == s <==> |UpTo(s)| == |s|
    ensures |UpTo(s)| < |s| ==> IsBreak(s[|UpTo(s)|])
  {
    if s != "" && !IsBreak(s[0]) {
      UpToMeans(s[1..]);
      assert forall i :: 1 <= i < |s| ==> s[i] == s[1..][i - 1];
    }
  }

  lemma {:induction false} NormalizedLine(s: string)
    ensures UpTo(s) == s ==> Normalize(s) == s
    ensures UpTo(s) != s ==> Normalize(s) == UpTo(s) + "\n" + Normalize(s[NextStart(s)..])
    decreases |s|
  {
    UpToMeans(s);
    if s != "" && !IsBreak(s[0]) {
      var rest := s[1..];
      NormalizedLine(rest);
      UpToMeans(rest);
      assert UpTo(s) == [s[0]] + UpTo(rest) && s == [s[0]] + rest;
      if UpTo(s) != s {
        assert s[NextStart(s)..] == rest[NextStart(rest)..];
      }
    } else if s != "" && s[0] == '\n' {
      assert s[NextStart(s)..] == s[1..] && UpTo(s) + "\n" == "\n";
    } else if s != "" {
      assert UpTo(s) + "\n" == "\n";
    }
  }

  /** The first line, and whatever starts behind it. */
  lemma StartsSplit(s: string)
    requires UpTo(s) != s
    ensures NoHeadingAnywhere(s) <==> !IsH2(UpTo(s)) && NoHeadingAnywhere(s[NextStart(s)..])
  {
    UpToMeans(s);
    if NoHeadingAnywhere(s) {
      assert s[0..] == s && LineStart(s, 0);
      NoneBehind(s, NextStart(s));
    }
    if !IsH2(UpTo(s)) && NoHeadingAnywhere(s[NextStart(s)..]) {
      forall i: nat | LineStart(s, i)
        ensures !IsH2(UpTo(s[i..]))
      {
        NoneAt(s, i);
      }
    }
  }

  lemma NoneBehind(s: string, n: nat)
    requires 0 < n <= |s| && IsBreak(s[n - 1]) && NoHeadingAnywhere(s)
    ensures NoHeadingAnywhere(s[n..])
  {
    forall i: nat | LineStart(s[n..], i)
      ensures !IsH2(UpTo(s[n..][i..]))
    {
      assert s[n..][i..] == s[n + i..] && LineStart(s, n + i);
    }
  }

  lemma NoneAt(s: string, i: nat)
    requires UpTo(s) != s && !IsH2(UpTo(s)) && NoHeadingAnywhere(s[NextStart(s)..]) && LineStart(s, i)
    ensures !IsH2(UpTo(s[i..]))
  {
    UpToMeans(s);
    var n := NextStart(s);
    if i >= n {
      assert LineStart(s[n..], i - n) && s[n..][i - n..] == s[i..];
    } else if i > 0 {
      assert s[i..][0] == '\n' && UpTo(s[i..]) == "";
      EmptyIsNoH2();
    } else {
      assert s[0..] == s;
    }
  }

  lemma EmptyIsNoH2()
    ensures !IsH2("")
  {
  }

  lemma GuardSplits(s: string)
    requires UpTo(s) != s
    ensures PassesGuard(s) <==> !IsH2(UpTo(s)) && PassesGuard(s[NextStart(s)..])
  {
    var first, rest := UpTo(s), Normalize(s[NextStart(s)..]);
    UpToMeans(s);
    NormalizedLine(s);
    assert forall i :: 0 <= i < |first| ==> (first + "\n")[i] != '\n';
    Lines.SplitLine(first + "\n");
    Lines.SplitConcat(first + "\n", rest);
    var ls, tail := Lines.Split(Normalize(s)), Lines.Split(rest);
    assert ls == [first + "\n"] + tail && Lines.Text(first + "\n") == first;
    NoH2Cons(first + "\n", tail);
  }

  lemma NoH2Cons(l: string, tail: seq<string>)
    ensures NoH2([l] + tail) <==> !IsH2(Lines.Text(l)) && NoH2(tail)
  {
    var ls := [l] + tail;
    assert ls[0] == l && forall i :: 0 <= i < |tail| ==> ls[i + 1] == tail[i];
    assert forall i :: 1 <= i < |ls| ==> ls[i] == tail[i - 1];
  }

  /** The guard refuses exactly the texts with a level-2 heading on some line, ended by LF, CR or both. */
  lemma {:induction false} GuardIsExact(s: string)
    ensures PassesGuard(s) <==> NoHeadingAnywhere(s)
    decreases |s|
  {
    UpToMeans(s);
    NormalizedLine(s);
    if UpTo(s) == s {
      LastLine(s);
    } else {
      StartsSplit(s);
      GuardSplits(s);
      GuardIsExact(s[NextStart(s)..]);
    }
  }

  lemma LastLine(s: string)
    requires UpTo(s) == s && Normalize(s) == s
    ensures PassesGuard(s) <==> NoHeadingAnywhere(s)
  {
    UpToMeans(s);
    assert s[0..] == s && LineStart(s, 0);
    assert forall i: nat :: LineStart(s, i) ==> i == 0;
    if s == "" {
      EmptyIsNoH2();
    } else {
      Lines.SplitLine(s);
      assert Lines.Text(s) == s && [s] + [] == [s];
      NoH2Cons(s, []);
    }
  }

  // The newlines around a section

  predicate Newlines(s: string) {
    forall i :: 0 <= i < |s| ==> s[i] == '\n'
  }

  /** The writer strips newlines, all of them at either end, and nothing else. */
  lemma {:induction false} StripNewlinesMeans(s: string) returns (a: string, b: string)
    ensures s == a + (StripNewlines(s) + b) && Newlines(a) && Newlines(b)
    ensures var r := StripNewlines(s); r != "" ==> r[0] != '\n' && r[|r| - 1] != '\n'
    decreases |s|
  {
    a, b := "", "";
    if s != "" && s[0] == '\n' {
      a, b := StripNewlinesMeans(s[1..]);
      a := ['\n'] + a;
    } else if s != "" && s[|s| - 1] == '\n' {
      a, b := StripNewlinesMeans(s[..|s| - 1]);
      b := b + ['\n'];
    } else {
      assert s == a + (s + b);
    }
  }

  /** A section that was not there is put behind the body, closed if it was open, and exactly one blank line. */
  lemma OneBlankLine(body: string, s: Search, content: string, blank: string -> bool)
    requires s.Lawful() && body != "" && GetSection(body, s).Absent? && !blank(body)
    ensures var closed := if Lines.Closed(body) then body else body + "\n";
      && ReplaceSection(body, s, content, blank).Some?
      && Lines.Split(ReplaceSection(body, s, content, blank).value) ==
           Lines.Split(closed) + ["\n"] + Lines.Split(Block(s, content))
  {
    var closed := if Lines.Closed(body) then body else body + "\n";
    assert body + Separator(body) == closed + "\n";
    Lines.SplitConcat(closed, "\n");
    Lines.SplitLine("\n");
    Lines.SplitConcat(closed + "\n", Block(s, content));
  }
}
