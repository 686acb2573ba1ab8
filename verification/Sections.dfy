/**
  The section editor's patterns and its laws: a section is a level-2 heading line (section 4.2 of the
  CommonMark Spec, narrowed as the two patterns narrow it) with everything up to the next one.
*/
module Sections {
  import opened Types
  import Lines
  import Outline
  import opened SectionText

  // One line

  predicate IsBlank(c: char) {
    c == ' ' || c == '\t'
  }

  predicate AllBlank(s: string) {
    forall i :: 0 <= i < |s| ==> IsBlank(s[i])
  }

  function Spaces(text: string): (n: nat)
    ensures n <= |text|
  {
    if text != "" && text[0] == ' ' then 1 + Spaces(text[1..]) else 0
  }

  /** What follows up to three spaces and `##`. */
  function AfterMarker(text: string): Option<string> {
    var n := Spaces(text);
    if n <= 3 && n + 2 <= |text| && text[n..n + 2] == "##" then Some(text[n + 2..]) else None
  }

  /** `_ANY_H2_RE` on one line: the marker, then a blank or the end, a final CR aside. */
  predicate IsH2(text: string) {
    var rest := AfterMarker(text);
    rest.Some? && (rest.value == "" || rest.value == "\r" || IsBlank(rest.value[0]))
  }

  predicate NamedAt(rest: string, h: string, i: int) {
    1 <= i && i + |h| <= |rest| && AllBlank(rest[..i]) && rest[i..i + |h|] == h && AllBlank(rest[i + |h|..])
  }

  predicate Named(rest: string, h: string) {
    exists i :: 1 <= i <= |rest| && NamedAt(rest, h, i)
  }

  function DropCR(s: string): string {
    if s != "" && s[|s| - 1] == '\r' then s[..|s| - 1] else s
  }

  /** The heading pattern of `_get_section` on one line. */
  predicate IsHeading(text: string, h: string) {
    var rest := AfterMarker(text);
    rest.Some? && (Named(rest.value, h) || Named(DropCR(rest.value), h))
  }

  lemma HeadingIsH2(text: string, h: string)
    requires IsHeading(text, h)
    ensures IsH2(text)
  {
    var rest := AfterMarker(text).value;
    var core := if Named(rest, h) then rest else DropCR(rest);
    var i :| 1 <= i <= |core| && NamedAt(core, h, i);
    assert core[..i][0] == core[0] == rest[0];
  }

  function TrimLeft(s: string): (r: string)
    ensures |r| <= |s|
  {
    if s != "" && IsBlank(s[0]) then TrimLeft(s[1..]) else s
  }

  function TrimRight(s: string): (r: string)
    ensures |r| <= |s|
  {
    if s != "" && IsBlank(s[|s| - 1]) then TrimRight(s[..|s| - 1]) else s
  }

  function Trim(s: string): string {
    TrimRight(TrimLeft(s))
  }

  /** What `_flush_doc` accepts as a section name: one line, not blank. */
  predicate IsName(h: string) {
    '\n' !in h && '\r' !in h && exists i :: 0 <= i < |h| && !IsBlank(h[i])
  }

  lemma {:induction false} TrimLeftPadded(a: string, s: string)
    requires AllBlank(a)
    ensures TrimLeft(a + s) == TrimLeft(s)
  {
    if a == "" {
      assert a + s == s;
    } else {
      assert (a + s)[1..] == a[1..] + s;
      TrimLeftPadded(a[1..], s);
    }
  }

  lemma {:induction false} TrimRightPadded(s: string, b: string)
    requires AllBlank(b)
    ensures TrimRight(s + b) == TrimRight(s)
  {
    if b == "" {
      assert s + b == s;
    } else {
      assert (s + b)[..|s + b| - 1] == s + b[..|b| - 1];
      TrimRightPadded(s, b[..|b| - 1]);
    }
  }

  lemma {:induction false} TrimLeftThenPad(h: string, b: string)
    requires !AllBlank(h)
    ensures TrimLeft(h + b) == TrimLeft(h) + b
  {
    if IsBlank(h[0]) {
      assert (h + b)[1..] == h[1..] + b;
      TrimLeftThenPad(h[1..], b);
    }
  }

  lemma NamedTrims(rest: string, h: string)
    requires Named(rest, h) && !AllBlank(h)
    ensures Trim(rest) == Trim(h)
    ensures '\r' !in h ==> '\r' !in rest
  {
    var i :| 1 <= i <= |rest| && NamedAt(rest, h, i);
    var a, b := rest[..i], rest[i + |h|..];
    assert rest == a + (h + b);
    TrimLeftPadded(a, h + b);
    TrimLeftThenPad(h, b);
    TrimRightPadded(TrimLeft(h), b);
    NoCrIn(a, h, b);
  }

  lemma NoCrIn(a: string, h: string, b: string)
    requires AllBlank(a) && AllBlank(b)
    ensures '\r' !in h ==> '\r' !in a + (h + b)
  {
    assert '\r' !in a && '\r' !in b;
  }

  lemma HeadingTrims(rest: string, h: string)
    requires IsName(h) && (Named(rest, h) || Named(DropCR(rest), h))
    ensures Trim(DropCR(rest)) == Trim(h)
  {
    NamedTrims(if Named(rest, h) then rest else DropCR(rest), h);
  }

  /** One line is the heading of two names only if they differ in outer blanks alone. */
  lemma OneLineOneName(text: string, g: string, h: string)
    requires IsName(g) && IsName(h) && IsHeading(text, g) && IsHeading(text, h)
    ensures Trim(g) == Trim(h)
  {
    HeadingTrims(AfterMarker(text).value, g);
    HeadingTrims(AfterMarker(text).value, h);
  }

  // Which names share a heading line

  /** The blanks a name starts and ends with. */
  function Lead(s: string): string {
    s[..|s| - |TrimLeft(s)|]
  }

  function Tail(s: string): string {
    TrimLeft(s)[|Trim(s)|..]
  }

  lemma {:induction false} TrimLeftParts(s: string)
    ensures s == s[..|s| - |TrimLeft(s)|] + TrimLeft(s)
    ensures AllBlank(s[..|s| - |TrimLeft(s)|])
  {
    if s != "" && IsBlank(s[0]) {
      TrimLeftParts(s[1..]);
      assert forall i :: 1 <= i < |s| ==> s[i] == s[1..][i - 1];
    }
  }

  lemma {:induction false} TrimRightParts(s: string)
    ensures TrimRight(s) <= s && AllBlank(s[|TrimRight(s)|..])
  {
    if s != "" && IsBlank(s[|s| - 1]) {
      TrimRightParts(s[..|s| - 1]);
    }
  }

  lemma Parts(h: string)
    ensures h == Lead(h) + (Trim(h) + Tail(h)) && AllBlank(Lead(h)) && AllBlank(Tail(h))
  {
    var l := TrimLeft(h);
    TrimLeftParts(h);
    TrimRightParts(l);
    assert l == Trim(h) + Tail(h);
  }

  predicate SuffixOf(a: string, b: string) {
    |a| <= |b| && b[|b| - |a|..] == a
  }

  /** A padded name has the name's core, its leading blanks last among its own, its trailing ones first. */
  lemma PaddedParts(a: string, h: string, b: string)
    requires AllBlank(a) && AllBlank(b) && !AllBlank(h)
    ensures Lead(a + (h + b)) == a + Lead(h) && Trim(a + (h + b)) == Trim(h) && Tail(a + (h + b)) == Tail(h) + b
  {
    var t := TrimLeft(h);
    TrimLeftPadded(a, h + b);
    TrimLeftThenPad(h, b);
    assert TrimLeft(a + (h + b)) == t + b;
    TrimRightPadded(t, b);
    FrontOf(a, h, b, |h| - |t|);
    BackOf(t, b, |TrimRight(t)|);
  }

  lemma FrontOf(a: string, h: string, b: string, n: nat)
    requires n <= |h|
    ensures (a + (h + b))[..|a| + n] == a + h[..n]
  {
  }

  lemma BackOf(t: string, b: string, n: nat)
    requires n <= |t|
    ensures (t + b)[n..] == t[n..] + b
  {
  }

  lemma NamedParts(rest: string, h: string)
    requires Named(rest, h) && !AllBlank(h)
    ensures Trim(rest) == Trim(h) && SuffixOf(Lead(h), Lead(rest)) && Tail(h) <= Tail(rest)
  {
    var i :| 1 <= i <= |rest| && NamedAt(rest, h, i);
    assert rest == rest[..i] + (h + rest[i + |h|..]);
    PaddedParts(rest[..i], h, rest[i + |h|..]);
  }

  /** A heading's text after the marker, a final CR aside, is the padded name. */
  lemma HeadingParts(text: string, h: string)
    requires IsName(h) && IsHeading(text, h)
    ensures Named(DropCR(AfterMarker(text).value), h)
  {
    var rest := AfterMarker(text).value;
    if Named(rest, h) {
      NamedTrims(rest, h);
      assert rest != "" ==> rest[|rest| - 1] in rest;
    }
  }

  /**
    Two names that one padding fits: the same core, and of either end's blanks one lot ends or begins
    with the other.
  */
  predicate Meet(g: string, h: string) {
    && Trim(g) == Trim(h)
    && (SuffixOf(Lead(g), Lead(h)) || SuffixOf(Lead(h), Lead(g)))
    && (Tail(g) <= Tail(h) || Tail(h) <= Tail(g))
  }

  ghost predicate ShareLine(g: string, h: string) {
    exists text :: IsHeading(text, g) && IsHeading(text, h)
  }

  /** The line that both names fit, if any does. */
  function CommonLine(g: string, h: string): string {
    "## " + ((if |Lead(g)| < |Lead(h)| then Lead(h) else Lead(g)) + (Trim(g) +
             (if |Tail(g)| < |Tail(h)| then Tail(h) else Tail(g))))
  }

  /** A name fits a line with its core and no fewer blanks on either side. */
  lemma FitsLine(a: string, h: string, b: string)
    requires AllBlank(a) && AllBlank(b) && SuffixOf(Lead(h), a) && Tail(h) <= b
    ensures IsHeading("## " + (a + (Trim(h) + b)), h)
  {
    var x, y := " " + a[..|a| - |Lead(h)|], b[|Tail(h)|..];
    Parts(h);
    Rejoined(a, Lead(h), Trim(h), Tail(h), b);
    PaddedIsHeading(x, h, y);
    assert "## " + (a + (Trim(h) + b)) == "##" + (" " + (a + (Trim(h) + b)));
    assert " " + (a + (Trim(h) + b)) == x + (h + y);
  }

  lemma Rejoined(a: string, lead: string, core: string, tail: string, b: string)
    requires SuffixOf(lead, a) && tail <= b
    ensures a + (core + b) == a[..|a| - |lead|] + ((lead + (core + tail)) + b[|tail|..])
  {
  }

  lemma PaddedIsHeading(x: string, h: string, y: string)
    requires x != "" && AllBlank(x) && AllBlank(y)
    ensures IsHeading("##" + (x + (h + y)), h)
  {
    var text, rest := "##" + (x + (h + y)), x + (h + y);
    assert text[0..2] == "##" && text[2..] == rest && Spaces(text) == 0;
    assert rest[..|x|] == x && rest[|x|..|x| + |h|] == h && rest[|x| + |h|..] == y;
    assert NamedAt(rest, h, |x|);
  }

  /** One line can be the heading of two names exactly when the names meet. */
  lemma ShareLineIffMeet(g: string, h: string)
    requires IsName(g) && IsName(h)
    ensures ShareLine(g, h) <==> Meet(g, h)
    ensures Meet(g, h) ==> IsHeading(CommonLine(g, h), g) && IsHeading(CommonLine(g, h), h) && '\n' !in CommonLine(g, h)
  {
    if ShareLine(g, h) {
      var text :| IsHeading(text, g) && IsHeading(text, h);
      SharingMeet(text, g, h);
    }
    if Meet(g, h) {
      MeetingLine(g, h);
    }
  }

  lemma SharingMeet(text: string, g: string, h: string)
    requires IsName(g) && IsName(h) && IsHeading(text, g) && IsHeading(text, h)
    ensures Meet(g, h)
  {
    var core := DropCR(AfterMarker(text).value);
    HeadingParts(text, g);
    HeadingParts(text, h);
    NamedParts(core, g);
    NamedParts(core, h);
  }

  lemma MeetingLine(g: string, h: string)
    requires IsName(g) && IsName(h) && Meet(g, h)
    ensures IsHeading(CommonLine(g, h), g) && IsHeading(CommonLine(g, h), h) && '\n' !in CommonLine(g, h)
  {
    var a := if |Lead(g)| < |Lead(h)| then Lead(h) else Lead(g);
    var b := if |Tail(g)| < |Tail(h)| then Tail(h) else Tail(g);
    Parts(g);
    Parts(h);
    assert SuffixOf(Lead(g), a) && SuffixOf(Lead(h), a) && Tail(g) <= b && Tail(h) <= b;
    FitsLine(a, g, b);
    FitsLine(a, h, b);
    NoBreak(a, g, b);
  }

  lemma NoBreak(a: string, g: string, b: string)
    requires AllBlank(a) && AllBlank(b) && '\n' !in g
    ensures '\n' !in "## " + (a + (Trim(g) + b))
  {
    Parts(g);
    var core := Trim(g);
    assert forall i :: 0 <= i < |core| ==> core[i] == g[|Lead(g)| + i] && g[|Lead(g)| + i] in g;
  }

  // The guard on new content

  predicate NoH2(ls: seq<string>) {
    forall i :: 0 <= i < |ls| ==> !IsH2(Lines.Text(ls[i]))
  }

  /** CRLF and CR read as line ends, as the body guard reads them. */
  function Normalize(s: string): string {
    if s == "" then ""
    else if s[0] == '\r' then "\n" + Normalize(if |s| > 1 && s[1] == '\n' then s[2..] else s[1..])
    else [s[0]] + Normalize(s[1..])
  }

  /** The guard of `_flush_doc`: no level-2 heading in the new content, whatever its line ends. */
  predicate PassesGuard(content: string) {
    NoH2(Lines.Split(Normalize(content)))
  }

  /** The first line of a text. */
  function FirstText(s: string): string {
    if s == "" || s[0] == '\n' then "" else [s[0]] + FirstText(s[1..])
  }

  lemma {:induction false} FirstTextOfSplit(s: string)
    ensures s != "" ==> Lines.Text(Lines.Split(s)[0]) == FirstText(s)
  {
    if s != "" && s[0] != '\n' {
      FirstTextOfSplit(s[1..]);
      if |s| == 1 {
        assert FirstText(s[1..]) == "";
      } else {
        var l := Lines.Split(s[1..])[0];
        Lines.SplitLines(s[1..]);
        assert Lines.Split(s)[0] == [s[0]] + l;
        assert Lines.Text([s[0]] + l) == [s[0]] + Lines.Text(l);
      }
    }
  }

  /** Only the tail of the first line can differ, from its first CR on. */
  lemma {:induction false} FirstTextNormalized(s: string)
    ensures FirstText(Normalize(s)) <= FirstText(s)
    ensures FirstText(Normalize(s)) == FirstText(s) || FirstText(s)[|FirstText(Normalize(s))|] == '\r'
    ensures '\r' !in FirstText(Normalize(s))
  {
    if s != "" && s[0] != '\n' && s[0] != '\r' {
      FirstTextNormalized(s[1..]);
      assert Normalize(s)[1..] == Normalize(s[1..]);
    }
  }

  lemma {:induction false} SpacesOfPrefix(p: string, t: string)
    requires p <= t && (p == t || t[|p|] == '\r')
    ensures Spaces(p) == Spaces(t)
  {
    if p != "" && p[0] == ' ' {
      SpacesOfPrefix(p[1..], t[1..]);
    }
  }

  /** A heading stays one when its line is cut at its first CR. */
  lemma H2OfPrefix(p: string, t: string)
    requires IsH2(t) && p <= t && '\r' !in p && (p == t || t[|p|] == '\r')
    ensures IsH2(p)
  {
    SpacesOfPrefix(p, t);
    var n := Spaces(t);
    assert t[n] == t[n..n + 2][0] && t[n + 1] == t[n..n + 2][1];
    assert p[n..n + 2] == "##";
    if p[n + 2..] != "" {
      assert p[n + 2..][0] == t[n + 2..][0];
      assert p[n + 2] in p;
    }
  }

  lemma {:induction false} DropLine(s: string)
    requires s != ""
    ensures var l := Lines.Split(s)[0]; 0 < |l| <= |s| && Lines.Split(s[|l|..]) == Lines.Split(s)[1..]
  {
    if s[0] != '\n' && |s| > 1 {
      DropLine(s[1..]);
      assert s[|Lines.Split(s)[0]|..] == s[1..][|Lines.Split(s[1..])[0]|..];
    }
  }

  /** What follows the first line starts a line of the normalized text too: the k-th. */
  lemma {:induction false} RestOfNormalized(s: string) returns (k: nat)
    requires s != ""
    ensures 0 < |Lines.Split(s)[0]| <= |s| && 1 <= k <= |Lines.Split(Normalize(s))|
    ensures Lines.Split(Normalize(s[|Lines.Split(s)[0]|..])) == Lines.Split(Normalize(s))[k..]
  {
    DropLine(s);
    var l, norm := Lines.Split(s)[0], Normalize(s);
    if s[0] == '\n' {
      k := 1;
      assert norm[1..] == Normalize(s[1..]);
    } else if |s| == 1 {
      assert s[1..] == "" && norm != "";
      k := |Lines.Split(norm)|;
    } else {
      k := RestOfNormalized(s[1..]);
      assert s[|l|..] == s[1..][|Lines.Split(s[1..])[0]|..];
      if s[0] != '\r' {
        assert norm[1..] == Normalize(s[1..]);
      } else if s[1] == '\n' {
        assert s[1..][1..] == s[2..];
        assert norm == Normalize(s[1..]);
      } else {
        k := k + 1;
        assert norm[1..] == Normalize(s[1..]);
        assert Lines.Split(norm) == ["\n"] + Lines.Split(Normalize(s[1..]));
      }
    }
  }

  /** Normalizing keeps every line start, so a text that passes the guard has no heading of its own. */
  lemma {:induction false} GuardMeansNoH2(content: string)
    requires PassesGuard(content)
    ensures NoH2(Lines.Split(content))
    decreases |content|
  {
    if content != "" {
      var norm := Normalize(content);
      assert norm != "";
      FirstTextOfSplit(content);
      FirstTextOfSplit(norm);
      FirstTextNormalized(content);
      assert !IsH2(FirstText(norm));
      if IsH2(FirstText(content)) {
        H2OfPrefix(FirstText(norm), FirstText(content));
      }
      DropLine(content);
      var rest := content[|Lines.Split(content)[0]|..];
      var k := RestOfNormalized(content);
      assert forall i :: 0 <= i < |Lines.Split(Normalize(rest))| ==>
        Lines.Split(Normalize(rest))[i] == Lines.Split(norm)[i + k];
      GuardMeansNoH2(rest);
      assert Lines.Split(content)[1..] == Lines.Split(rest);
      assert forall i :: 1 <= i < |Lines.Split(content)| ==> Lines.Split(content)[i] == Lines.Split(rest)[i - 1];
    }
  }

  // The laws

  /** The two patterns for one section name, and the line `_replace_section` writes for it. */
  function SearchFor(h: string): Search {
    Search("## " + h + "\n", l => IsHeading(Lines.Text(l), h), l => IsH2(Lines.Text(l)))
  }

  lemma WrittenLineIsHeading(h: string)
    requires IsName(h)
    ensures IsHeading("## " + h, h)
  {
    var text, rest := "## " + h, " " + h;
    assert text[0..2] == "##" && text[2..] == rest && Spaces(text) == 0;
    assert rest[1..1 + |h|] == h && rest[1 + |h|..] == "";
    assert NamedAt(rest, h, 1);
  }

  lemma WrittenLine(h: string)
    requires IsName(h)
    ensures var line := "## " + h + "\n";
      Lines.IsLine(line) && Lines.Closed(line) && Lines.Text(line) == "## " + h
  {
    var line := "## " + h + "\n";
    assert forall i :: 0 <= i < |h| ==> h[i] in h;
    assert forall i :: 3 <= i < |h| + 3 ==> line[i] == h[i - 3];
    assert line[..|line| - 1] == "## " + h;
  }

  lemma ClosedText(l: string)
    requires l != "" && '\n' !in l
    ensures Lines.Text(l + "\n") == Lines.Text(l)
  {
    assert l[|l| - 1] in l;
    assert (l + "\n")[..|l|] == l;
  }

  lemma ClosedTexts()
    ensures forall l :: l != "" && '\n' !in l ==> Lines.Text(l + "\n") == Lines.Text(l)
  {
    forall l | l != "" && '\n' !in l
      ensures Lines.Text(l + "\n") == Lines.Text(l)
    {
      ClosedText(l);
    }
  }

  lemma HeadingsAreH2(h: string)
    ensures forall l :: IsHeading(Lines.Text(l), h) ==> IsH2(Lines.Text(l))
  {
    forall l | IsHeading(Lines.Text(l), h)
      ensures IsH2(Lines.Text(l))
    {
      HeadingIsH2(Lines.Text(l), h);
    }
  }

  lemma SearchIsLawful(h: string)
    requires IsName(h)
    ensures SearchFor(h).Lawful()
  {
    WrittenLine(h);
    WrittenLineIsHeading(h);
    HeadingsAreH2(h);
    ClosedTexts();
    assert Lines.Text("\n") == "" && !IsH2("");
  }

  /** Two names no heading line is shared by. */
  predicate TwoNames(g: string, h: string) {
    IsName(g) && IsName(h) && !Meet(g, h)
  }

  lemma NamesApart(g: string, h: string)
    requires TwoNames(g, h)
    ensures Apart(SearchFor(g), SearchFor(h))
  {
    SearchIsLawful(g);
    SearchIsLawful(h);
    forall l
      ensures !(SearchFor(g).title(l) && SearchFor(h).title(l))
    {
      if IsHeading(Lines.Text(l), g) && IsHeading(Lines.Text(l), h) {
        SharingMeet(Lines.Text(l), g, h);
      }
    }
  }

  lemma GuardedIsPlain(content: string, h: string)
    requires PassesGuard(content)
    ensures Plain(content, SearchFor(h))
  {
    GuardMeansNoH2(content);
  }

  /** Get after replace: the new content, between the newlines the writer puts around it. */
  lemma GetAfterReplacing(body: string, h: string, content: string, blank: string -> bool)
    requires IsName(h) && PassesGuard(content)
    ensures ReplaceSection(body, SearchFor(h), content, blank).None? <==> GetSection(body, SearchFor(h)).Duplicate?
    ensures var after := ReplaceSection(body, SearchFor(h), content, blank);
      after.Some? ==>
        && GetSection(after.value, SearchFor(h)).Found?
        && GetSection(after.value, SearchFor(h)).content == StripNewlines(content) + "\n"
  {
    SearchIsLawful(h);
    GuardedIsPlain(content, h);
    GetAfterReplace(body, SearchFor(h), content, blank);
  }

  /** Replacing twice is replacing once, with the last content. */
  lemma ReplacingTwice(body: string, h: string, first: string, second: string, blank: string -> bool)
    requires IsName(h) && PassesGuard(first) && PassesGuard(second)
    ensures var once := ReplaceSection(body, SearchFor(h), first, blank);
      once.Some? ==>
        ReplaceSection(once.value, SearchFor(h), second, blank) == ReplaceSection(body, SearchFor(h), second, blank)
  {
    SearchIsLawful(h);
    GuardedIsPlain(first, h);
    GuardedIsPlain(second, h);
    ReplaceTwice(body, SearchFor(h), first, second, blank);
  }

  /** Replacing two sections that are there commutes. */
  lemma ReplacingCommutes(body: string, g: string, c: string, h: string, e: string, blank: string -> bool)
    requires TwoNames(g, h) && PassesGuard(c) && PassesGuard(e)
    requires GetSection(body, SearchFor(g)).Found? && GetSection(body, SearchFor(h)).Found?
    ensures Both(body, SearchFor(g), c, SearchFor(h), e, blank).Some?
    ensures Both(body, SearchFor(g), c, SearchFor(h), e, blank) == Both(body, SearchFor(h), e, SearchFor(g), c, blank)
  {
    NamesApart(g, h);
    GuardedIsPlain(c, g);
    GuardedIsPlain(e, h);
    ReplacesCommute(body, SearchFor(g), c, SearchFor(h), e, blank);
  }

  /** Replacing a section that is there leaves every section of another name exactly as it was. */
  lemma OtherSectionsKept(body: string, h: string, content: string, g: string, blank: string -> bool)
    requires TwoNames(h, g) && PassesGuard(content) && GetSection(body, SearchFor(h)).Found?
    ensures ReplaceSection(body, SearchFor(h), content, blank).Some?
    ensures SameContent(GetSection(body, SearchFor(g)),
                        GetSection(ReplaceSection(body, SearchFor(h), content, blank).value, SearchFor(g)))
  {
    NamesApart(h, g);
    GuardedIsPlain(content, h);
    OthersUnchanged(body, SearchFor(h), content, SearchFor(g), blank);
  }

  /** Appending a section leaves the others as they were up to trailing line ends. */
  lemma OtherSectionsKeptByAppend(body: string, h: string, content: string, g: string, blank: string -> bool)
    requires TwoNames(h, g) && PassesGuard(content) && GetSection(body, SearchFor(h)).Absent? && !blank(body)
    ensures ReplaceSection(body, SearchFor(h), content, blank).Some?
    ensures SameUpToEnds(GetSection(body, SearchFor(g)),
                         GetSection(ReplaceSection(body, SearchFor(h), content, blank).value, SearchFor(g)))
  {
    NamesApart(h, g);
    GuardedIsPlain(content, h);
    OthersAfterAppend(body, SearchFor(h), content, SearchFor(g), blank);
  }

  /** The lines of the example below, as the two patterns read them. */
  lemma PaddedHeadings()
    ensures IsHeading("## A", "A") && !IsHeading("## A", " A") && IsHeading("##  A", "A")
    ensures IsName("A") && IsName(" A")
  {
    assert "A"[0] == 'A' && " A"[1] == 'A';
    assert "##" + (" " + ("A" + "")) == "## A" && "##" + ("  " + ("A" + "")) == "##  A";
    PaddedIsHeading(" ", "A", "");
    PaddedIsHeading("  ", "A", "");
    NotPadded();
  }

  lemma NotPadded()
    ensures !IsHeading("## A", " A")
  {
    assert "## A"[0..2] == "##" && "## A"[2..] == " A" && Spaces("## A") == 0;
    assert !Named(" A", " A") && DropCR(" A") == " A";
  }

  lemma PaddedLines()
    ensures var a, padded := SearchFor("A"), SearchFor(" A");
      && Lines.IsLine("## A\n") && Lines.Closed("## A\n")
      && a.title("## A\n") && !padded.title("## A\n") && a.title(padded.line)
  {
    PaddedHeadings();
    var line := "## " + " A" + "\n";
    assert Lines.Text("## A\n") == "## A";
    assert Lines.Text(line) == "##  A";
  }

  /** A line that names both, as a document, with the one section the two names find in it. */
  lemma SharedLineFound(l: string, t: Search)
    requires t.Lawful() && Lines.IsLine(l) && Lines.Closed(l) && t.title(l)
    ensures GetSection(l, t).Found? && GetSection(l, t).content == ""
    ensures Locate(Lines.Split(l), t) == Outline.At(0, 1)
  {
    Lines.SplitLine(l);
    Outline.LocateMeans([l], t.title, t.heading, 0, 1);
    GetIsRendered(l, t);
    assert [l][1..1] == [];
  }

  /** Writing under one of the names then changes, or loses, what is found under the other. */
  lemma SharedLineBreaks(l: string, s: Search, t: Search, content: string, blank: string -> bool)
    requires s.Lawful() && t.Lawful() && Plain(content, s) && StripNewlines(content) != ""
    requires forall x :: s.heading(x) == t.heading(x)
    requires Lines.IsLine(l) && Lines.Closed(l) && s.title(l) && t.title(l)
    ensures GetSection(l, s).Found? && ReplaceSection(l, s, content, blank).Some?
    ensures !SameContent(GetSection(l, t), GetSection(ReplaceSection(l, s, content, blank).value, t))
  {
    SharedLineFound(l, s);
    SharedLineFound(l, t);
    LineReplaced(l, s, content, blank);
    StrippedIsPlain(content, s);
    BlockReads(ReplaceSection(l, s, content, blank).value, s, t, StripNewlines(content) + "\n");
  }

  lemma LineReplaced(l: string, s: Search, content: string, blank: string -> bool)
    requires s.Lawful() && Plain(content, s) && Lines.IsLine(l) && Locate(Lines.Split(l), s) == Outline.At(0, 1)
    ensures ReplaceSection(l, s, content, blank).Some?
    ensures Lines.Split(ReplaceSection(l, s, content, blank).value) ==
      [s.line] + Lines.Split(StripNewlines(content) + "\n")
  {
    ReplacedLines(l, s, content, blank);
    BlockLines(s, content);
    Lines.SplitLine(l);
    var block := Lines.Split(Block(s, content));
    assert Outline.Splice([l], 0, 1, block) == block;
  }

  lemma BlockReads(after: string, s: Search, t: Search, text: string)
    requires t.Lawful() && text != "" && Lines.Split(after) == [s.line] + Lines.Split(text)
    requires Outline.Without(Lines.Split(text), t.heading)
    ensures GetSection(after, t).Absent? || (GetSection(after, t).Found? && GetSection(after, t).content == text)
  {
    var ls := Lines.Split(after);
    assert forall k :: 1 <= k < |ls| ==> ls[k] == Lines.Split(text)[k - 1];
    if t.title(s.line) {
      Outline.LocateMeans(ls, t.title, t.heading, 0, |ls|);
      GetIsRendered(after, t);
      assert ls[1..|ls|] == Lines.Split(text);
      Lines.FlatSplit(text);
    } else {
      Outline.LocateMeans(ls, t.title, t.heading, 0, 0);
    }
  }

  /** Writing one section leaves the other exactly as it was, whatever the document. */
  ghost predicate Independent(s: Search, t: Search, content: string, blank: string -> bool) {
    forall body :: GetSection(body, s).Found? ==> KeptBeside(body, s, t, content, blank)
  }

  predicate KeptBeside(body: string, s: Search, t: Search, content: string, blank: string -> bool) {
    && ReplaceSection(body, s, content, blank).Some?
    && SameContent(GetSection(body, t), GetSection(ReplaceSection(body, s, content, blank).value, t))
  }

  lemma ApartAreIndependent(s: Search, t: Search, content: string, blank: string -> bool)
    requires Apart(s, t) && Plain(content, s)
    ensures Independent(s, t, content, blank)
  {
    forall body | GetSection(body, s).Found?
      ensures KeptBeside(body, s, t, content, blank)
    {
      OthersUnchanged(body, s, content, t, blank);
    }
  }

  lemma SharedAreNot(l: string, s: Search, t: Search, content: string, blank: string -> bool)
    requires s.Lawful() && t.Lawful() && Plain(content, s) && StripNewlines(content) != ""
    requires forall x :: s.heading(x) == t.heading(x)
    requires Lines.IsLine(l) && Lines.Closed(l) && s.title(l) && t.title(l)
    ensures !Independent(s, t, content, blank)
  {
    SharedLineBreaks(l, s, t, content, blank);
    assert !KeptBeside(l, s, t, content, blank);
  }

  /** The law of other sections holds for all documents exactly when no heading line names both. */
  lemma IndependentIffTwoNames(g: string, h: string, s: Search, t: Search, content: string, blank: string -> bool)
    requires IsName(g) && IsName(h) && PassesGuard(content) && StripNewlines(content) != ""
    requires s == SearchFor(g) && t == SearchFor(h)
    ensures Independent(s, t, content, blank) <==> !ShareLine(g, h)
  {
    ShareLineIffMeet(g, h);
    GuardedIsPlain(content, g);
    if Meet(g, h) {
      SharedNames(g, h, CommonLine(g, h), CommonLine(g, h) + "\n", s, t);
      SharedAreNot(CommonLine(g, h) + "\n", s, t, content, blank);
    } else {
      NamesApart(g, h);
      ApartAreIndependent(s, t, content, blank);
    }
  }

  lemma SharedNames(g: string, h: string, text: string, l: string, s: Search, t: Search)
    requires IsName(g) && IsName(h) && IsHeading(text, g) && IsHeading(text, h) && '\n' !in text && l == text + "\n"
    requires s == SearchFor(g) && t == SearchFor(h)
    ensures Lines.IsLine(l) && Lines.Closed(l) && s.title(l) && t.title(l)
    ensures s.Lawful() && t.Lawful() && forall x :: s.heading(x) == t.heading(x)
  {
    SearchIsLawful(g);
    SearchIsLawful(h);
    LineOfText(text, l);
    TitleLine(g, text, l, s);
    TitleLine(h, text, l, t);
  }

  lemma LineOfText(text: string, l: string)
    requires '\n' !in text && l == text + "\n"
    ensures Lines.IsLine(l) && Lines.Closed(l) && Lines.Text(l) == text
  {
    assert forall i :: 0 <= i < |text| ==> text[i] in text;
  }

  lemma TitleLine(h: string, text: string, l: string, s: Search)
    requires s == SearchFor(h) && IsHeading(text, h) && Lines.Text(l) == text
    ensures s.title(l)
  {
  }

  lemma NoPad(h: string)
    requires h != "" && !IsBlank(h[0]) && !IsBlank(h[|h| - 1])
    ensures Lead(h) == "" && Trim(h) == h && Tail(h) == ""
  {
  }

  lemma OnePad(pad: char, h: string)
    requires IsBlank(pad) && h != "" && !IsBlank(h[0]) && !IsBlank(h[|h| - 1])
    ensures Lead([pad] + h) == [pad] && Trim([pad] + h) == h && Tail([pad] + h) == ""
  {
    NoPad(h);
    PaddedParts([pad], h, "");
    assert h + "" == h && [pad] + "" == [pad];
  }

  /** Names that differ in outer blanks only may or may not meet: no padding ends both in a space and in a tab. */
  lemma PaddedNames(h: string)
    requires h != "" && !IsBlank(h[0]) && !IsBlank(h[|h| - 1])
    ensures Meet(h, " " + h) && !Meet(" " + h, "\t" + h) && Trim(" " + h) == Trim("\t" + h)
  {
    NoPad(h);
    OnePad(' ', h);
    OnePad('\t', h);
    assert [' '] + h == " " + h && ['\t'] + h == "\t" + h;
    assert " "[1..] == "" && " "[0..] == " " && "\t"[0..] == "\t" && " "[0] != "\t"[0];
  }

  /**
    What it costs when they do: writing the section " A" beside the section "A" leaves two headings
    that both name "A".
  */
  lemma BlankPaddedNamesCollide(blank: string -> bool)
    requires !blank("## A\n")
    ensures GetSection("## A\n", SearchFor("A")).Found? && GetSection("## A\n", SearchFor(" A")).Absent?
    ensures var after := ReplaceSection("## A\n", SearchFor(" A"), "x", blank);
      after.Some? && GetSection(after.value, SearchFor("A")).Duplicate?
  {
    PaddedLines();
    assert SearchFor(" A").Lawful() by {
      PaddedHeadings();
      SearchIsLawful(" A");
    }
    ExampleIsPlain(SearchFor(" A"));
    SharedTitleDuplicates("## A\n", SearchFor("A"), SearchFor(" A"), "x", blank);
  }

  lemma ExampleIsPlain(t: Search)
    requires t == SearchFor(" A")
    ensures Plain("x", t)
  {
    Lines.SplitLine("x");
    assert Lines.Text("x") == "x" && Spaces("x") == 0;
  }
}
