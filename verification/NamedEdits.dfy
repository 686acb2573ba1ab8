/**
  Edits of one named section, dumped, seen by the search for another name: which names and which bodies
  are safe, and what each unsafe one loses.
*/
module NamedEdits {
  import opened Types
  import Lines
  import Outline
  import opened FrontMatter
  import opened SectionText
  import opened Sections
  import opened SessionJournal
  import opened Dumping
  import opened Neighbours

  // Cutting off the end of a text

  lemma {:induction false} SpacesPrefix(x: string, l: string)
    requires x <= l && Spaces(x) < |x|
    ensures Spaces(l) == Spaces(x)
  {
    if x[0] == ' ' {
      SpacesPrefix(x[1..], l[1..]);
    }
  }

  /** A heading of a name was a heading before the line was cut short. */
  lemma HeadingOfPrefix(x: string, l: string, h: string)
    requires IsHeading(x, h) && x <= l
    ensures IsH2(l)
  {
    var n, rest := Spaces(x), AfterMarker(x).value;
    SpacesPrefix(x, l);
    assert l[n..n + 2] == x[n..n + 2];
    var core := if Named(rest, h) then rest else DropCR(rest);
    var i :| 1 <= i <= |core| && NamedAt(core, h, i);
    assert core[..i][0] == rest[0] == x[n + 2] == l[n + 2..][0];
  }

  /** The lines of a text cut short: as many or fewer, each the beginning of the old one. */
  lemma {:induction false} LinesOfPrefix(x: string, y: string)
    ensures var a, b := Lines.Split(x), Lines.Split(x + y);
      |a| <= |b| && forall i :: 0 <= i < |a| ==> Lines.Text(a[i]) <= Lines.Text(b[i])
  {
    var k := Lines.LastBreak(x);
    var pre, last := x[..k], x[k..];
    assert x == pre + last && x + y == pre + (last + y);
    Lines.SplitConcat(pre, last + y);
    Lines.SplitConcat(pre, last);
    if last != "" {
      assert forall i :: 0 <= i < |last| ==> last[i] in last;
      Lines.SplitLine(last);
      OpenLineGrows(last, y);
    }
  }

  lemma {:induction false} OpenLineGrows(l: string, y: string)
    requires l != "" && '\n' !in l
    ensures Lines.Split(l + y) != [] && Lines.Text(l) <= Lines.Text(Lines.Split(l + y)[0])
  {
    assert l[|l| - 1] in l;
    assert Lines.Text(l) == l;
    FirstTextOfSplit(l + y);
    FirstTextGrows(l, y);
  }

  lemma {:induction false} FirstTextGrows(l: string, y: string)
    requires '\n' !in l
    ensures l <= FirstText(l + y)
  {
    if l != "" {
      assert l[0] in l;
      assert (l + y)[1..] == l[1..] + y;
      FirstTextGrows(l[1..], y);
    }
  }

  /** Closing a text changes no line's text; the line it may add is empty. */
  lemma TextsOfClosed(x: string, i: nat)
    requires i < |Lines.Split(x + "\n")|
    ensures var a, cut := Lines.Split(x), Lines.Split(x + "\n");
      if i < |a| then Lines.Text(cut[i]) == Lines.Text(a[i]) else Lines.Text(cut[i]) == ""
  {
    Lines.SplitClosing(x);
  }

  lemma CutText(x: string, l: string, h: string)
    requires x <= l && !IsH2(l)
    ensures !IsHeading(x, h)
  {
    if IsHeading(x, h) {
      HeadingOfPrefix(x, l, h);
    }
  }

  lemma EmptyIsNoHeading(h: string)
    ensures !IsHeading("", h)
  {
  }

  lemma CutLine(x: string, y: string, h: string, i: nat)
    requires i < |Lines.Split(x + "\n")| && NoH2(Lines.Split(x + y))
    ensures !IsHeading(Lines.Text(Lines.Split(x + "\n")[i]), h)
  {
    TextsOfClosed(x, i);
    LinesOfPrefix(x, y);
    EmptyIsNoHeading(h);
    var a, b := Lines.Split(x), Lines.Split(x + y);
    if i < |a| {
      CutText(Lines.Text(a[i]), Lines.Text(b[i]), h);
    }
  }

  /** Plain text that is cut short and closed again has no title. */
  lemma CutHasNoTitle(x: string, y: string, h: string)
    requires NoH2(Lines.Split(x + y))
    ensures forall i :: 0 <= i < |Lines.Split(x + "\n")| ==> !IsHeading(Lines.Text(Lines.Split(x + "\n")[i]), h)
  {
    forall i | 0 <= i < |Lines.Split(x + "\n")|
      ensures !IsHeading(Lines.Text(Lines.Split(x + "\n")[i]), h)
    {
      CutLine(x, y, h, i);
    }
  }

  // The block a writer puts last, once the document was stripped

  /** What is left of a section's heading line when nothing visible follows it. */
  function BareLine(c: Charset, g: string): string {
    c.StripRight("## " + g)
  }

  /** No line names both sections, and the bare heading line of the one does not name the other. */
  predicate NamesSafe(c: Charset, g: string, h: string) {
    TwoNames(g, h) && !IsHeading(BareLine(c, g), h)
  }

  lemma PlainIsNoH2(ls: seq<string>, h: string, s: Search)
    requires s == SearchFor(h) && Outline.Without(ls, s.heading)
    ensures NoH2(ls)
  {
    forall i | 0 <= i < |ls|
      ensures !IsH2(Lines.Text(ls[i]))
    {
      assert !s.heading(ls[i]);
    }
  }

  lemma BareLineIsH2(c: Charset, g: string)
    requires IsName(g) && !c.space('#')
    ensures "##" <= BareLine(c, g) && '\n' !in BareLine(c, g) && IsH2(BareLine(c, g))
  {
    var bare, line := BareLine(c, g), "## " + g;
    StripRightPart(c, line);
    assert line == "##" + (" " + g);
    StripRightSplit(c, "##", " " + g);
    WrittenLine(g);
    LineOfPrefix(bare, line);
    MarkerIsH2(bare);
  }

  lemma LineOfPrefix(x: string, line: string)
    requires x <= line && Lines.IsLine(line + "\n")
    ensures '\n' !in x
  {
    assert forall i :: 0 <= i < |x| ==> x[i] == (line + "\n")[i];
  }

  lemma MarkerIsH2(text: string)
    requires "##" <= text && (|text| > 2 ==> text[2] == ' ')
    ensures IsH2(text)
  {
    assert text[0] == "##"[0] && Spaces(text) == 0 && text[0..2] == "##";
  }

  lemma OtherHeadingLine(g: string, h: string)
    requires TwoNames(g, h)
    ensures IsH2("## " + g) && !IsHeading("## " + g, h)
  {
    WrittenLineIsHeading(g);
    HeadingIsH2("## " + g, g);
    if IsHeading("## " + g, h) {
      SharingMeet("## " + g, g, h);
    }
  }

  /** The stripped block still starts with a heading and has no title of another name. */
  ghost predicate TidyLines(tb: seq<string>, h: string) {
    && tb != [] && IsH2(Lines.Text(tb[0]))
    && forall i :: 0 <= i < |tb| ==> !IsHeading(Lines.Text(tb[i]), h)
  }

  lemma TidyBlockLines(c: Charset, g: string, content: string, h: string)
    requires Blanks(c) && !c.space('#') && NamesSafe(c, g, h) && PassesGuard(content)
    ensures c.StripRight(Block(SearchFor(g), content)) != ""
    ensures TidyLines(Lines.Split(EndTidy(c, Block(SearchFor(g), content))), h)
  {
    var line, body := "## " + g + "\n", StripNewlines(content) + "\n";
    var sr := c.StripRight(body);
    if sr != "" {
      StripRightKeeps(c, line, body);
      StripRightPart(c, body);
      FullBlockLines(c, g, content, h, sr);
    } else {
      BareBlock(c, g, content);
      BareBlockLines(c, g, h);
    }
  }

  /** A block of blank content is stripped down to its bare heading line. */
  lemma BareBlock(c: Charset, g: string, content: string)
    requires Blanks(c) && c.StripRight(StripNewlines(content) + "\n") == ""
    ensures c.StripRight(Block(SearchFor(g), content)) == BareLine(c, g)
  {
    var line := "## " + g + "\n";
    StripAllRight(c, line, StripNewlines(content) + "\n");
    assert line[..|line| - 1] == "## " + g;
  }

  lemma BareBlockLines(c: Charset, g: string, h: string)
    requires Blanks(c) && !c.space('#') && NamesSafe(c, g, h)
    ensures BareLine(c, g) != "" && TidyLines(Lines.Split(BareLine(c, g) + "\n"), h)
  {
    BareLineIsH2(c, g);
    SplitOpenLine(BareLine(c, g));
    ClosedText(BareLine(c, g));
    assert BareLine(c, g)[0] == '#';
    assert Lines.Text(BareLine(c, g)) == BareLine(c, g) by {
      assert BareLine(c, g)[|BareLine(c, g)| - 1] in BareLine(c, g);
    }
  }

  lemma StrippedContentHasNoH2(content: string, h: string)
    requires IsName(h) && PassesGuard(content)
    ensures NoH2(Lines.Split(StripNewlines(content) + "\n"))
  {
    SearchIsLawful(h);
    GuardedIsPlain(content, h);
    StrippedIsPlain(content, SearchFor(h));
    PlainIsNoH2(Lines.Split(StripNewlines(content) + "\n"), h, SearchFor(h));
  }

  lemma TidyCons(line: string, rest: string, h: string)
    requires Lines.IsLine(line) && Lines.Closed(line) && IsH2(Lines.Text(line)) && !IsHeading(Lines.Text(line), h)
    requires forall i :: 0 <= i < |Lines.Split(rest)| ==> !IsHeading(Lines.Text(Lines.Split(rest)[i]), h)
    ensures TidyLines(Lines.Split(line + rest), h)
  {
    Lines.SplitLine(line);
    Lines.SplitConcat(line, rest);
    var tb, tail := Lines.Split(line + rest), Lines.Split(rest);
    assert tb == [line] + tail;
    forall i | 0 <= i < |tb|
      ensures !IsHeading(Lines.Text(tb[i]), h)
    {
      if i > 0 { assert tb[i] == tail[i - 1]; }
    }
  }

  lemma FullBlockLines(c: Charset, g: string, content: string, h: string, sr: string)
    requires TwoNames(g, h) && PassesGuard(content)
    requires sr <= StripNewlines(content) + "\n"
    ensures TidyLines(Lines.Split("## " + g + "\n" + sr + "\n"), h)
  {
    var line, body := "## " + g + "\n", StripNewlines(content) + "\n";
    StrippedContentHasNoH2(content, h);
    assert sr + body[|sr|..] == body;
    CutHasNoTitle(sr, body[|sr|..], h);
    WrittenLine(g);
    OtherHeadingLine(g, h);
    TidyCons(line, sr + "\n", h);
    Lines.Associative(line, sr, "\n");
  }

  // Named sections

  lemma BlockStart(g: string, content: string)
    ensures Block(SearchFor(g), content) != "" && Block(SearchFor(g), content)[0] == '#'
  {
    assert ("## " + g + "\n")[0] == '#';
  }

  lemma TidyToNamed(c: Charset, g: string, content: string, h: string)
    requires Blanks(c) && !c.space('#') && NamesSafe(c, g, h) && PassesGuard(content)
    ensures TidyTo(c, Block(SearchFor(g), content), SearchFor(h))
  {
    BlockStart(g, content);
    TidyBlockLines(c, g, content, h);
  }

  /** A line of space has no marker. */
  lemma SpacelessNamed(c: Charset, h: string)
    requires !c.space('#')
    ensures Spaceless(c, SearchFor(h))
  {
    forall l | SearchFor(h).heading(l)
      ensures !AllSpace(c, l)
    {
      MarkerAt(l);
    }
  }

  lemma MarkerAt(l: string)
    requires IsH2(Lines.Text(l))
    ensures exists i :: 0 <= i < |l| && l[i] == '#'
  {
    var text := Lines.Text(l);
    var n := Spaces(text);
    assert text[n..n + 2][0] == text[n] == l[n];
  }

  /** The edit of one named section, and the other named section behind the dump. */
  predicate KeptAfter(c: Charset, body: string, s: Search, t: Search, content: string, blank: string -> bool) {
    && ReplaceSection(body, s, content, blank).Some?
    && SameUpToEnds(GetSection(body, t), GetSection(Tidy(c, ReplaceSection(body, s, content, blank).value), t))
  }

  lemma NamedNeighbourKept(c: Charset, body: string, g: string, h: string, content: string, blank: string -> bool)
    requires Blanks(c) && !c.space('#') && StripsBlank(c, blank) && NamesSafe(c, g, h) && PassesGuard(content)
    requires !GetSection(body, SearchFor(g)).Duplicate?
    ensures var s, t := SearchFor(g), SearchFor(h);
      var front, end := FrontSafe(c, body, s, t, blank), EndSafe(c, body, s, t);
      && ReplaceSection(body, s, content, blank).Some?
      && (front && end ==> KeptAfter(c, body, s, t, content, blank))
      && (front != end && !GetSection(body, t).Duplicate? ==> !KeptAfter(c, body, s, t, content, blank))
  {
    NamesApart(g, h);
    GuardedIsPlain(content, g);
    TidyToNamed(c, g, content, h);
    SpacelessNamed(c, h);
    NeighbourKept(c, body, SearchFor(g), SearchFor(h), content, blank);
  }

  /** Over every dumped body and every content that passes the guard. */
  ghost predicate AlwaysKept(c: Charset, s: Search, t: Search, blank: string -> bool) {
    forall body, content :: Stored(c, body) && PassesGuard(content) && !GetSection(body, s).Duplicate? ==>
      KeptAfter(c, body, s, t, content, blank)
  }

  /** In dumped documents, edits of one name keep the other exactly if the names are safe. */
  lemma AlwaysKeptIff(c: Charset, g: string, h: string, s: Search, t: Search, blank: string -> bool)
    requires c.Lawful() && Blanks(c) && StripsBlank(c, blank) && IsName(g) && IsName(h)
    requires s == SearchFor(g) && t == SearchFor(h)
    ensures AlwaysKept(c, s, t, blank) <==> NamesSafe(c, g, h)
  {
    if NamesSafe(c, g, h) {
      forall body, content | Stored(c, body) && PassesGuard(content) && !GetSection(body, s).Duplicate?
        ensures KeptAfter(c, body, s, t, content, blank)
      {
        StoredNeighbourKept(c, body, g, h, content, blank);
      }
    } else if Meet(g, h) {
      MeetingIsNotKept(c, g, h, s, t, blank);
    } else {
      BareIsNotKept(c, g, h, s, t, blank);
    }
  }

  lemma StoredNeighbourKept(c: Charset, body: string, g: string, h: string, content: string, blank: string -> bool)
    requires Blanks(c) && !c.space('#') && StripsBlank(c, blank) && NamesSafe(c, g, h) && PassesGuard(content)
    requires Stored(c, body) && !GetSection(body, SearchFor(g)).Duplicate?
    ensures KeptAfter(c, body, SearchFor(g), SearchFor(h), content, blank)
  {
    SearchIsLawful(h);
    SpacelessNamed(c, h);
    StoredIsKept(c, body, SearchFor(h));
    NamedNeighbourKept(c, body, g, h, content, blank);
  }

  lemma Guarded()
    ensures PassesGuard("") && PassesGuard(":")
  {
    assert Normalize(":") == ":";
    Lines.SplitLine(":");
  }

  lemma OneIsLost(c: Charset, s: Search, t: Search, blank: string -> bool, body: string, content: string)
    requires Stored(c, body) && PassesGuard(content) && !GetSection(body, s).Duplicate?
    requires !KeptAfter(c, body, s, t, content, blank)
    ensures !AlwaysKept(c, s, t, blank)
  {
  }

  /** A section written empty at the end of a document turns into one of the other name. */
  lemma BareIsNotKept(c: Charset, g: string, h: string, s: Search, t: Search, blank: string -> bool)
    requires c.Lawful() && Blanks(c) && StripsBlank(c, blank) && IsName(g) && IsName(h)
    requires s == SearchFor(g) && t == SearchFor(h) && IsHeading(BareLine(c, g), h)
    ensures !AlwaysKept(c, s, t, blank)
  {
    Guarded();
    BareIsWritten(c, g, s, blank);
    NamedSearch(c, h, t);
    NothingInNewline(c, t);
    BareIsFound(c, g, h);
    assert Stored(c, "\n");
    OneIsLost(c, s, t, blank, "\n", "");
  }

  lemma NothingInNewline(c: Charset, t: Search)
    requires c.space('\n') && Spaceless(c, t) && t.Lawful()
    ensures GetSection("\n", t).Absent?
  {
    SpaceHasNoSection(c, "\n", t);
  }

  lemma NamedSearch(c: Charset, h: string, t: Search)
    requires IsName(h) && !c.space('#') && t == SearchFor(h)
    ensures t.Lawful() && Spaceless(c, t)
  {
    SearchIsLawful(h);
    SpacelessNamed(c, h);
  }

  lemma BareIsFound(c: Charset, g: string, h: string)
    requires IsName(g) && IsName(h) && !c.space('#') && IsHeading(BareLine(c, g), h)
    ensures GetSection(BareLine(c, g) + "\n", SearchFor(h)).Found?
  {
    var l := BareLine(c, g) + "\n";
    BareLineIsH2(c, g);
    LineOfText(BareLine(c, g), l);
    SearchIsLawful(h);
    SharedLineFound(l, SearchFor(h));
  }

  lemma BareIsWritten(c: Charset, g: string, s: Search, blank: string -> bool)
    requires c.Lawful() && Blanks(c) && StripsBlank(c, blank) && IsName(g) && s == SearchFor(g)
    ensures GetSection("\n", s).Absent? && ReplaceSection("\n", s, "", blank) == Some(Block(s, ""))
    ensures Tidy(c, Block(s, "")) == BareLine(c, g) + "\n"
  {
    NamedSearch(c, g, s);
    NothingInNewline(c, s);
    BlankIsSpace(c, "\n");
    BareTidy(c, g);
  }

  lemma BareTidy(c: Charset, g: string)
    requires c.Lawful() && Blanks(c) && IsName(g)
    ensures Tidy(c, Block(SearchFor(g), "")) == BareLine(c, g) + "\n"
  {
    assert StripNewlines("") + "\n" == "\n";
    BlankIsSpace(c, "\n");
    BareBlock(c, g, "");
    BareLineIsH2(c, g);
    TidyIs(c, Block(SearchFor(g), ""));
    StartsWithMarker(c, BareLine(c, g));
  }

  lemma StartsWithMarker(c: Charset, text: string)
    requires "##" <= text && !c.space('#')
    ensures c.StripLeft(text + "\n") == text + "\n"
  {
    assert text[0] == "##"[0];
  }

  /** A line that names both, with a line of text under it. */
  lemma MeetingIsNotKept(c: Charset, g: string, h: string, s: Search, t: Search, blank: string -> bool)
    requires c.Lawful() && Blanks(c) && StripsBlank(c, blank) && IsName(g) && IsName(h)
    requires s == SearchFor(g) && t == SearchFor(h) && Meet(g, h)
    ensures !AlwaysKept(c, s, t, blank)
  {
    var text := CommonLine(g, h);
    ShareLineIffMeet(g, h);
    SharedNames(g, h, text, text + "\n", s, t);
    Guarded();
    GuardedIsPlain(":", g);
    DashIsPlain(g, s);
    assert "##" <= s.line;
    SharedLineLoses(c, text, text + "\n", s, t, blank);
  }

  lemma SharedLineLoses(c: Charset, text: string, l: string, s: Search, t: Search, blank: string -> bool)
    requires c.Lawful() && Blanks(c) && StripsBlank(c, blank) && Lines.IsLine(l) && l == text + "\n" && "##" <= text
    requires s.Lawful() && t.Lawful() && s.title(l) && t.title(l) && !s.heading("-\n") && "##" <= s.line
    requires (forall x :: s.heading(x) == t.heading(x)) && PassesGuard(":") && Plain(":", s)
    ensures !AlwaysKept(c, s, t, blank)
  {
    DashUnderLine(c, text, l, s, t);
    Overwritten(l + "-\n", s, blank);
    ColonBlock(c, s, t);
    DashIsNoColon();
    OneIsLost(c, s, t, blank, l + "-\n", ":");
  }

  lemma DashIsNoColon()
    ensures StripEnds("-\n") != StripEnds(":\n")
  {
    assert "-\n"[..1] == "-" && ":\n"[..1] == ":";
    assert StripEnds("-\n") == "-" && StripEnds(":\n") == ":";
  }

  lemma DashUnderLine(c: Charset, text: string, l: string, s: Search, t: Search)
    requires c.Lawful() && Lines.IsLine(l) && Lines.Closed(l) && l == text + "\n" && "##" <= text
    requires s.Lawful() && t.Lawful() && s.title(l) && t.title(l) && !s.heading("-\n") && !t.heading("-\n")
    ensures Stored(c, l + "-\n")
    ensures Place(l + "-\n", s) == Outline.At(0, |Lines.Split(l + "-\n")|) && GetSection(l + "-\n", s).Found?
    ensures GetSection(l + "-\n", t) == Found(0, |l| + 2, "-\n")
  {
    UnderLine(l, "-\n", s);
    UnderLine(l, "-\n", t);
    var body := l + "-\n";
    assert body[..|body| - 1] == l + "-" && body[0] == text[0] == "##"[0];
  }

  lemma Overwritten(body: string, s: Search, blank: string -> bool)
    requires Place(body, s).At? && Place(body, s).first == 0 && Place(body, s).after == |Lines.Split(body)|
    ensures ReplaceSection(body, s, ":", blank) == Some(Block(s, ":"))
  {
    var ls := Lines.Split(body);
    EditedText(body, s, ":", blank);
    assert ls[..0] == [] && ls[|ls|..] == [];
    assert "" + (Block(s, ":") + "") == Block(s, ":");
  }

  /** A block of one visible line is in dumped form, and is all that is found under the other name. */
  lemma ColonBlock(c: Charset, s: Search, t: Search)
    requires c.Lawful() && Blanks(c) && s.Lawful() && t.Lawful() && Plain(":", s) && "##" <= s.line
    requires forall x :: s.heading(x) == t.heading(x)
    ensures Tidy(c, Block(s, ":")) == Block(s, ":")
    ensures var got := GetSection(Block(s, ":"), t); got.Absent? || (got.Found? && got.content == ":\n")
  {
    assert StripNewlines(":") + "\n" == ":\n";
    ColonIsTidy(c, s.line);
    BlockLines(s, ":");
    StrippedIsPlain(":", s);
    BlockReads(Block(s, ":"), s, t, ":\n");
  }

  lemma ColonIsTidy(c: Charset, line: string)
    requires c.Lawful() && "##" <= line
    ensures Tidy(c, line + ":\n") == line + ":\n"
  {
    var b := line + ":\n";
    assert b[..|b| - 1] == line + ":" && c.StripRight(line + ":") == line + ":";
    assert c.StripRight(b) == line + ":" && EndTidy(c, b) == b;
    TidyIs(c, b);
    StartsWithMarker(c, line + ":");
  }

  lemma DashIsPlain(g: string, s: Search)
    requires s == SearchFor(g)
    ensures !s.heading("-\n")
  {
    if s.heading("-\n") {
      MarkerAt("-\n");
    }
  }

  lemma UnderLine(l: string, text: string, t: Search)
    requires t.Lawful() && Lines.IsLine(l) && Lines.Closed(l) && t.title(l)
    requires Lines.IsLine(text) && Lines.Closed(text) && !t.heading(text)
    ensures Place(l + text, t) == Outline.At(0, 2) && |Lines.Split(l + text)| == 2
    ensures GetSection(l + text, t) == Found(0, |l| + |text|, text)
  {
    Lines.SplitLine(text);
    Lines.SplitLine(l);
    Lines.SplitConcat(l, text);
    var ls := [l] + [text];
    Outline.LocateMeans(ls, t.title, t.heading, 0, 2);
    GetIsRendered(l + text, t);
    assert ls[1..2] == [text] && ls[..2] == ls && ls[..0] == [];
    Lines.FlatSplit(l + text);
    assert Lines.Flat([text]) == text + "" == text;
  }

  // Which bodies are safe, and which are not

  predicate LineEnds(w: string) {
    forall i :: 0 <= i < |w| ==> w[i] == '\n' || w[i] == '\r'
  }

  /** What is stripped from the end is line ends only, LF or CRLF. */
  predicate EndsInLines(c: Charset, x: string) {
    |c.StripRight(x)| <= |x| && ClosingLines(x[|c.StripRight(x)|..])
  }

  predicate ClosingLines(w: string) {
    LineEnds(w) && (w == "" || w[0] == '\n' || "\r\n" <= w)
  }

  lemma {:induction false} StripLineEnds(w: string)
    requires LineEnds(w)
    ensures StripEnds(w) == ""
  {
    if w != "" {
      StripLineEnds(w[..|w| - 1]);
    }
  }

  /** Behind a visible character, line ends are all that is stripped either way. */
  lemma {:induction false} StripEndsOf(c: Charset, r: string, w: string)
    requires Blanks(c) && LineEnds(w) && (r != "" ==> !c.space(r[|r| - 1]))
    ensures StripEnds(r + w) == r == c.StripRight(r + w)
  {
    if w == "" {
      assert r + w == r;
    } else {
      assert (r + w)[..|r + w| - 1] == r + w[..|w| - 1];
      StripEndsOf(c, r, w[..|w| - 1]);
    }
  }

  /** The rest of such a text is such a text. */
  lemma StripEndsOfRest(c: Charset, r: string, w: string, n: nat)
    requires Blanks(c) && LineEnds(w) && r != "" && !c.space(r[|r| - 1]) && n <= |r + w|
    ensures StripEnds((r + w)[n..]) == c.StripRight((r + w)[n..])
  {
    if n < |r| {
      assert (r + w)[n..] == r[n..] + w;
      StripEndsOf(c, r[n..], w);
    } else {
      assert (r + w)[n..] == "" + w[n - |r|..];
      StripEndsOf(c, "", w[n - |r|..]);
    }
  }

  /** A line that ends in CR before its LF is what it would be without the CR. */
  lemma CrLine(c: Charset, last: string, h: string)
    requires Blanks(c) && IsName(h) && last != "" && !c.space(last[|last| - 1])
    ensures IsHeading(last + "\r", h) <==> IsHeading(last, h)
    ensures IsH2(last + "\r") <==> IsH2(last)
  {
    MarkerBeforeCr(c, last);
    if AfterMarker(last).Some? {
      CrName(AfterMarker(last).value, h);
    }
  }

  lemma MarkerBeforeCr(c: Charset, last: string)
    requires Blanks(c) && last != "" && !c.space(last[|last| - 1])
    ensures match AfterMarker(last)
      case None => AfterMarker(last + "\r") == None
      case Some(rest) => AfterMarker(last + "\r") == Some(rest + "\r") && (rest != "" ==> !c.space(rest[|rest| - 1]))
  {
    var text, n := last + "\r", Spaces(last);
    SpacesOfPrefix(last, text);
    if n + 2 <= |last| {
      assert text[n..n + 2] == last[n..n + 2] && text[n + 2..] == last[n + 2..] + "\r";
    } else if n + 2 <= |text| {
      assert text[n..n + 2][1] == '\r';
    }
  }

  lemma CrName(rest: string, h: string)
    requires IsName(h) && (rest != "" ==> rest[|rest| - 1] != '\r')
    ensures (Named(rest + "\r", h) || Named(DropCR(rest + "\r"), h)) <==> (Named(rest, h) || Named(DropCR(rest), h))
  {
    var text := rest + "\r";
    assert DropCR(text) == rest && DropCR(rest) == rest;
    assert text[|rest|] in text;
    if Named(text, h) {
      NamedTrims(text, h);
    }
  }

  lemma FirstClosed(l: string, w: string)
    requires l != "" && '\n' !in l
    ensures Lines.Split(l + ("\n" + w)) == [l + "\n"] + Lines.Split(w)
  {
    SplitOpenLine(l);
    Lines.SplitConcat(l + "\n", w);
    Lines.Associative(l, "\n", w);
  }

  /** What the search makes of the last visible line does not depend on how it is closed. */
  lemma ClosedLine(c: Charset, last: string, w: string, t: Search)
    requires t.Lawful() && last != "" && '\n' !in last && ClosingLines(w)
    requires t.title(last + "\r" + "\n") == t.title(last + "\n")
    requires t.heading(last + "\r" + "\n") == t.heading(last + "\n")
    ensures var q := Lines.Split(last + w);
      q != [] && t.title(q[0]) == t.title(last + "\n") && t.heading(q[0]) == t.heading(last + "\n")
  {
    if w == "" {
      assert last + w == last;
      assert forall i :: 0 <= i < |last| ==> last[i] in last;
      Lines.SplitLine(last);
    } else if w[0] == '\n' {
      assert w == "\n" + w[1..];
      FirstClosed(last, w[1..]);
    } else {
      assert last + w == (last + "\r") + ("\n" + w[2..]);
      FirstClosed(last + "\r", w[2..]);
    }
  }

  lemma CrSearch(c: Charset, last: string, h: string, t: Search)
    requires Blanks(c) && IsName(h) && t == SearchFor(h) && last != "" && '\n' !in last && !c.space(last[|last| - 1])
    ensures t.title(last + "\r" + "\n") == t.title(last + "\n")
    ensures t.heading(last + "\r" + "\n") == t.heading(last + "\n")
  {
    TextOf(last);
    TextOf(last + "\r");
    CrLine(c, last, h);
  }

  lemma TextOf(l: string)
    ensures Lines.Text(l + "\n") == l
  {
    assert (l + "\n")[..|l|] == l;
  }

  /** A text that ends in line ends is not touched at its end. */
  lemma LineEndsAreSafe(c: Charset, x: string, h: string, t: Search)
    requires Blanks(c) && IsName(h) && t == SearchFor(h) && EndsInLines(c, x)
    ensures EndKept(c, x, t)
  {
    if c.StripRight(x) == "" {
      BlankEndKept(c, x, t);
    } else {
      var head, last, w := TakeEnd(c, x);
      NamedLineEnds(c, x, head, last, w, h, t);
    }
  }

  lemma BlankEndKept(c: Charset, x: string, t: Search)
    requires c.StripRight(x) == ""
    ensures EndKept(c, x, t)
  {
  }

  lemma NamedLineEnds(c: Charset, x: string, head: string, last: string, w: string, h: string, t: Search)
    requires Blanks(c) && IsName(h) && t == SearchFor(h)
    requires Dumping.Parts(c, head, last, w) && x == head + (last + w) && ClosingLines(w)
    ensures EndKept(c, x, t)
  {
    SearchIsLawful(h);
    CrSearch(c, last, h, t);
    LineEndsKept(c, x, head, last, w, t);
  }

  lemma LineEndsKept(c: Charset, x: string, head: string, last: string, w: string, t: Search)
    requires Blanks(c) && t.Lawful() && Dumping.Parts(c, head, last, w) && x == head + (last + w) && ClosingLines(w)
    requires t.title(last + "\r" + "\n") == t.title(last + "\n")
    requires t.heading(last + "\r" + "\n") == t.heading(last + "\n")
    ensures EndKept(c, x, t)
  {
    ClosedLine(c, last, w, t);
    if Place(x, t).At? && Place(x, t).after == |Lines.Split(x)| {
      assert x == (head + last) + w;
      LineEndsStripped(c, x, head + last, w, t);
    }
    EndIsKept(c, x, head, last, w, t);
  }

  lemma LineEndsStripped(c: Charset, x: string, r: string, w: string, t: Search)
    requires Blanks(c) && r != "" && !c.space(r[|r| - 1]) && x == r + w && LineEnds(w)
    requires Place(x, t).At? && Place(x, t).after == |Lines.Split(x)|
    ensures StripEnds(GetSection(x, t).content) == c.StripRight(GetSection(x, t).content)
  {
    ContentToEnd(x, t);
    StripEndsOfRest(c, r, w, |Lines.Flat(Lines.Split(x)[..Place(x, t).first + 1])|);
  }

  /** If more than line ends is stripped from the last section, the end is touched for it. */
  lemma TrailingSpaceIsLost(c: Charset, x: string, t: Search)
    requires Blanks(c) && c.StripRight(x) != "" && Place(x, t).At? && Place(x, t).after == |Lines.Split(x)|
    requires StripEnds(GetSection(x, t).content) != c.StripRight(GetSection(x, t).content)
    ensures !EndKept(c, x, t)
  {
    EndParts(c, x);
  }

  /**
    Two sections, the second ending in more than line ends: an edit of the first touches the end of the
    document for the second.
  */
  lemma ThreeLines(c: Charset, l: string, m: string, text: string, s: Search, t: Search, blank: string -> bool)
    requires Blanks(c) && s.Lawful() && t.Lawful() && (forall x :: s.heading(x) == t.heading(x))
    requires Lines.IsLine(l) && Lines.Closed(l) && Lines.IsLine(m) && Lines.Closed(m) && Lines.IsLine(text)
    requires s.title(l) && !t.title(l) && t.title(m) && !s.title(m) && !t.heading(text)
    requires StripEnds(text) != c.StripRight(text) && c.StripRight(text) != ""
    ensures var body := l + (m + text);
      && GetSection(body, s).Found? && GetSection(body, t).Found?
      && FrontSafe(c, body, s, t, blank) && !EndSafe(c, body, s, t)
  {
    var body := l + (m + text);
    TwoSections(l, m, text, s, t);
    assert Before(body, s, blank) == "";
    Lines.Associative(l, m, text);
    StripRightKeeps(c, l + m, text);
    TrailingSpaceIsLost(c, body, t);
  }

  lemma TwoSections(l: string, m: string, text: string, s: Search, t: Search)
    requires s.Lawful() && t.Lawful() && (forall x :: s.heading(x) == t.heading(x))
    requires Lines.IsLine(l) && Lines.Closed(l) && Lines.IsLine(m) && Lines.Closed(m) && Lines.IsLine(text)
    requires s.title(l) && !t.title(l) && t.title(m) && !s.title(m) && !t.heading(text)
    ensures var body := l + (m + text);
      && Lines.Split(body) == [l, m, text]
      && Place(body, s) == Outline.At(0, 1) && Place(body, t) == Outline.At(1, 3)
      && GetSection(body, s).Found? && GetSection(body, t).Found? && GetSection(body, t).content == text
      && Behind(body, s) != "" && Lines.Flat(Lines.Split(body)[..0]) == ""
  {
    var body, ls := l + (m + text), [l, m, text];
    Lines.SplitLine(l);
    Lines.SplitLine(m);
    Lines.SplitLine(text);
    Lines.SplitConcat(m, text);
    Lines.SplitConcat(l, m + text);
    assert Lines.Split(body) == ls;
    Outline.LocateMeans(ls, s.title, s.heading, 0, 1);
    Outline.LocateMeans(ls, t.title, t.heading, 1, 3);
    GetIsRendered(body, s);
    GetIsRendered(body, t);
    assert ls[1..] == [m, text] && ls[2..3] == [text] && ls[..0] == [];
    assert Lines.Flat([text]) == text + "" == text;
  }

  /** The names of the example, and its lines as the patterns read them. */
  lemma LettersApart(c: Charset)
    requires Blanks(c) && !c.space('B')
    ensures NamesSafe(c, "B", "A")
  {
    TwoLetters();
    assert "## B"[3] == 'B' && BareLine(c, "B") == "## " + "B";
    OtherHeadingLine("B", "A");
  }

  /** A vertical tab is no blank to the patterns, but `str.strip` takes it. */
  lemma VerticalTabIsUnsafe(c: Charset)
    requires c.space('\U{000B}') && !c.space('A')
    ensures TwoNames("A\U{000B}", "A") && !NamesSafe(c, "A\U{000B}", "A")
  {
    var g := "A\U{000B}";
    assert g[0] == 'A' && g[1] == '\U{000B}' && "A"[0] == 'A';
    assert TrimLeft(g) == g && Trim(g) == g && TrimLeft("A") == "A" && Trim("A") == "A";
    var line := "## " + g;
    assert line[..4] == "## A" && line[4] == '\U{000B}' && c.StripRight(line) == c.StripRight("## A") == "## A";
    PaddedHeadings();
  }

  /** Blanks at the end of the last section: an edit before it touches the end of the document for it. */
  lemma TrailingBlanksAreUnsafe(c: Charset, s: Search, t: Search, blank: string -> bool)
    requires c.Lawful() && Blanks(c) && !c.space('f') && s == SearchFor("B") && t == SearchFor("A")
    ensures var body := s.line + (t.line + "f  \n");
      && GetSection(body, s).Found? && GetSection(body, t).Found?
      && FrontSafe(c, body, s, t, blank) && !EndSafe(c, body, s, t)
  {
    TwoLetters();
    NamesApart("B", "A");
    BlanksOfLine(c);
    ThreeLines(c, s.line, t.line, "f  \n", s, t, blank);
  }

  lemma TwoLetters()
    ensures TwoNames("A", "B") && TwoNames("B", "A")
  {
    assert "A"[0] == 'A' && "B"[0] == 'B';
    assert TrimLeft("A") == "A" && TrimLeft("B") == "B" && Trim("A") == "A" && Trim("B") == "B";
  }

  lemma BlanksOfLine(c: Charset)
    requires Blanks(c) && !c.space('f')
    ensures Lines.IsLine("f  \n") && !IsH2(Lines.Text("f  \n"))
    ensures StripEnds("f  \n") == "f  " && c.StripRight("f  \n") == "f"
  {
    assert "f  \n"[..3] == "f  " && "f  "[..2] == "f " && "f "[..1] == "f";
    assert c.StripRight("f") == "f" && c.StripRight("f ") == "f" && c.StripRight("f  ") == "f";
  }

  // Both ends touched: the two may cancel out

  /** A padded heading line before the edited section, and after it a heading that is cut to another name. */
  predicate Padded(c: Charset, v: string, u: string, t: Search) {
    && v != "" && AllSpace(c, v) && '\n' !in v && u != "" && !c.space(u[0]) && '\n' !in u
    && t.line == u + "\n" && t.title(t.line) && t.heading(u) && t.title(u)
    && !t.heading(v + t.line) && !t.title(v + t.line)
    && var r := c.StripRight(u); t.heading(r + "\n") && !t.title(r + "\n")
  }

  /** The line that was no heading becomes the section's title, and the heading that was stops being it. */
  lemma BothEndsCancel(c: Charset, s: Search, t: Search, v: string, u: string, blank: string -> bool)
    requires Blanks(c) && Spaceless(c, t) && Apart(s, t) && Padded(c, v, u, t) && Plain("", s)
    ensures var body := (v + t.line) + (s.line + u);
      && !FrontSafe(c, body, s, t, blank) && !EndSafe(c, body, s, t)
      && KeptAfter(c, body, s, t, "", blank)
  {
    var body := (v + t.line) + (s.line + u);
    PaddedBody(c, s, t, v, u, blank);
    PaddedEnds(c, s, t, v, u, blank);
    PaddedTidy(c, s, t, v, u);
    EditedText(body, s, "", blank);
    assert StripNewlines("") + "\n" == "\n" && Block(s, "") == s.line + "\n";
  }

  lemma PaddedBody(c: Charset, s: Search, t: Search, v: string, u: string, blank: string -> bool)
    requires Apart(s, t) && Padded(c, v, u, t)
    ensures var body := (v + t.line) + (s.line + u);
      && Lines.Split(body) == [v + t.line, s.line, u]
      && Place(body, s) == Outline.At(1, 2) && Place(body, t) == Outline.At(2, 3)
      && Before(body, s, blank) == v + t.line && Behind(body, s) == u
      && GetSection(body, s).Found? && GetSection(body, t).Found? && GetSection(body, t).content == ""
  {
    var body, ls := (v + t.line) + (s.line + u), [v + t.line, s.line, u];
    assert Lines.IsLine(v + t.line) by {
      assert v + t.line == (v + u) + "\n" && '\n' !in v + u;
      assert forall i :: 0 <= i < |v + u| ==> (v + u)[i] in v + u;
    }
    assert Lines.IsLine(u) by {
      assert forall i :: 0 <= i < |u| ==> u[i] in u;
    }
    Lines.SplitLine(v + t.line);
    Lines.SplitLine(s.line);
    Lines.SplitLine(u);
    Lines.SplitConcat(s.line, u);
    Lines.SplitConcat(v + t.line, s.line + u);
    assert Lines.Split(body) == ls;
    Outline.LocateMeans(ls, s.title, s.heading, 1, 2);
    Outline.LocateMeans(ls, t.title, t.heading, 2, 3);
    GetIsRendered(body, s);
    GetIsRendered(body, t);
    assert ls[..1] == [v + t.line] && ls[2..] == [u] && ls[3..3] == [];
    assert Lines.Flat([u]) == u + "" == u && Lines.Flat([v + t.line]) == v + t.line + "" == v + t.line;
  }

  lemma PaddedEnds(c: Charset, s: Search, t: Search, v: string, u: string, blank: string -> bool)
    requires Blanks(c) && Apart(s, t) && Padded(c, v, u, t)
    requires var body := (v + t.line) + (s.line + u);
      Before(body, s, blank) == v + t.line && Behind(body, s) == u
    ensures var body := (v + t.line) + (s.line + u); !FrontSafe(c, body, s, t, blank) && !EndSafe(c, body, s, t)
  {
    PaddedFront(c, s, t, v, u);
    PaddedEnd(c, s, t, v, u);
    StripLeftSpace(c, v, t.line);
  }

  lemma PaddedFront(c: Charset, s: Search, t: Search, v: string, u: string)
    requires Blanks(c) && Apart(s, t) && Padded(c, v, u, t)
    ensures !FrontKept(c, (v + t.line) + (s.line + u), t)
  {
    var f := t.line + (s.line + u);
    assert (v + t.line) + (s.line + u) == "" + (v + f);
    FrontIsKept(c, "" + (v + f), "", v, f, t);
    Lines.SplitLine(t.line);
    Lines.SplitConcat(t.line, s.line + u);
  }

  lemma PaddedEnd(c: Charset, s: Search, t: Search, v: string, u: string)
    requires Blanks(c) && Apart(s, t) && Padded(c, v, u, t)
    ensures !EndKept(c, (v + t.line) + (s.line + u), t)
  {
    var head, r := (v + t.line) + s.line, c.StripRight(u);
    StripRightParts(c, u);
    StripRightFirst(c, u);
    assert u == r + u[|r|..] && (v + t.line) + (s.line + u) == head + (r + u[|r|..]);
    assert forall i :: 0 <= i < |r| ==> r[i] == u[i] && u[i] in u;
    EndIsKept(c, head + (r + u[|r|..]), head, r, u[|r|..], t);
    assert forall i :: 0 <= i < |u| ==> u[i] in u;
    Lines.SplitLine(u);
  }

  lemma PaddedTidy(c: Charset, s: Search, t: Search, v: string, u: string)
    requires Blanks(c) && Spaceless(c, t) && Apart(s, t) && Padded(c, v, u, t)
    ensures var after := GetSection(Tidy(c, (v + t.line) + (s.line + "\n" + u)), t); after.Found? && after.content == ""
  {
    var a, b, r := v + t.line, s.line + "\n", c.StripRight(u);
    StripRightFirst(c, u);
    EndOfBlock(c, a, b, u);
    TidyIs(c, a + (b + u));
    var rest := t.line + (b + (r + "\n"));
    assert a + (b + (r + "\n")) == v + rest;
    StripLeftSpace(c, v, rest);
    assert c.StripLeft(rest) == rest;
    PaddedAfter(c, s, t, v, u);
  }

  lemma PaddedAfter(c: Charset, s: Search, t: Search, v: string, u: string)
    requires Blanks(c) && Spaceless(c, t) && Apart(s, t) && Padded(c, v, u, t)
    ensures var after := GetSection(t.line + (s.line + "\n" + (c.StripRight(u) + "\n")), t);
      after.Found? && after.content == ""
  {
    var r := c.StripRight(u);
    StripRightParts(c, u);
    StripRightFirst(c, u);
    assert forall i :: 0 <= i < |r| ==> r[i] == u[i] && u[i] in u;
    FourLines(t.line + (s.line + "\n" + (r + "\n")), s, t, r);
  }

  lemma FourLines(x: string, s: Search, t: Search, r: string)
    requires Apart(s, t) && r != "" && '\n' !in r && t.title(t.line) && !t.title(r + "\n")
    requires x == t.line + (s.line + "\n" + (r + "\n"))
    ensures GetSection(x, t).Found? && GetSection(x, t).content == ""
  {
    var ls := [t.line, s.line, "\n", r + "\n"];
    SplitOpenLine(r);
    Lines.SplitLine(t.line);
    Lines.SplitLine(s.line);
    Lines.SplitLine("\n");
    Lines.SplitConcat("\n", r + "\n");
    Lines.SplitConcat(s.line, "\n" + (r + "\n"));
    Lines.Associative(s.line, "\n", r + "\n");
    Lines.SplitConcat(t.line, s.line + ("\n" + (r + "\n")));
    assert Lines.Split(x) == ls;
    Outline.LocateMeans(ls, t.title, t.heading, 0, 1);
    GetIsRendered(x, t);
    assert ls[1..1] == [];
  }

  lemma TitleLength(text: string, h: string)
    requires IsHeading(text, h)
    ensures |text| >= |h| + 3
  {
  }

  /** So it is for every name that ends in what is stripped, behind any such character but a space. */
  lemma NamesCancel(c: Charset, g: string, h: string, s: Search, t: Search, x: char, blank: string -> bool)
    requires c.Lawful() && Blanks(c) && TwoNames(g, h) && s == SearchFor(g) && t == SearchFor(h)
    requires BareLine(c, h) != "## " + h && c.space(x) && x != ' ' && x != '\n'
    ensures var body := ([x] + t.line) + (s.line + ("## " + h));
      && !FrontSafe(c, body, s, t, blank) && !EndSafe(c, body, s, t)
      && KeptAfter(c, body, s, t, "", blank)
  {
    NamesApart(g, h);
    SpacelessNamed(c, h);
    Guarded();
    GuardedIsPlain("", g);
    NamePadded(c, h, t, x);
    BothEndsCancel(c, s, t, [x], "## " + h, blank);
  }

  /** The bare line is a heading, and too short to be the name's. */
  lemma ShorterLine(h: string, r: string, t: Search)
    requires t == SearchFor(h) && IsH2(r) && |r| < |h| + 3
    ensures t.heading(r + "\n") && !t.title(r + "\n")
  {
    TextOf(r);
    if IsHeading(r, h) {
      TitleLength(r, h);
    }
  }

  /** No marker follows what is neither a space nor a `#`. */
  lemma NoMarker(x: char, u: string)
    requires x != ' ' && x != '#'
    ensures !IsH2(Lines.Text([x] + (u + "\n")))
  {
    Lines.Associative([x], u, "\n");
    TextOf([x] + u);
    OtherStart(x, u);
  }

  lemma OtherStart(x: char, u: string)
    requires x != ' ' && x != '#'
    ensures !IsH2([x] + u)
  {
    var text := [x] + u;
    assert Spaces(text) == 0;
    if |text| >= 2 {
      assert text[0..2][0] == x;
    }
  }

  lemma NamePadded(c: Charset, h: string, t: Search, x: char)
    requires c.Lawful() && Blanks(c) && IsName(h) && t == SearchFor(h) && t.Lawful()
    requires BareLine(c, h) != "## " + h && c.space(x) && x != ' ' && x != '\n'
    ensures Padded(c, [x], "## " + h, t)
  {
    var u, r := "## " + h, BareLine(c, h);
    WrittenLine(h);
    LineOfPrefix(u, u);
    BareLineIsH2(c, h);
    StripRightPart(c, u);
    ShorterLine(h, r, t);
    NoMarker(x, u);
    assert !t.heading([x] + (u + "\n"));
    PaddedWith(c, x, u, t);
  }

  lemma PaddedWith(c: Charset, x: char, u: string, t: Search)
    requires t.Lawful() && t.line == u + "\n" && u != "" && '\n' !in u && !c.space(u[0])
    requires c.space(x) && x != '\n' && !t.heading([x] + (u + "\n"))
    requires var r := c.StripRight(u); t.heading(r + "\n") && !t.title(r + "\n")
    ensures Padded(c, [x], u, t)
  {
    assert t.title(u) && t.heading(u);
  }
}
