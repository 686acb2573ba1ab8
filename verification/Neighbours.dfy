/**
  An edit of one section and the dump that follows it, seen by the search for another section: the
  other section is kept, up to trailing line ends, exactly if stripping the document does not touch it.
*/
module Neighbours {
  import opened Types
  import Lines
  import Outline
  import opened FrontMatter
  import opened SectionText
  import opened SessionJournal
  import opened Dumping

  // Editing a body

  /** What dumping and parsing make of a body. */
  function Tidy(c: Charset, body: string): string {
    c.Strip(body) + "\n"
  }

  /** What `_replace_section` takes for a blank document. */
  ghost predicate StripsBlank(c: Charset, blank: string -> bool) {
    forall x :: blank(x) <==> c.Strip(x) == ""
  }

  /** The text before the block that is written for a section. */
  function Before(body: string, s: Search, blank: string -> bool): string {
    match Place(body, s)
    case At(i, _) => Lines.Flat(Lines.Split(body)[..i])
    case _ => if blank(body) then "" else body + Separator(body)
  }

  /** And the text behind it. */
  function Behind(body: string, s: Search): string {
    match Place(body, s)
    case At(_, j) => Lines.Flat(Lines.Split(body)[j..])
    case _ => ""
  }

  lemma EditedText(body: string, s: Search, content: string, blank: string -> bool)
    requires !GetSection(body, s).Duplicate?
    ensures ReplaceSection(body, s, content, blank) ==
      Some(Before(body, s, blank) + (Block(s, content) + Behind(body, s)))
    ensures Lines.Closed(Before(body, s, blank))
  {
    var b := Block(s, content);
    if Place(body, s).At? {
      SectionSplits(body, s);
      FirstLinesClosed(body, Place(body, s).first);
      Lines.Associative(Before(body, s, blank), b, Behind(body, s));
    } else {
      assert b + "" == b && "" + b == b;
      Lines.Associative(body, Separator(body), b);
    }
  }

  /** A section takes a body apart. */
  lemma SectionSplits(body: string, s: Search)
    requires Place(body, s).At?
    ensures var (ls, p, got) := (Lines.Split(body), Place(body, s), GetSection(body, s));
      && got.Found? && body[..got.start] == Lines.Flat(ls[..p.first]) && body[got.end..] == Lines.Flat(ls[p.after..])
      && body == Lines.Flat(ls[..p.after]) + Lines.Flat(ls[p.after..])
      && body == Lines.Flat(ls[..p.first]) + Lines.Flat(ls[p.first..])
  {
    var ls, p := Lines.Split(body), Place(body, s);
    GetIsRendered(body, s);
    Lines.FlatSplit(body);
    Lines.FlatSlices(ls, p.first, p.after);
    SplitAtLine(body, p.first);
    SplitAtLine(body, p.after);
  }

  lemma SplitAtLine(body: string, k: nat)
    requires k <= |Lines.Split(body)|
    ensures body == Lines.Flat(Lines.Split(body)[..k]) + Lines.Flat(Lines.Split(body)[k..])
  {
    var ls := Lines.Split(body);
    Lines.FlatSplit(body);
    Lines.FlatConcat(ls[..k], ls[k..]);
    assert ls[..k] + ls[k..] == ls;
  }

  lemma FirstLinesClosed(body: string, k: nat)
    requires k < |Lines.Split(body)|
    ensures Lines.Closed(Lines.Flat(Lines.Split(body)[..k]))
    ensures Lines.Split(Lines.Flat(Lines.Split(body)[..k])) == Lines.Split(body)[..k]
  {
    Lines.SplitLines(body);
    Lines.FlatClosed(Lines.Split(body)[..k]);
    Lines.SplitFlat(Lines.Split(body)[..k]);
  }

  lemma LinesThenText(body: string, k: nat, text: string)
    requires k < |Lines.Split(body)|
    ensures Lines.Split(Lines.Flat(Lines.Split(body)[..k]) + text) == Lines.Split(body)[..k] + Lines.Split(text)
  {
    FirstLinesClosed(body, k);
    Lines.SplitConcat(Lines.Flat(Lines.Split(body)[..k]), text);
  }

  /** The block starts visibly, and once stripped still reads as lines of another section to t. */
  ghost predicate TidyTo(c: Charset, b: string, t: Search) {
    && c.StripRight(b) != "" && !c.space(b[0])
    && var tb := Lines.Split(EndTidy(c, b));
       tb != [] && t.heading(tb[0]) && Outline.Without(tb, t.title)
  }

  /** Dumping strips the end, then the front. */
  lemma TidyIs(c: Charset, x: string)
    requires c.StripRight(x) != ""
    ensures Tidy(c, x) == c.StripLeft(EndTidy(c, x)) && c.StripLeft(EndTidy(c, x)) != ""
  {
    var r := c.StripRight(x);
    StripSwaps(c, x);
    StripRightParts(c, x);
    StripLeftParts(c, r);
    var f := c.StripLeft(r);
    BlankIsSpace(c, r);
    StripRightTwice(c, x);
    var pad := r[..|r| - |f|];
    assert r + "\n" == pad + (f + "\n");
    StripLeftSpace(c, pad, f + "\n");
  }

  // The edited section is the last one, or new

  /** The last section exchanged for another text of its own. */
  lemma LastExchanged(body: string, s: Search, t: Search, text: string)
    requires Apart(s, t) && Place(body, s).At? && Place(body, s).after == |Lines.Split(body)|
    requires Lines.Split(text) != [] && t.heading(Lines.Split(text)[0]) && Outline.Without(Lines.Split(text), t.title)
    ensures SameContent(GetSection(body, t),
                        GetSection(Lines.Flat(Lines.Split(body)[..Place(body, s).first]) + text, t))
  {
    var ls, k := Lines.Split(body), Place(body, s).first;
    LastIsForeign(ls, s, t);
    LinesThenText(body, k, text);
    TailExchanged(body, Lines.Flat(ls[..k]) + text, ls[..k], ls[k..], Lines.Split(text), t);
  }

  lemma LastIsForeign(ls: seq<string>, s: Search, t: Search)
    requires Apart(s, t) && Locate(ls, s).At? && Locate(ls, s).after == |ls|
    ensures var k := Locate(ls, s).first;
      ls == ls[..k] + ls[k..] && ls[k..] != [] && t.heading(ls[k..][0]) && Outline.Without(ls[k..], t.title)
  {
    var k := Locate(ls, s).first;
    Outline.LocatedSplit(ls, s.title, s.heading);
    assert ls[k..|ls|] == ls[k..];
    OwnIsForeign(ls[k..], s, t);
  }

  /** A text of space has no sections. */
  lemma SpaceHasNoSection(c: Charset, x: string, t: Search)
    requires Spaceless(c, t) && t.Lawful() && AllSpace(c, x)
    ensures GetSection(x, t).Absent?
  {
    SpaceLines(c, x);
    var ls := Lines.Split(x);
    forall i | 0 <= i < |ls|
      ensures !t.title(ls[i])
    {
      assert AllSpace(c, ls[i]);
    }
    Outline.LocateMeans(ls, t.title, t.heading, 0, 0);
  }

  lemma BlankIsSpace(c: Charset, x: string)
    ensures c.Strip(x) == "" <==> AllSpace(c, x)
    ensures c.Strip(x) == "" <==> c.StripLeft(x) == ""
    ensures c.Strip(x) == "" <==> c.StripRight(x) == ""
  {
    StripSwaps(c, x);
    StripLeftParts(c, x);
    StripRightParts(c, x);
    if c.StripLeft(x) != "" {
      StripRightFirst(c, c.StripLeft(x));
    }
    if c.StripRight(x) == "" {
      assert x[0..] == x;
    }
    if c.StripLeft(x) == "" {
      assert x[..|x|] == x;
    }
    if AllSpace(c, x) {
      StripRightSpace(c, x);
    }
  }

  /** The other section beside a block that ends the document, once its end is stripped. */
  lemma LastKept(c: Charset, body: string, s: Search, t: Search, content: string, blank: string -> bool)
    requires StripsBlank(c, blank) && Spaceless(c, t) && Apart(s, t) && TidyTo(c, Block(s, content), t)
    requires !GetSection(body, s).Duplicate?
    requires Place(body, s).At? ==> Place(body, s).after == |Lines.Split(body)|
    ensures SameUpToEnds(GetSection(body, t), GetSection(Before(body, s, blank) + EndTidy(c, Block(s, content)), t))
  {
    var tb := EndTidy(c, Block(s, content));
    if Place(body, s).At? {
      LastExchanged(body, s, t, tb);
    } else if blank(body) {
      BlankIsSpace(c, body);
      SpaceHasNoSection(c, body, t);
      assert "" + tb == tb;
      Outline.LocateMeans(Lines.Split(tb), t.title, t.heading, 0, 0);
    } else {
      ClosedUp(body);
      Lines.SplitConcat(body + Separator(body), tb);
      AppendedToEnds(body, body + Separator(body) + tb, Lines.Split(tb), t);
    }
  }

  // What the edit leaves to the dump

  /** Stripping the front does not touch the section: the edited one comes first, or the front is as it should be. */
  predicate FrontSafe(c: Charset, body: string, s: Search, t: Search, blank: string -> bool) {
    c.StripLeft(Before(body, s, blank)) != "" ==> FrontKept(c, body, t)
  }

  /** Stripping the end does not touch it: the edited one comes last, or the end is as it should be. */
  predicate EndSafe(c: Charset, body: string, s: Search, t: Search) {
    Behind(body, s) != "" ==> EndKept(c, body, t)
  }

  lemma FrontOfEdited(c: Charset, body: string, s: Search, t: Search, blank: string -> bool, r: string)
    requires c.space('\n') && t.Lawful() && StripsBlank(c, blank) && !GetSection(body, s).Duplicate?
    requires r != "" && !c.space(r[0])
    ensures FrontKept(c, Before(body, s, blank) + r, t) <==> FrontSafe(c, body, s, t, blank)
  {
    var a := Before(body, s, blank);
    EditedText(body, s, "", blank);
    if c.StripLeft(a) == "" {
      FrontOfSpace(c, a, r, t);
    } else {
      FrontShared(c, a, r, t);
      if Place(body, s).At? {
        SectionSplits(body, s);
        FrontShared(c, a, Lines.Flat(Lines.Split(body)[Place(body, s).first..]), t);
      } else {
        FrontClosed(c, body, t);
      }
    }
  }

  /** What follows the section starts with a heading, so it is not all space. */
  lemma BehindIsVisible(c: Charset, body: string, s: Search, t: Search)
    requires Spaceless(c, t) && Apart(s, t) && Behind(body, s) != ""
    ensures Place(body, s).At? && Place(body, s).after < |Lines.Split(body)| && c.StripRight(Behind(body, s)) != ""
  {
    var ls, p := Lines.Split(body), Place(body, s);
    Outline.LocatedSplit(ls, s.title, s.heading);
    if c.StripRight(Behind(body, s)) == "" {
      BlankIsSpace(c, Behind(body, s));
      LineOfSpace(c, ls, p.after);
    }
  }

  lemma {:induction false} LineOfSpace(c: Charset, ls: seq<string>, k: nat)
    requires k < |ls| && AllSpace(c, Lines.Flat(ls[k..]))
    ensures AllSpace(c, ls[k])
  {
    var rest := ls[k..];
    assert Lines.Flat(rest) == rest[0] + Lines.Flat(rest[1..]);
    assert forall i :: 0 <= i < |ls[k]| ==> ls[k][i] == Lines.Flat(rest)[i];
  }

  lemma EndOfEdited(c: Charset, body: string, s: Search, t: Search, content: string, blank: string -> bool)
    requires Blanks(c) && Spaceless(c, t) && Apart(s, t) && Plain(content, s) && Behind(body, s) != ""
    ensures Place(body, s).At?
    ensures EndKept(c, Before(body, s, blank) + (Block(s, content) + Behind(body, s)), t) <==> EndKept(c, body, t)
  {
    var ls, p, block := Lines.Split(body), Place(body, s), Lines.Split(Block(s, content));
    BehindIsVisible(c, body, s, t);
    var a, b, z := Before(body, s, blank), Block(s, content), Behind(body, s);
    SplitAtLine(body, p.after);
    HeadLines(body, s, content, blank);
    EditedText(body, s, content, blank);
    ReplacedKeeps(body, s, content, t, blank);
    Lines.Associative(a, b, z);
    EndShared(c, Lines.Flat(ls[..p.after]), a + b, z, t, p.first, |block| - (p.after - p.first));
  }

  /** The lines up to the end of the section, before and after the edit. */
  lemma HeadLines(body: string, s: Search, content: string, blank: string -> bool)
    requires s.Lawful() && Plain(content, s)
    requires Place(body, s).At? && Place(body, s).after < |Lines.Split(body)|
    ensures var ls, p := Lines.Split(body), Place(body, s);
      var u, u' := Lines.Flat(ls[..p.after]), Before(body, s, blank) + Block(s, content);
      && Lines.Closed(u) && |Lines.Split(u)| == p.after
      && Lines.Closed(u') && |Lines.Split(u')| == p.first + |Lines.Split(Block(s, content))| > p.first
  {
    FirstLinesClosed(body, Place(body, s).first);
    FirstLinesClosed(body, Place(body, s).after);
    BlockLines(s, content);
    Lines.SplitConcat(Before(body, s, blank), Block(s, content));
  }

  // The other section

  lemma SameTransitive(x: Lookup, y: Lookup, z: Lookup)
    requires SameUpToEnds(x, y)
    ensures SameUpToEnds(y, x)
    ensures SameUpToEnds(x, z) <==> SameUpToEnds(y, z)
  {
  }

  /**
    An edit of one section, dumped and parsed again, keeps another one if neither end of the document
    is touched for it. Unless both ends are touched, it keeps it only then.
  */
  lemma NeighbourKept(c: Charset, body: string, s: Search, t: Search, content: string, blank: string -> bool)
    requires Blanks(c) && StripsBlank(c, blank) && Spaceless(c, t)
    requires Apart(s, t) && Plain(content, s) && TidyTo(c, Block(s, content), t)
    requires !GetSection(body, s).Duplicate?
    ensures ReplaceSection(body, s, content, blank).Some?
    ensures var after := GetSection(Tidy(c, ReplaceSection(body, s, content, blank).value), t);
      var front, end := FrontSafe(c, body, s, t, blank), EndSafe(c, body, s, t);
      && (front && end ==> SameUpToEnds(GetSection(body, t), after))
      && (front != end && !GetSection(body, t).Duplicate? ==> !SameUpToEnds(GetSection(body, t), after))
  {
    EditedText(body, s, content, blank);
    if Behind(body, s) == "" {
      LastNeighbour(c, body, s, t, content, blank);
    } else {
      EarlierNeighbour(c, body, s, t, content, blank);
    }
  }

  lemma LastNeighbour(c: Charset, body: string, s: Search, t: Search, content: string, blank: string -> bool)
    requires Blanks(c) && StripsBlank(c, blank) && Spaceless(c, t)
    requires Apart(s, t) && Plain(content, s) && TidyTo(c, Block(s, content), t)
    requires !GetSection(body, s).Duplicate? && Behind(body, s) == ""
    ensures var after := GetSection(Tidy(c, Before(body, s, blank) + (Block(s, content) + "")), t);
      var front := FrontSafe(c, body, s, t, blank);
      && (front ==> SameUpToEnds(GetSection(body, t), after))
      && (!front && !GetSection(body, t).Duplicate? ==> !SameUpToEnds(GetSection(body, t), after))
  {
    var a, b := Before(body, s, blank), Block(s, content);
    var y := a + EndTidy(c, b);
    NothingBehind(body, s);
    LastKept(c, body, s, t, content, blank);
    StripRightKeeps(c, a, b);
    StripRightFirst(c, b);
    assert b + "" == b && EndTidy(c, a + b) == y;
    TidyIs(c, a + b);
    FrontOfEdited(c, body, s, t, blank, EndTidy(c, b));
    FrontKeepsIff(c, y, t);
    SameTransitive(GetSection(body, t), GetSection(y, t), GetSection(c.StripLeft(y), t));
  }

  lemma NothingBehind(body: string, s: Search)
    requires Behind(body, s) == ""
    ensures Place(body, s).At? ==> Place(body, s).after == |Lines.Split(body)|
  {
    Lines.SplitLines(body);
  }

  lemma EarlierNeighbour(c: Charset, body: string, s: Search, t: Search, content: string, blank: string -> bool)
    requires Blanks(c) && StripsBlank(c, blank) && Spaceless(c, t)
    requires Apart(s, t) && Plain(content, s) && TidyTo(c, Block(s, content), t)
    requires !GetSection(body, s).Duplicate? && Behind(body, s) != ""
    ensures var after := GetSection(Tidy(c, Before(body, s, blank) + (Block(s, content) + Behind(body, s))), t);
      var front, end := FrontSafe(c, body, s, t, blank), EndKept(c, body, t);
      && (front && end ==> SameUpToEnds(GetSection(body, t), after))
      && (front != end && !GetSection(body, t).Duplicate? ==> !SameUpToEnds(GetSection(body, t), after))
  {
    var a, b, z := Before(body, s, blank), Block(s, content), Behind(body, s);
    var e := a + (b + z);
    BehindIsVisible(c, body, s, t);
    EditedText(body, s, content, blank);
    OthersUnchanged(body, s, content, t, blank);
    EndOfEdited(c, body, s, t, content, blank);
    EndOfBlock(c, a, b, z);
    var y := a + (b + EndTidy(c, z));
    FrontOfEdited(c, body, s, t, blank, b + EndTidy(c, z));
    TidyIs(c, e);
    TwoStrips(c, body, e, y, t, FrontSafe(c, body, s, t, blank), EndKept(c, body, t));
  }

  lemma EndOfBlock(c: Charset, a: string, b: string, z: string)
    requires c.StripRight(z) != ""
    ensures c.StripRight(a + (b + z)) != "" && EndTidy(c, a + (b + z)) == a + (b + EndTidy(c, z))
  {
    StripRightKeeps(c, b, z);
    StripRightKeeps(c, a, b + z);
  }

  /** The end is stripped, then the front. */
  lemma TwoStrips(c: Charset, body: string, e: string, y: string, t: Search, front: bool, end: bool)
    requires Blanks(c) && Spaceless(c, t) && t.Lawful() && c.StripRight(e) != "" && y == EndTidy(c, e)
    requires c.StripLeft(y) != "" && SameUpToEnds(GetSection(body, t), GetSection(e, t))
    requires front == FrontKept(c, y, t) && end == EndKept(c, e, t)
    ensures front && end ==> SameUpToEnds(GetSection(body, t), GetSection(c.StripLeft(y), t))
    ensures front != end && !GetSection(body, t).Duplicate? ==>
      !SameUpToEnds(GetSection(body, t), GetSection(c.StripLeft(y), t))
  {
    var x0, x1, x2, x3 := GetSection(body, t), GetSection(e, t), GetSection(y, t), GetSection(c.StripLeft(y), t);
    EndKeepsIff(c, e, t);
    FrontKeepsIff(c, y, t);
    SameTransitive(x0, x1, x2);
    SameTransitive(x0, x1, x3);
    if end {
      SameTransitive(x1, x2, x3);
    }
    if front {
      SameTransitive(x2, x3, x1);
    }
  }

  // Bodies in dumped form

  /** A body as `parse` reads it back: trimmed text and a newline. */
  predicate Stored(c: Charset, body: string) {
    body != "" && body[|body| - 1] == '\n' && c.Trimmed(body[..|body| - 1])
  }

  lemma TidyIsStored(c: Charset, body: string)
    ensures Stored(c, Tidy(c, body))
  {
    StripIsTrimmed(c, body);
    assert Tidy(c, body)[..|Tidy(c, body)| - 1] == c.Strip(body);
  }

  /** Dumped once, a body is touched at neither end by a dump. */
  lemma StoredIsKept(c: Charset, body: string, t: Search)
    requires Blanks(c) && Spaceless(c, t) && t.Lawful() && Stored(c, body)
    ensures FrontKept(c, body, t) && EndKept(c, body, t)
  {
    if |body| == 1 {
      assert body == "\n";
      BlankIsSpace(c, body);
      FrontBlank(c, body, t);
    } else {
      assert body == "" + ("" + body) && !c.space(body[0]);
      FrontIsKept(c, body, "", "", body, t);
      assert "" + Lines.Split(body)[0] == Lines.Split(body)[0];
      StoredEnd(c, body, t);
    }
  }

  lemma StoredEnd(c: Charset, body: string, t: Search)
    requires Blanks(c) && Spaceless(c, t) && t.Lawful() && Stored(c, body) && |body| > 1
    ensures EndKept(c, body, t)
  {
    var v := body[..|body| - 1];
    var k := Lines.LastBreak(v);
    assert v[|v| - 1] != '\n';
    assert body == v[..k] + (v[k..] + "\n");
    ClosedEndKept(c, v[..k], v[k..], t);
  }
}
