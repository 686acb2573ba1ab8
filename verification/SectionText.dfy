/**
  Reading and replacing one section of a text, for any way of recognising headings: the offsets and
  slices of `_get_section` and `_replace_section`, and the laws that make them a lens.
*/
module SectionText {
  import opened Types
  import Lines
  import Outline

  /** How one section is looked for, and the heading line it is written with. */
  datatype Search = Search(line: string, title: Outline.Test, heading: Outline.Test)
  {
    /** The written line is found again; titles are headings; an empty line and a missing newline do not matter. */
    ghost predicate Lawful() {
      && title(line) && Lines.IsLine(line) && Lines.Closed(line)
      && (forall l :: title(l) ==> heading(l))
      && !heading("\n")
      && (forall l :: l != "" && '\n' !in l ==> heading(l + "\n") == heading(l) && title(l + "\n") == title(l))
    }
  }

  function Locate(ls: seq<string>, s: Search): (p: Outline.Place)
    ensures p.At? ==> p.first < p.after <= |ls|
  {
    Outline.Locate(ls, s.title, s.heading)
  }

  datatype Lookup = Absent | Duplicate | Found(start: nat, end: nat, content: string)

  /** `_get_section`: offsets into the body, and the text between the heading line and the next heading. */
  function GetSection(body: string, s: Search): (r: Lookup)
    ensures r.Found? ==> r.start <= r.end <= |body|
  {
    var ls := Lines.Split(body);
    match Locate(ls, s)
    case Nowhere => Absent
    case Ambiguous => Duplicate
    case At(i, j) =>
      Lines.FlatSplit(body);
      Lines.FlatSlices(ls, i, j);
      Lines.FlatSlices(ls, i + 1, j);
      var begin, end := |Lines.Flat(ls[..i + 1])|, |Lines.Flat(ls[..j])|;
      Found(|Lines.Flat(ls[..i])|, end, body[begin..end])
  }

  function StripNewlines(s: string): string {
    if s != "" && s[0] == '\n' then StripNewlines(s[1..])
    else if s != "" && s[|s| - 1] == '\n' then StripNewlines(s[..|s| - 1])
    else s
  }

  function Block(s: Search, content: string): string {
    s.line + (StripNewlines(content) + "\n")
  }

  function Separator(body: string): string {
    if body != "" && body[|body| - 1] == '\n' then "\n" else "\n\n"
  }

  /** `_replace_section`; `blank` is Python's `not body.strip()`, None its ValueError. */
  function ReplaceSection(body: string, s: Search, content: string, blank: string -> bool): Option<string> {
    match GetSection(body, s)
    case Duplicate => None
    case Absent => Some(if blank(body) then Block(s, content) else body + Separator(body) + Block(s, content))
    case Found(start, end, _) => Some(body[..start] + Block(s, content) + body[end..])
  }

  /** The content has no heading of its own. */
  predicate Plain(content: string, s: Search) {
    Outline.Without(Lines.Split(content), s.heading)
  }

  // What replacing does to the lines

  lemma ClosingKeepsPlain(text: string, s: Search)
    requires s.Lawful()
    ensures Plain(text, s) <==> Plain(text + "\n", s)
  {
    Lines.SplitClosing(text);
    var ls, ls' := Lines.Split(text), Lines.Split(text + "\n");
    forall i | 0 <= i < |ls|
      ensures s.heading(ls'[i]) == s.heading(ls[i])
    {
      if ls'[i] != ls[i] { assert ls'[i] == ls[i] + "\n"; }
    }
    assert |ls'| > |ls| ==> !s.heading(ls'[|ls|]);
  }

  lemma {:induction false} StrippedIsPlain(content: string, s: Search)
    requires s.Lawful() && Plain(content, s)
    ensures Plain(StripNewlines(content) + "\n", s)
    decreases |content|
  {
    if content != "" && content[0] == '\n' {
      var rest := content[1..];
      assert Lines.Split(content) == ["\n"] + Lines.Split(rest);
      assert forall i :: 0 <= i < |Lines.Split(rest)| ==> Lines.Split(rest)[i] == Lines.Split(content)[i + 1];
      StrippedIsPlain(rest, s);
    } else if content != "" && content[|content| - 1] == '\n' {
      var rest := content[..|content| - 1];
      assert content == rest + "\n";
      ClosingKeepsPlain(rest, s);
      StrippedIsPlain(rest, s);
    } else {
      ClosingKeepsPlain(content, s);
    }
  }

  /** The block is its heading line and lines that are no heading. */
  lemma BlockLines(s: Search, content: string)
    requires s.Lawful() && Plain(content, s)
    ensures Lines.Split(Block(s, content)) == [s.line] + Lines.Split(StripNewlines(content) + "\n")
    ensures Outline.Own(Lines.Split(Block(s, content)), s.title, s.heading)
    ensures Lines.Closed(Block(s, content))
  {
    var text := StripNewlines(content) + "\n";
    Lines.SplitLine(s.line);
    Lines.SplitConcat(s.line, text);
    StrippedIsPlain(content, s);
    LineThenPlain(s.line, Lines.Split(text), s);
  }

  lemma LineThenPlain(line: string, mid: seq<string>, s: Search)
    requires s.title(line) && Outline.Without(mid, s.heading)
    ensures Outline.Own([line] + mid, s.title, s.heading)
  {
    assert forall k :: 1 <= k < |[line] + mid| ==> ([line] + mid)[k] == mid[k - 1];
  }

  /** Replacing a section that is there splices the block into the lines. */
  lemma ReplacedLines(body: string, s: Search, content: string, blank: string -> bool)
    requires s.Lawful() && Plain(content, s) && Locate(Lines.Split(body), s).At?
    ensures var p := Locate(Lines.Split(body), s);
      && ReplaceSection(body, s, content, blank).Some?
      && Lines.Split(ReplaceSection(body, s, content, blank).value) ==
           Outline.Splice(Lines.Split(body), p.first, p.after, Lines.Split(Block(s, content)))
  {
    var ls := Lines.Split(body);
    var p := Locate(ls, s);
    Lines.FlatSplit(body);
    Lines.SplitLines(body);
    Lines.FlatSlices(ls, p.first, p.after);
    BlockLines(s, content);
    Lines.SplitThree(ls[..p.first], Block(s, content), ls[p.after..]);
  }

  /** A body closed before a block is appended: the same lines, then empty ones. */
  lemma ClosedUp(body: string)
    ensures var ls, ls' := Lines.Split(body), Lines.Split(body + Separator(body));
      && |ls| < |ls'|
      && (forall i :: 0 <= i < |ls| ==> ls'[i] == ls[i] || (ls[i] != "" && '\n' !in ls[i] && ls'[i] == ls[i] + "\n"))
      && (forall i :: |ls| <= i < |ls'| ==> ls'[i] == "\n")
      && (forall i :: 0 <= i < |ls| - 1 ==> ls'[i] == ls[i])
      && Lines.Closed(body + Separator(body))
  {
    var ls := Lines.Split(body);
    Lines.SplitClosing(body);
    Lines.SplitClosing(body + "\n");
    assert Lines.Split("") == [];
    if !Lines.Closed(body) || body == "" {
      assert body + "\n\n" == (body + "\n") + "\n";
    }
  }

  /** To both tests the closed body reads like the body, then plain lines. */
  lemma ClosedUpReads(body: string, s: Search)
    requires s.Lawful()
    ensures Outline.Closes(Lines.Split(body), Lines.Split(body + Separator(body)), s.title)
    ensures Outline.Closes(Lines.Split(body), Lines.Split(body + Separator(body)), s.heading)
  {
    ClosedUp(body);
  }

  /** The lines around the block that a replacement writes. */
  function Around(body: string, s: Search, blank: string -> bool): (seq<string>, seq<string>) {
    var ls := Lines.Split(body);
    match Locate(ls, s)
    case At(i, j) => (ls[..i], ls[j..])
    case _ => (if blank(body) then [] else Lines.Split(body + Separator(body)), [])
  }

  lemma ReplacedAround(body: string, s: Search, content: string, blank: string -> bool)
    requires s.Lawful() && Plain(content, s) && !GetSection(body, s).Duplicate?
    ensures var (pre, post) := Around(body, s, blank);
      && ReplaceSection(body, s, content, blank).Some?
      && Lines.Split(ReplaceSection(body, s, content, blank).value) == pre + Lines.Split(Block(s, content)) + post
      && Outline.Without(pre, s.title) && Outline.Without(post, s.title) && Outline.StartsSection(post, s.heading)
  {
    var ls := Lines.Split(body);
    if Locate(ls, s).At? {
      ReplacedLines(body, s, content, blank);
      Outline.LocatedSplit(ls, s.title, s.heading);
    } else {
      Outline.LocateMeans(ls, s.title, s.heading, 0, 0);
      ClosedUpReads(body, s);
      Lines.SplitConcat(body + Separator(body), Block(s, content));
    }
  }

  /** A lookup is the place of the section, in characters. */
  function Rendered(ls: seq<string>, p: Outline.Place): Lookup
    requires p.At? ==> p.first < p.after <= |ls|
  {
    match p
    case Nowhere => Absent
    case Ambiguous => Duplicate
    case At(i, j) => Found(|Lines.Flat(ls[..i])|, |Lines.Flat(ls[..j])|, Lines.Flat(ls[i + 1..j]))
  }

  lemma GetIsRendered(body: string, s: Search)
    ensures GetSection(body, s) == Rendered(Lines.Split(body), Locate(Lines.Split(body), s))
  {
    var ls, p := Lines.Split(body), Locate(Lines.Split(body), s);
    if p.At? {
      Lines.FlatSplit(body);
      Lines.FlatSlices(ls, p.first + 1, p.after);
    }
  }

  // The laws of one section

  /** A block between lines that do not have its title is the section. */
  lemma BlockIsSection(b: string, pre: seq<string>, post: seq<string>, s: Search, content: string)
    requires s.Lawful() && Plain(content, s)
    requires Lines.Split(b) == pre + Lines.Split(Block(s, content)) + post
    requires Outline.Without(pre, s.title) && Outline.Without(post, s.title) && Outline.StartsSection(post, s.heading)
    ensures Locate(Lines.Split(b), s) == Outline.At(|pre|, |pre| + |Lines.Split(Block(s, content))|)
    ensures GetSection(b, s).Found? && GetSection(b, s).content == StripNewlines(content) + "\n"
  {
    BlockLines(s, content);
    var text, block := StripNewlines(content) + "\n", Lines.Split(Block(s, content));
    Outline.BlockLocated(pre, block, post, s.title, s.heading);
    GetIsRendered(b, s);
    BlockRendered(pre, s.line, text, post);
  }

  /** Between the heading line and what follows, a section's text is what it was written with. */
  lemma BlockRendered(pre: seq<string>, line: string, text: string, post: seq<string>)
    ensures var block := [line] + Lines.Split(text);
      Lines.Flat((pre + block + post)[|pre| + 1..|pre| + |block|]) == text
  {
    var block := [line] + Lines.Split(text);
    assert (pre + block + post)[|pre| + 1..|pre| + |block|] == Lines.Split(text);
    Lines.FlatSplit(text);
  }

  lemma GetAfterReplace(body: string, s: Search, content: string, blank: string -> bool)
    requires s.Lawful() && Plain(content, s)
    ensures ReplaceSection(body, s, content, blank).None? <==> GetSection(body, s).Duplicate?
    ensures var after := ReplaceSection(body, s, content, blank);
      after.Some? ==>
        && GetSection(after.value, s).Found?
        && GetSection(after.value, s).content == StripNewlines(content) + "\n"
  {
    if !GetSection(body, s).Duplicate? {
      var (pre, post) := Around(body, s, blank);
      ReplacedAround(body, s, content, blank);
      BlockIsSection(ReplaceSection(body, s, content, blank).value, pre, post, s, content);
    }
  }

  lemma SameLines(a: string, b: string)
    requires Lines.Split(a) == Lines.Split(b)
    ensures a == b
  {
    Lines.FlatSplit(a);
    Lines.FlatSplit(b);
  }

  lemma ReplaceTwice(body: string, s: Search, first: string, second: string, blank: string -> bool)
    requires s.Lawful() && Plain(first, s) && Plain(second, s)
    ensures var once := ReplaceSection(body, s, first, blank);
      once.Some? ==> ReplaceSection(once.value, s, second, blank) == ReplaceSection(body, s, second, blank)
  {
    if !GetSection(body, s).Duplicate? {
      var (pre, post) := Around(body, s, blank);
      ReplacedAround(body, s, first, blank);
      ReplacedAround(body, s, second, blank);
      var once := ReplaceSection(body, s, first, blank).value;
      BlockIsSection(once, pre, post, s, first);
      ReplacedLines(once, s, second, blank);
      var block := Lines.Split(Block(s, first));
      Lines.Associative(pre, block, post);
      assert Lines.Split(once)[..|pre|] == pre;
      assert Lines.Split(once)[|pre| + |block|..] == post;
      SameLines(ReplaceSection(once, s, second, blank).value, ReplaceSection(body, s, second, blank).value);
    }
  }

  // The laws of two sections

  /** No line is the title of both, and both see the same headings. */
  ghost predicate Apart(s: Search, t: Search) {
    && s.Lawful() && t.Lawful()
    && (forall l :: s.heading(l) == t.heading(l))
    && (forall l :: !(s.title(l) && t.title(l)))
  }

  lemma OwnIsForeign(block: seq<string>, s: Search, t: Search)
    requires Apart(s, t) && Outline.Own(block, s.title, s.heading)
    ensures Outline.Foreign(block, t.title, t.heading)
  {
  }

  /** Replacing a section that is there, seen by the search for another. */
  lemma ReplacedKeeps(body: string, s: Search, content: string, t: Search, blank: string -> bool)
    requires Apart(s, t) && Plain(content, s) && Locate(Lines.Split(body), s).At?
    ensures var ls, p, block := Lines.Split(body), Locate(Lines.Split(body), s), Lines.Split(Block(s, content));
      && ReplaceSection(body, s, content, blank).Some?
      && var ls' := Lines.Split(ReplaceSection(body, s, content, blank).value);
         && ls' == Outline.Splice(ls, p.first, p.after, block)
         && Outline.Kept(ls, ls', t.title, t.heading, p.first, p.after, |block| - (p.after - p.first))
  {
    ReplacedLines(body, s, content, blank);
    var ls, p, block := Lines.Split(body), Locate(Lines.Split(body), s), Lines.Split(Block(s, content));
    BothForeign(ls, s, content, t);
    Outline.OtherKept(ls, p.first, p.after, block, t.title, t.heading);
  }

  /** The old section and the new block are sections of another title to t. */
  lemma BothForeign(ls: seq<string>, s: Search, content: string, t: Search)
    requires Apart(s, t) && Plain(content, s) && Locate(ls, s).At?
    ensures Outline.Foreign(ls[Locate(ls, s).first..Locate(ls, s).after], t.title, t.heading)
    ensures Outline.Foreign(Lines.Split(Block(s, content)), t.title, t.heading)
  {
    var p := Locate(ls, s);
    Outline.LocatedSplit(ls, s.title, s.heading);
    BlockLines(s, content);
    OwnIsForeign(ls[p.first..p.after], s, t);
    OwnIsForeign(Lines.Split(Block(s, content)), s, t);
  }

  /** Two lookups agree on whether the section is there, and on its content. */
  predicate SameContent(a: Lookup, b: Lookup) {
    match a
    case Absent => b.Absent?
    case Duplicate => b.Duplicate?
    case Found(_, _, text) => b.Found? && b.content == text
  }

  lemma OthersUnchanged(body: string, s: Search, content: string, t: Search, blank: string -> bool)
    requires Apart(s, t) && Plain(content, s) && GetSection(body, s).Found?
    ensures ReplaceSection(body, s, content, blank).Some?
    ensures SameContent(GetSection(body, t), GetSection(ReplaceSection(body, s, content, blank).value, t))
  {
    var after := ReplaceSection(body, s, content, blank).value;
    var p := Locate(Lines.Split(body), s);
    ReplacedKeeps(body, s, content, t, blank);
    KeptLookups(body, after, t, p.first, p.after, |Lines.Split(Block(s, content))| - (p.after - p.first));
  }

  lemma KeptLookups(x: string, y: string, t: Search, i: nat, j: nat, d: int)
    requires Outline.Kept(Lines.Split(x), Lines.Split(y), t.title, t.heading, i, j, d)
    ensures SameContent(GetSection(x, t), GetSection(y, t))
  {
    KeptRenders(Lines.Split(x), Lines.Split(y), t, i, j, d);
    GetIsRendered(x, t);
    GetIsRendered(y, t);
  }

  lemma KeptRenders(ls: seq<string>, ls': seq<string>, t: Search, i: nat, j: nat, d: int)
    requires Outline.Kept(ls, ls', t.title, t.heading, i, j, d)
    ensures SameContent(Rendered(ls, Locate(ls, t)), Rendered(ls', Locate(ls', t)))
  {
  }

  /** Where the other section is once a block was spliced in. */
  lemma PlaceAfterSplice(ls: seq<string>, s: Search, content: string, t: Search, i: nat, j: nat, a: nat, z: nat)
    requires Apart(s, t) && Plain(content, s)
    requires Locate(ls, s) == Outline.At(i, j) && Locate(ls, t) == Outline.At(a, z)
    ensures i < j <= |ls| && (z <= i || j <= a)
    ensures var block := Lines.Split(Block(s, content));
      var d := if z <= i then 0 else |block| - (j - i);
      0 <= a + d && Locate(Outline.Splice(ls, i, j, block), t) == Outline.At(a + d, z + d)
  {
    var block := Lines.Split(Block(s, content));
    BothForeign(ls, s, content, t);
    Outline.OtherPlace(ls, i, j, block, t.title, t.heading);
  }

  lemma SplicedAt(b: string, ls: seq<string>, s: Search, content: string, i: nat, j: nat, blank: string -> bool)
    requires s.Lawful() && Plain(content, s) && Lines.Split(b) == ls && Locate(ls, s) == Outline.At(i, j)
    ensures ReplaceSection(b, s, content, blank).Some?
    ensures i < j <= |ls|
    ensures Lines.Split(ReplaceSection(b, s, content, blank).value) ==
      Outline.Splice(ls, i, j, Lines.Split(Block(s, content)))
  {
    ReplacedLines(b, s, content, blank);
  }

  /** What replacing s and then t leaves, None if either refuses. */
  function Both(body: string, s: Search, c: string, t: Search, e: string, blank: string -> bool): Option<string> {
    var one := ReplaceSection(body, s, c, blank);
    if one.None? then None else ReplaceSection(one.value, t, e, blank)
  }

  /** Two replacements on lines, in the order they are made; the second section starts at a' by then. */
  lemma TwoSplices(body: string, s: Search, c: string, t: Search, e: string, blank: string -> bool,
                   i: nat, j: nat, a: nat, z: nat, a': int, z': int)
    requires Apart(s, t) && Plain(c, s) && Plain(e, t)
    requires Locate(Lines.Split(body), s) == Outline.At(i, j) && Locate(Lines.Split(body), t) == Outline.At(a, z)
    requires var d := if z <= i then 0 else |Lines.Split(Block(s, c))| - (j - i); a' == a + d && z' == z + d
    ensures i < j <= |Lines.Split(body)|
    ensures 0 <= a' < z' <= |Outline.Splice(Lines.Split(body), i, j, Lines.Split(Block(s, c)))|
    ensures Both(body, s, c, t, e, blank).Some?
    ensures Lines.Split(Both(body, s, c, t, e, blank).value) ==
      Outline.Splice(Outline.Splice(Lines.Split(body), i, j, Lines.Split(Block(s, c))), a', z',
        Lines.Split(Block(t, e)))
  {
    var ls := Outline.Splice(Lines.Split(body), i, j, Lines.Split(Block(s, c)));
    PlaceAfterSplice(Lines.Split(body), s, c, t, i, j, a, z);
    SplicedAt(body, Lines.Split(body), s, c, i, j, blank);
    SplicedAt(ReplaceSection(body, s, c, blank).value, ls, t, e, a', z', blank);
  }

  lemma SameSplices(ls: seq<string>, i: nat, j: nat, bs: seq<string>, a: nat, z: nat, bt: seq<string>,
                    a': nat, z': nat, x: string, y: string)
    requires i < j <= a < z <= |ls| && a' - a == z' - z == |bs| - (j - i)
    requires a' < z' <= |Outline.Splice(ls, i, j, bs)| && j <= |Outline.Splice(ls, a, z, bt)|
    requires Lines.Split(x) == Outline.Splice(Outline.Splice(ls, i, j, bs), a', z', bt)
    requires Lines.Split(y) == Outline.Splice(Outline.Splice(ls, a, z, bt), i, j, bs)
    ensures x == y
  {
    Outline.SpliceCommutes(ls, i, j, bs, a, z, bt, a', z');
    SameLines(x, y);
  }

  lemma CommuteOrdered(body: string, s: Search, c: string, t: Search, e: string, blank: string -> bool,
                       i: nat, j: nat, a: nat, z: nat)
    requires Apart(s, t) && Apart(t, s) && Plain(c, s) && Plain(e, t) && i < j <= a < z
    requires Locate(Lines.Split(body), s) == Outline.At(i, j) && Locate(Lines.Split(body), t) == Outline.At(a, z)
    ensures Both(body, s, c, t, e, blank).Some? && Both(body, s, c, t, e, blank) == Both(body, t, e, s, c, blank)
  {
    var bs, bt := Lines.Split(Block(s, c)), Lines.Split(Block(t, e));
    var a', z' := a + |bs| - (j - i), z + |bs| - (j - i);
    TwoSplices(body, s, c, t, e, blank, i, j, a, z, a', z');
    TwoSplices(body, t, e, s, c, blank, a, z, i, j, i, j);
    SameSplices(Lines.Split(body), i, j, bs, a, z, bt, a', z',
                Both(body, s, c, t, e, blank).value, Both(body, t, e, s, c, blank).value);
  }

  lemma ReplacesCommute(body: string, s: Search, c: string, t: Search, e: string, blank: string -> bool)
    requires Apart(s, t) && Plain(c, s) && Plain(e, t)
    requires GetSection(body, s).Found? && GetSection(body, t).Found?
    ensures Both(body, s, c, t, e, blank).Some? && Both(body, s, c, t, e, blank) == Both(body, t, e, s, c, blank)
  {
    var p, q := Locate(Lines.Split(body), s), Locate(Lines.Split(body), t);
    PlaceAfterSplice(Lines.Split(body), s, c, t, p.first, p.after, q.first, q.after);
    if p.after <= q.first {
      CommuteOrdered(body, s, c, t, e, blank, p.first, p.after, q.first, q.after);
    } else {
      CommuteOrdered(body, t, e, s, c, blank, q.first, q.after, p.first, p.after);
    }
  }

  // Appending a section

  /** `_section_eq`: an absent section is not an empty one; trailing line ends do not matter. */
  function StripEnds(s: string): string {
    if s != "" && (s[|s| - 1] == '\n' || s[|s| - 1] == '\r') then StripEnds(s[..|s| - 1]) else s
  }

  predicate SectionEq(a: Option<string>, b: Option<string>) {
    match (a, b)
    case (None, None) => true
    case (Some(x), Some(y)) => StripEnds(x) == StripEnds(y)
    case _ => false
  }

  lemma {:induction false} StripEndsPadded(c: string, w: string)
    requires forall i :: 0 <= i < |w| ==> w[i] == '\n'
    ensures StripEnds(c + w) == StripEnds(c)
  {
    if w == "" {
      assert c + w == c;
    } else {
      assert (c + w)[..|c + w| - 1] == c + w[..|w| - 1];
      StripEndsPadded(c, w[..|w| - 1]);
    }
  }

  lemma {:induction false} FlatNewlines(ls: seq<string>)
    requires forall i :: 0 <= i < |ls| ==> ls[i] == "\n"
    ensures forall i :: 0 <= i < |Lines.Flat(ls)| ==> Lines.Flat(ls)[i] == '\n'
  {
    if ls != [] {
      FlatNewlines(ls[1..]);
    }
  }

  /** The last section's text once the body is closed: the same up to trailing newlines. */
  lemma ClosedTail(body: string, k: nat)
    requires k <= |Lines.Split(body)|
    ensures k <= |Lines.Split(body + Separator(body))|
    ensures StripEnds(Lines.Flat(Lines.Split(body + Separator(body))[k..])) ==
      StripEnds(Lines.Flat(Lines.Split(body)[k..]))
  {
    var ls, closed := Lines.Split(body), Lines.Split(body + Separator(body));
    ClosedUp(body);
    if k == |ls| {
      FlatNewlines(closed[k..]);
      StripEndsPadded("", Lines.Flat(closed[k..]));
      assert "" + Lines.Flat(closed[k..]) == Lines.Flat(closed[k..]);
    } else {
      assert closed[..k] == ls[..k];
      TextTail(body, k);
      TextTail(body + Separator(body), k);
      var n := |Lines.Flat(ls[..k])|;
      assert (body + Separator(body))[n..] == body[n..] + Separator(body);
      StripEndsPadded(body[n..], Separator(body));
    }
  }

  lemma TextTail(body: string, k: nat)
    requires k <= |Lines.Split(body)|
    ensures var n := |Lines.Flat(Lines.Split(body)[..k])|;
      n <= |body| && Lines.Flat(Lines.Split(body)[k..]) == body[n..]
  {
    Lines.FlatSplit(body);
    Lines.FlatSlices(Lines.Split(body), k, k);
  }

  /** Two lookups agree up to trailing line ends. */
  predicate SameUpToEnds(a: Lookup, b: Lookup) {
    match a
    case Absent => b.Absent?
    case Duplicate => b.Duplicate?
    case Found(_, _, text) => b.Found? && StripEnds(b.content) == StripEnds(text)
  }

  lemma RenderedAppend(body: string, block: seq<string>, p: Outline.Place, p': Outline.Place)
    requires var ls, closed := Lines.Split(body), Lines.Split(body + Separator(body));
      && (p.At? ==> p.first < p.after <= |ls|)
      && (p.Nowhere? ==> p'.Nowhere?) && (p.Ambiguous? ==> p'.Ambiguous?)
      && (p.At? ==> p' == Outline.At(p.first, if p.after < |ls| then p.after else |closed|))
    requires var closed := Lines.Split(body + Separator(body)); p'.At? ==> p'.first < p'.after <= |closed + block|
    ensures SameUpToEnds(Rendered(Lines.Split(body), p), Rendered(Lines.Split(body + Separator(body)) + block, p'))
  {
    if p.At? {
      var ls, closed := Lines.Split(body), Lines.Split(body + Separator(body));
      ClosedUp(body);
      if p.after < |ls| {
        assert (closed + block)[p.first + 1..p.after] == ls[p.first + 1..p.after];
      } else {
        ClosedTail(body, p.first + 1);
        assert (closed + block)[p.first + 1..|closed|] == closed[p.first + 1..];
        assert ls[p.first + 1..p.after] == ls[p.first + 1..];
      }
    }
  }

  /** Lines appended to a closed body: they start with a heading, and t's title is not among them. */
  lemma AppendedToEnds(body: string, after: string, tail: seq<string>, t: Search)
    requires t.Lawful() && tail != [] && t.heading(tail[0]) && Outline.Without(tail, t.title)
    requires Lines.Split(after) == Lines.Split(body + Separator(body)) + tail
    ensures SameUpToEnds(GetSection(body, t), GetSection(after, t))
  {
    var ls, closed := Lines.Split(body), Lines.Split(body + Separator(body));
    ClosedUpReads(body, t);
    Outline.AppendedKept(ls, closed, tail, t.title, t.heading);
    ClosedUp(body);
    GetIsRendered(body, t);
    GetIsRendered(after, t);
    RenderedAppend(body, tail, Locate(ls, t), Locate(closed + tail, t));
  }

  lemma OthersAfterAppend(body: string, s: Search, content: string, t: Search, blank: string -> bool)
    requires Apart(s, t) && Plain(content, s) && GetSection(body, s).Absent? && !blank(body)
    ensures ReplaceSection(body, s, content, blank).Some?
    ensures SameUpToEnds(GetSection(body, t), GetSection(ReplaceSection(body, s, content, blank).value, t))
  {
    var block := Lines.Split(Block(s, content));
    BlockLines(s, content);
    OwnIsForeign(block, s, t);
    ClosedUp(body);
    Lines.SplitConcat(body + Separator(body), Block(s, content));
    AppendedToEnds(body, ReplaceSection(body, s, content, blank).value, block, t);
  }

  /** The last lines exchanged for others, neither with t's title in them. */
  lemma TailExchanged(x: string, y: string, pre: seq<string>, sec: seq<string>, tail: seq<string>, t: Search)
    requires t.Lawful() && Lines.Split(x) == pre + sec && Lines.Split(y) == pre + tail
    requires sec != [] && t.heading(sec[0]) && Outline.Without(sec, t.title)
    requires tail != [] && t.heading(tail[0]) && Outline.Without(tail, t.title)
    ensures SameContent(GetSection(x, t), GetSection(y, t))
  {
    Outline.AppendedKept(pre, pre, sec, t.title, t.heading);
    Outline.AppendedKept(pre, pre, tail, t.title, t.heading);
    GetIsRendered(x, t);
    GetIsRendered(y, t);
    RenderedTails(pre, sec, tail, Locate(pre + sec, t), Locate(pre + tail, t));
  }

  lemma RenderedTails(pre: seq<string>, sec: seq<string>, tail: seq<string>, p: Outline.Place, q: Outline.Place)
    requires p == q && (p.At? ==> p.first < p.after <= |pre|)
    ensures SameContent(Rendered(pre + sec, p), Rendered(pre + tail, q))
  {
    if p.At? {
      assert (pre + sec)[p.first + 1..p.after] == pre[p.first + 1..p.after] == (pre + tail)[p.first + 1..p.after];
    }
  }

  /** If the line written for t is also a title of s, replacing t beside s leaves two titles of s. */
  lemma SharedTitleDuplicates(l: string, s: Search, t: Search, content: string, blank: string -> bool)
    requires t.Lawful() && Plain(content, t) && !blank(l)
    requires Lines.IsLine(l) && Lines.Closed(l) && s.title(l) && !t.title(l) && s.title(t.line)
    ensures GetSection(l, s).Found? && GetSection(l, t).Absent?
    ensures ReplaceSection(l, t, content, blank).Some?
    ensures GetSection(ReplaceSection(l, t, content, blank).value, s).Duplicate?
  {
    Lines.SplitLine(l);
    Outline.LocateMeans([l], s.title, s.heading, 0, 1);
    Outline.LocateMeans([l], t.title, t.heading, 0, 0);
    var after := ReplaceSection(l, t, content, blank).value;
    BlockLines(t, content);
    ClosedUp(l);
    Lines.SplitConcat(l + Separator(l), Block(t, content));
    Lines.SplitConcat(l, Separator(l));
    Lines.SplitLine("\n");
    var ls := Lines.Split(after);
    assert ls[0] == l && ls[2] == t.line;
    assert Outline.Two(ls, s.title);
    Outline.LocateMeans(ls, s.title, s.heading, 0, 0);
  }
}
