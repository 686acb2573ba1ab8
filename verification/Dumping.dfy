/**
  What dumping does to a text, seen by the search for one section: stripping it on both sides can move
  where a heading begins or ends, and what the last section holds.
*/
module Dumping {
  import Lines
  import Outline
  import opened FrontMatter
  import opened SectionText
  import opened SessionJournal

  /** What Python strips: at least the blanks the patterns trim, and line ends. */
  predicate Blanks(c: Charset) {
    c.space(' ') && c.space('\t') && c.space('\n') && c.space('\r')
  }

  // Stripping

  /** Stripping on the right does not see what stripping on the left took. */
  lemma {:induction false} StripSwaps(c: Charset, s: string)
    ensures c.StripRight(c.StripLeft(s)) == c.StripLeft(c.StripRight(s))
    decreases |s|
  {
    if s != "" && c.space(s[0]) {
      StripSwaps(c, s[1..]);
      assert [s[0]] + s[1..] == s && [s[0]][..0] == "";
      if c.StripRight(s[1..]) == "" {
        StripAllRight(c, [s[0]], s[1..]);
      } else {
        StripRightKeeps(c, [s[0]], s[1..]);
        assert c.StripRight(s)[1..] == c.StripRight(s[1..]);
      }
    } else if s != "" {
      StripRightFirst(c, s);
    }
  }

  lemma {:induction false} StripAllRight(c: Charset, a: string, b: string)
    requires c.StripRight(b) == ""
    ensures c.StripRight(a + b) == c.StripRight(a)
  {
    if b == "" {
      assert a + b == a;
    } else {
      assert c.space(b[|b| - 1]);
      assert (a + b)[..|a + b| - 1] == a + b[..|b| - 1];
      StripAllRight(c, a, b[..|b| - 1]);
    }
  }

  lemma {:induction false} StripRightFirst(c: Charset, s: string)
    requires s != "" && !c.space(s[0])
    ensures c.StripRight(s) != "" && c.StripRight(s)[0] == s[0]
  {
    if c.space(s[|s| - 1]) {
      StripRightFirst(c, s[..|s| - 1]);
    }
  }

  lemma {:induction false} StripRightTwice(c: Charset, s: string)
    ensures c.StripRight(c.StripRight(s)) == c.StripRight(s)
  {
    if s != "" && c.space(s[|s| - 1]) {
      StripRightTwice(c, s[..|s| - 1]);
    }
  }

  predicate AllSpace(c: Charset, s: string) {
    forall i :: 0 <= i < |s| ==> c.space(s[i])
  }

  /** What is stripped is space, and what is left starts or ends visibly. */
  lemma {:induction false} StripLeftParts(c: Charset, s: string)
    ensures |c.StripLeft(s)| <= |s| && s == s[..|s| - |c.StripLeft(s)|] + c.StripLeft(s)
    ensures AllSpace(c, s[..|s| - |c.StripLeft(s)|])
    ensures c.StripLeft(s) != "" ==> !c.space(c.StripLeft(s)[0])
  {
    if s != "" && c.space(s[0]) {
      var rest, n := s[1..], |s| - |c.StripLeft(s)|;
      StripLeftParts(c, rest);
      assert s == [s[0]] + rest && s[..n] == [s[0]] + rest[..n - 1];
    }
  }

  lemma {:induction false} StripRightParts(c: Charset, s: string)
    ensures c.StripRight(s) <= s && AllSpace(c, s[|c.StripRight(s)|..])
    ensures c.StripRight(s) != "" ==> !c.space(c.StripRight(s)[|c.StripRight(s)| - 1])
  {
    if s != "" && c.space(s[|s| - 1]) {
      var init, r := s[..|s| - 1], c.StripRight(s);
      StripRightParts(c, init);
      assert r <= init && s[|r|..] == init[|r|..] + [s[|s| - 1]];
    }
  }

  lemma {:induction false} StripRightSpace(c: Charset, s: string)
    requires AllSpace(c, s)
    ensures c.StripRight(s) == ""
  {
    if s != "" {
      StripRightSpace(c, s[..|s| - 1]);
    }
  }

  lemma {:induction false} StripLeftSpace(c: Charset, a: string, b: string)
    requires AllSpace(c, a)
    ensures c.StripLeft(a + b) == c.StripLeft(b)
  {
    if a == "" {
      assert a + b == b;
    } else {
      assert (a + b)[1..] == a[1..] + b;
      StripLeftSpace(c, a[1..], b);
    }
  }

  /** Space after a visible end is what is stripped. */
  lemma StripRightAt(c: Charset, v: string, w: string)
    requires AllSpace(c, w) && (v != "" ==> !c.space(v[|v| - 1]))
    ensures c.StripRight(v + w) == v
  {
    StripRightSpace(c, w);
    StripAllRight(c, v, w);
  }

  // The end of a text

  /** Where the last visible line begins. */
  function LastLine(c: Charset, x: string): nat {
    Lines.LastBreak(c.StripRight(x))
  }

  /** The text without the space at its end, closed. */
  function EndTidy(c: Charset, x: string): string {
    c.StripRight(x) + "\n"
  }

  /** The parts of a text that is not blank: lines, the last visible line, and the space after it. */
  lemma EndParts(c: Charset, x: string)
    requires Blanks(c) && c.StripRight(x) != ""
    ensures var r, k := c.StripRight(x), LastLine(c, x);
      && k < |r| <= |x| && r == x[..|r|]
      && x == x[..k] + (r[k..] + x[|r|..]) && EndTidy(c, x) == x[..k] + (r[k..] + "\n")
      && x[k..] == r[k..] + x[|r|..]
      && Lines.Closed(x[..k]) && '\n' !in r[k..] && !c.space(r[|r| - 1]) && AllSpace(c, x[|r|..])
  {
    StripRightParts(c, x);
    var r, k := c.StripRight(x), LastLine(c, x);
    assert r[..k] == x[..k];
    assert !Lines.Closed(r) && k <= |r| - 1;
    Rejoin(x, r, k);
  }

  lemma Rejoin(x: string, r: string, k: nat)
    requires r <= x && k <= |r|
    ensures x == x[..k] + (r[k..] + x[|r|..]) && r + "\n" == x[..k] + (r[k..] + "\n") && x[k..] == r[k..] + x[|r|..]
  {
  }

  /** The lines of space are space. */
  lemma {:induction false} SpaceLines(c: Charset, w: string)
    requires AllSpace(c, w)
    ensures forall i :: 0 <= i < |Lines.Split(w)| ==> AllSpace(c, Lines.Split(w)[i])
  {
    if w != "" {
      SpaceLines(c, w[1..]);
      var ls, rest := Lines.Split(w), Lines.Split(w[1..]);
      forall i | 0 <= i < |ls|
        ensures AllSpace(c, ls[i])
      {
        if w[0] == '\n' {
          assert i > 0 ==> ls[i] == rest[i - 1];
        } else {
          assert i > 0 ==> ls[i] == rest[i];
        }
      }
    }
  }

  /** After an open line, space adds to the line and then only lines of space. */
  lemma {:induction false} SpaceAfterLine(c: Charset, l: string, w: string)
    requires l != "" && '\n' !in l && AllSpace(c, w)
    ensures Lines.Split(l + w) != [] && l <= Lines.Split(l + w)[0]
    ensures forall i :: 1 <= i < |Lines.Split(l + w)| ==> AllSpace(c, Lines.Split(l + w)[i])
  {
    assert l[0] in l && (l + w)[1..] == l[1..] + w;
    if |l| == 1 {
      assert l[1..] + w == w;
      SpaceLines(c, w);
    } else {
      assert forall i :: 0 <= i < |l[1..]| ==> l[1..][i] in l;
      SpaceAfterLine(c, l[1..], w);
    }
  }

  lemma EndLinesOf(c: Charset, head: string, last: string, w: string)
    requires Lines.Closed(head) && last != "" && '\n' !in last && AllSpace(c, w)
    ensures Lines.Split(head + (last + w)) == Lines.Split(head) + Lines.Split(last + w) && Lines.Split(last + w) != []
    ensures forall i :: 1 <= i < |Lines.Split(last + w)| ==> AllSpace(c, Lines.Split(last + w)[i])
    ensures Lines.Split(head + (last + "\n")) == Lines.Split(head) + [last + "\n"]
    ensures last <= Lines.Split(last + w)[0]
  {
    Lines.SplitConcat(head, last + w);
    Lines.SplitConcat(head, last + "\n");
    SpaceAfterLine(c, last, w);
    assert forall i :: 0 <= i < |last| ==> (last + "\n")[i] == last[i] && last[i] in last;
    Lines.SplitLine(last + "\n");
  }

  /** A blank line is no heading. */
  ghost predicate Spaceless(c: Charset, t: Search) {
    forall l :: AllSpace(c, l) ==> !t.heading(l)
  }

  function Place(x: string, t: Search): Outline.Place {
    Locate(Lines.Split(x), t)
  }

  // Lists of lines that differ in the last visible one

  /** The end of a list of lines: the last visible line, and lines of no consequence. */
  ghost predicate Ends(q: seq<string>, t: Search) {
    q != [] && forall i :: 1 <= i < |q| ==> !t.heading(q[i]) && !t.title(q[i])
  }

  /** Line by line: the same titles, the same headings before the end, and nothing after it. */
  ghost predicate SameBut(ls: seq<string>, ls': seq<string>, n: nat, t: Search) {
    && n < |ls| && |ls'| == n + 1
    && (forall k :: 0 <= k < n ==> ls'[k] == ls[k])
    && t.title(ls'[n]) == t.title(ls[n])
    && (forall k :: n < k < |ls| ==> !t.heading(ls[k]) && !t.title(ls[k]))
  }

  lemma EndsSameBut(pre: seq<string>, q: seq<string>, l: string, t: Search)
    requires Ends(q, t) && t.title(q[0]) == t.title(l)
    ensures SameBut(pre + q, pre + [l], |pre|, t)
  {
    var ls := pre + q;
    assert forall k :: |pre| <= k < |ls| ==> ls[k] == q[k - |pre|];
  }

  lemma TitlesSame(ls: seq<string>, ls': seq<string>, n: nat, t: Search)
    requires SameBut(ls, ls', n, t)
    ensures Outline.Without(ls, t.title) <==> Outline.Without(ls', t.title)
    ensures Outline.Two(ls, t.title) <==> Outline.Two(ls', t.title)
  {
    assert forall k :: 0 <= k <= n ==> t.title(ls'[k]) == t.title(ls[k]);
    assert forall k :: 0 <= k < |ls| && t.title(ls[k]) ==> k <= n;
    if Outline.Two(ls, t.title) {
      var a, b :| 0 <= a < b < |ls| && t.title(ls[a]) && t.title(ls[b]);
      assert t.title(ls'[a]) && t.title(ls'[b]);
    }
    if Outline.Two(ls', t.title) {
      var a, b :| 0 <= a < b < |ls'| && t.title(ls'[a]) && t.title(ls'[b]);
      assert t.title(ls[a]) && t.title(ls[b]);
    }
  }

  lemma SectionMoves(ls: seq<string>, ls': seq<string>, n: nat, t: Search, a: nat, z: nat)
    requires t.Lawful() && SameBut(ls, ls', n, t) && Outline.SectionAt(ls, t.title, t.heading, a, z)
    requires z >= n ==> t.heading(ls[n]) == t.heading(ls'[n])
    ensures a <= n && (z <= n || z == |ls|)
    ensures Outline.SectionAt(ls', t.title, t.heading, a, if z <= n then z else n + 1)
  {
    assert forall k :: 0 <= k <= n ==> t.title(ls'[k]) == t.title(ls[k]);
  }

  /** What dumping the end does to the section's place. */
  lemma EndPlace(ls: seq<string>, ls': seq<string>, n: nat, t: Search)
    requires t.Lawful() && SameBut(ls, ls', n, t)
    requires Locate(ls, t).At? && Locate(ls, t).after >= n ==> t.heading(ls[n]) == t.heading(ls'[n])
    ensures Locate(ls, t).Nowhere? ==> Locate(ls', t).Nowhere?
    ensures Locate(ls, t).Ambiguous? ==> Locate(ls', t).Ambiguous?
    ensures Locate(ls, t).At? ==>
      && Locate(ls, t).first <= n && (Locate(ls, t).after <= n || Locate(ls, t).after == |ls|)
      && Locate(ls', t) ==
           Outline.At(Locate(ls, t).first, if Locate(ls, t).after <= n then Locate(ls, t).after else n + 1)
  {
    var p := Locate(ls, t);
    TitlesSame(ls, ls', n, t);
    Outline.LocateMeans(ls, t.title, t.heading, 0, 0);
    Outline.LocateMeans(ls', t.title, t.heading, 0, 0);
    if p.At? {
      Outline.LocateMeans(ls, t.title, t.heading, p.first, p.after);
      SectionMoves(ls, ls', n, t, p.first, p.after);
      Outline.LocateMeans(ls', t.title, t.heading, p.first, if p.after <= n then p.after else n + 1);
    }
  }

  // What the section holds

  lemma {:induction false} StripEndsShorter(s: string)
    ensures |StripEnds(s)| <= |s|
  {
    if s != "" && (s[|s| - 1] == '\n' || s[|s| - 1] == '\r') {
      StripEndsShorter(s[..|s| - 1]);
    }
  }

  /** Line ends are stripped no further than a visible character. */
  lemma {:induction false} StripEndsAtLeast(c: Charset, u: string, w: string)
    requires Blanks(c) && u != "" && !c.space(u[|u| - 1])
    ensures |StripEnds(u + w)| >= |u|
  {
    if w == "" {
      assert u + w == u;
    } else {
      assert (u + w)[..|u + w| - 1] == u + w[..|w| - 1];
      StripEndsAtLeast(c, u, w[..|w| - 1]);
    }
  }

  lemma StripEndsVisible(c: Charset, v: string)
    requires Blanks(c) && (v != "" ==> !c.space(v[|v| - 1]))
    ensures StripEnds(v) == v && StripEnds(v + "\n") == v
  {
    assert (v + "\n")[..|v|] == v;
  }

  /** A section that reaches the end holds the rest of the text. */
  lemma ContentToEnd(x: string, t: Search)
    requires Place(x, t).At? && Place(x, t).after == |Lines.Split(x)|
    ensures var n := |Lines.Flat(Lines.Split(x)[..Place(x, t).first + 1])|;
      n <= |x| && GetSection(x, t) == Found(|Lines.Flat(Lines.Split(x)[..Place(x, t).first])|, |x|, x[n..])
  {
    var ls, p := Lines.Split(x), Place(x, t);
    GetIsRendered(x, t);
    TextTail(x, p.first + 1);
    assert ls[p.first + 1..p.after] == ls[p.first + 1..] && ls[..p.after] == ls;
    Lines.FlatSplit(x);
  }

  /** The same, for a text of lines, a last visible line and space, when the title is among the lines. */
  lemma ContentBeforeLast(head: string, rest: string, t: Search)
    requires Lines.Closed(head) && rest != "" && Place(head + rest, t).At?
    requires Place(head + rest, t).after == |Lines.Split(head + rest)|
    requires Place(head + rest, t).first < |Lines.Split(head)|
    ensures var n := |Lines.Flat(Lines.Split(head)[..Place(head + rest, t).first + 1])|;
      n <= |head| && GetSection(head + rest, t).Found? && GetSection(head + rest, t).content == head[n..] + rest
  {
    var p, pre := Place(head + rest, t), Lines.Split(head);
    Lines.SplitConcat(head, rest);
    ContentToEnd(head + rest, t);
    assert Lines.Split(head + rest)[..p.first + 1] == pre[..p.first + 1];
    Lines.FlatSplit(head);
    Lines.FlatSlices(pre, p.first + 1, |pre|);
    assert pre[..|pre|] == pre;
  }

  /** The same, when the title is the last line before the space. */
  lemma ContentAfterLast(c: Charset, head: string, rest: string, t: Search)
    requires Lines.Closed(head) && rest != "" && Place(head + rest, t).At?
    requires Place(head + rest, t).after == |Lines.Split(head + rest)|
    requires Place(head + rest, t).first == |Lines.Split(head)|
    requires forall i :: 1 <= i < |Lines.Split(rest)| ==> AllSpace(c, Lines.Split(rest)[i])
    ensures GetSection(head + rest, t).Found? && AllSpace(c, GetSection(head + rest, t).content)
    ensures |Lines.Split(rest)| == 1 ==> GetSection(head + rest, t).content == ""
  {
    var q := Lines.Split(rest);
    Lines.SplitConcat(head, rest);
    GetIsRendered(head + rest, t);
    AfterFirst(Lines.Split(head), q);
    FlatSpace(c, q[1..]);
  }

  lemma AfterFirst(pre: seq<string>, q: seq<string>)
    requires q != []
    ensures (pre + q)[|pre| + 1..|pre + q|] == q[1..]
  {
  }

  lemma {:induction false} FlatSpace(c: Charset, ls: seq<string>)
    requires forall i :: 0 <= i < |ls| ==> AllSpace(c, ls[i])
    ensures AllSpace(c, Lines.Flat(ls))
  {
    if ls != [] {
      FlatSpace(c, ls[1..]);
    }
  }

  // Dumping the end keeps the section exactly under that condition

  /** A text taken apart: lines, the last visible line, the space after it. */
  ghost predicate Parts(c: Charset, head: string, last: string, w: string) {
    Lines.Closed(head) && last != "" && '\n' !in last && !c.space(last[|last| - 1]) && AllSpace(c, w)
  }

  lemma TakeEnd(c: Charset, x: string) returns (head: string, last: string, w: string)
    requires Blanks(c) && c.StripRight(x) != ""
    ensures Parts(c, head, last, w) && x == head + (last + w)
    ensures |c.StripRight(x)| <= |x| && w == x[|c.StripRight(x)|..]
  {
    EndParts(c, x);
    var r, k := c.StripRight(x), LastLine(c, x);
    head, last, w := x[..k], r[k..], x[|r|..];
  }

  /**
    What dumping must leave alone at the end of a text: whether the last visible line is the section's
    title; if the section reaches it, whether it is a heading; and if the section holds it, then what
    is stripped from the section is line ends only.
  */
  predicate KeptAtEnd(c: Charset, head: string, last: string, w: string, t: Search) {
    var x, q := head + (last + w), Lines.Split(last + w);
    && q != [] && t.title(q[0]) == t.title(last + "\n")
    && (Place(x, t).At? && Place(x, t).after >= |Lines.Split(head)| ==> t.heading(q[0]) == t.heading(last + "\n"))
    && (Place(x, t).At? && Place(x, t).after == |Lines.Split(x)| ==>
          StripEnds(GetSection(x, t).content) == c.StripRight(GetSection(x, t).content))
  }

  predicate EndKept(c: Charset, x: string, t: Search) {
    var r, k := c.StripRight(x), LastLine(c, x);
    r != "" && k <= |r| <= |x| ==> KeptAtEnd(c, x[..k], r[k..], x[|r|..], t)
  }

  lemma PartsSameBut(c: Charset, head: string, last: string, w: string, t: Search)
    requires Blanks(c) && Spaceless(c, t) && t.Lawful() && Parts(c, head, last, w)
    requires t.title(Lines.Split(last + w)[0]) == t.title(last + "\n")
    ensures SameBut(Lines.Split(head + (last + w)), Lines.Split(head + (last + "\n")), |Lines.Split(head)|, t)
    ensures Lines.Split(head + (last + w)) == Lines.Split(head) + Lines.Split(last + w)
    ensures Lines.Split(head + (last + "\n")) == Lines.Split(head) + [last + "\n"]
  {
    var q := Lines.Split(last + w);
    EndLinesOf(c, head, last, w);
    forall i | 1 <= i < |q|
      ensures !t.heading(q[i]) && !t.title(q[i])
    {
      assert AllSpace(c, q[i]);
    }
    EndsSameBut(Lines.Split(head), q, last + "\n", t);
  }

  lemma EndKeepsParts(c: Charset, head: string, last: string, w: string, t: Search)
    requires Blanks(c) && Spaceless(c, t) && t.Lawful() && Parts(c, head, last, w) && KeptAtEnd(c, head, last, w, t)
    ensures SameUpToEnds(GetSection(head + (last + w), t), GetSection(head + (last + "\n"), t))
  {
    var x, y, n := head + (last + w), head + (last + "\n"), |Lines.Split(head)|;
    var ls, ls', p := Lines.Split(x), Lines.Split(y), Place(x, t);
    PartsSameBut(c, head, last, w, t);
    EndPlace(ls, ls', n, t);
    if !p.At? {
      NoSectionEither(x, y, t);
    } else if p.after <= n {
      SectionBefore(x, y, n, t);
    } else {
      ContentsAtEnd(c, head, last, w, t);
      EndStripped(c, x, y, t);
    }
  }

  lemma NoSectionEither(x: string, y: string, t: Search)
    requires !Place(x, t).At? && !Place(y, t).At? && Place(x, t).Nowhere? == Place(y, t).Nowhere?
    ensures SameUpToEnds(GetSection(x, t), GetSection(y, t))
  {
    GetIsRendered(x, t);
    GetIsRendered(y, t);
  }

  lemma SectionBefore(x: string, y: string, n: nat, t: Search)
    requires SameBut(Lines.Split(x), Lines.Split(y), n, t)
    requires Place(x, t).At? && Place(y, t) == Place(x, t) && Place(x, t).after <= n
    ensures SameUpToEnds(GetSection(x, t), GetSection(y, t))
  {
    GetIsRendered(x, t);
    GetIsRendered(y, t);
    SliceKept(Lines.Split(x), Lines.Split(y), n, Place(x, t).first, Place(x, t).after);
  }

  lemma EndStripped(c: Charset, x: string, y: string, t: Search)
    requires GetSection(x, t).Found? && GetSection(y, t).Found?
    requires StripEnds(GetSection(y, t).content) == c.StripRight(GetSection(x, t).content)
    requires StripEnds(GetSection(x, t).content) == c.StripRight(GetSection(x, t).content)
    ensures SameUpToEnds(GetSection(x, t), GetSection(y, t))
  {
  }

  lemma SliceKept(ls: seq<string>, ls': seq<string>, n: nat, a: nat, z: nat)
    requires a < z <= n && n < |ls| && n < |ls'| && forall k :: 0 <= k < n ==> ls'[k] == ls[k]
    ensures ls[a + 1..z] == ls'[a + 1..z]
  {
  }

  /** Before and after, a section that reaches the end: what is stripped, and what is left. */
  lemma ContentsAtEnd(c: Charset, head: string, last: string, w: string, t: Search)
    requires Blanks(c) && Spaceless(c, t) && t.Lawful() && Parts(c, head, last, w)
    requires var x, y := head + (last + w), head + (last + "\n");
      && Place(x, t).At? && Place(y, t).At? && Place(x, t).first == Place(y, t).first <= |Lines.Split(head)|
      && Place(x, t).after == |Lines.Split(x)| && Place(y, t).after == |Lines.Split(y)|
    ensures GetSection(head + (last + w), t).Found? && GetSection(head + (last + "\n"), t).Found?
    ensures StripEnds(GetSection(head + (last + "\n"), t).content) ==
      c.StripRight(GetSection(head + (last + w), t).content)
  {
    if Place(head + (last + w), t).first < |Lines.Split(head)| {
      ContentBeforeLast(head, last + w, t);
      ContentBeforeLast(head, last + "\n", t);
      StrippedAlike(c, head[|Lines.Flat(Lines.Split(head)[..Place(head + (last + w), t).first + 1])|..], last, w);
    } else {
      EmptyAtEnd(c, head, last, w, t);
    }
  }

  lemma StrippedAlike(c: Charset, u: string, last: string, w: string)
    requires Blanks(c) && last != "" && !c.space(last[|last| - 1]) && AllSpace(c, w)
    ensures StripEnds(u + (last + "\n")) == c.StripRight(u + (last + w))
  {
    var v := u + last;
    assert u + (last + w) == v + w && u + (last + "\n") == v + "\n";
    StripRightAt(c, v, w);
    StripEndsVisible(c, v);
  }

  lemma EmptyAtEnd(c: Charset, head: string, last: string, w: string, t: Search)
    requires Parts(c, head, last, w) && c.space('\n')
    requires var x, y, n := head + (last + w), head + (last + "\n"), |Lines.Split(head)|;
      && Place(x, t).At? && Place(y, t).At? && Place(x, t).first == Place(y, t).first == n
      && Place(x, t).after == |Lines.Split(x)| && Place(y, t).after == |Lines.Split(y)|
    ensures GetSection(head + (last + w), t).Found? && GetSection(head + (last + "\n"), t).Found?
    ensures GetSection(head + (last + "\n"), t).content == ""
    ensures c.StripRight(GetSection(head + (last + w), t).content) == ""
  {
    EndLinesOf(c, head, last, w);
    SplitOpenLine(last);
    ContentAfterLast(c, head, last + w, t);
    ContentAfterLast(c, head, last + "\n", t);
    StripRightSpace(c, GetSection(head + (last + w), t).content);
  }

  lemma SplitOpenLine(last: string)
    requires last != "" && '\n' !in last
    ensures Lines.Split(last + "\n") == [last + "\n"]
  {
    assert forall i :: 0 <= i < |last| ==> (last + "\n")[i] == last[i] && last[i] in last;
    Lines.SplitLine(last + "\n");
  }

  // And only then

  lemma EndLostTitle(ls: seq<string>, ls': seq<string>, n: nat, t: Search)
    requires n < |ls| && |ls'| == n + 1 && (forall k :: 0 <= k < n ==> ls'[k] == ls[k])
    requires forall k :: n < k < |ls| ==> !t.title(ls[k])
    requires t.title(ls'[n]) != t.title(ls[n]) && !Locate(ls, t).Ambiguous?
    ensures Locate(ls, t).Nowhere? ==> !Locate(ls', t).Nowhere?
    ensures Locate(ls, t).At? ==> !Locate(ls', t).At?
  {
    var p := Locate(ls, t);
    Outline.LocateMeans(ls, t.title, t.heading, 0, 0);
    Outline.LocateMeans(ls', t.title, t.heading, 0, 0);
    if p.Nowhere? {
      assert t.title(ls'[n]);
    } else {
      Outline.LocateMeans(ls, t.title, t.heading, p.first, p.after);
      assert p.first <= n;
      if p.first == n {
        assert forall k :: 0 <= k < n ==> !t.title(ls'[k]);
        assert Outline.Without(ls', t.title);
      } else {
        assert t.title(ls'[p.first]) && t.title(ls'[n]);
        assert Outline.Two(ls', t.title);
      }
    }
  }

  /** If the last line becomes a heading, or stops being one, the section that reached it loses or gains it. */
  lemma EndMovedHeading(ls: seq<string>, ls': seq<string>, n: nat, t: Search)
    requires t.Lawful() && SameBut(ls, ls', n, t) && Locate(ls, t).At? && Locate(ls, t).after >= n
    requires t.heading(ls[n]) != t.heading(ls'[n])
    ensures Locate(ls, t).first < n && Locate(ls, t).after == (if t.heading(ls[n]) then n else |ls|)
    ensures Locate(ls', t) == Outline.At(Locate(ls, t).first, if t.heading(ls[n]) then n + 1 else n)
  {
    var p := Locate(ls, t);
    assert forall k :: 0 <= k <= n ==> t.title(ls'[k]) == t.title(ls[k]);
    Outline.LocateMeans(ls, t.title, t.heading, p.first, p.after);
    Outline.LocateMeans(ls', t.title, t.heading, p.first, if t.heading(ls[n]) then n + 1 else n);
  }

  lemma HeadingLost(c: Charset, head: string, last: string, w: string, t: Search)
    requires Blanks(c) && Spaceless(c, t) && t.Lawful() && Parts(c, head, last, w)
    requires t.title(Lines.Split(last + w)[0]) == t.title(last + "\n")
    requires Place(head + (last + w), t).At? && Place(head + (last + w), t).after >= |Lines.Split(head)|
    requires t.heading(Lines.Split(last + w)[0]) != t.heading(last + "\n")
    ensures !SameUpToEnds(GetSection(head + (last + w), t), GetSection(head + (last + "\n"), t))
  {
    var x, y, pre := head + (last + w), head + (last + "\n"), Lines.Split(head);
    PartsSameBut(c, head, last, w, t);
    EndMovedHeading(Lines.Split(x), Lines.Split(y), |pre|, t);
    if t.heading(Lines.Split(last + w)[0]) {
      ContentGrows(c, head, last + w, last, "\n", t);
    } else {
      EndLinesOf(c, head, last, w);
      ContentGrows(c, head, last + "\n", last, w, t);
    }
  }

  /** One text's section stops before the last line, the other's holds it. */
  lemma ContentGrows(c: Charset, head: string, less: string, last: string, w: string, t: Search)
    requires Blanks(c) && Lines.Closed(head) && less != "" && last != "" && !c.space(last[|last| - 1])
    requires Place(head + less, t).At? && Place(head + less, t).after == |Lines.Split(head)|
    requires Place(head + (last + w), t).At? && Place(head + (last + w), t).after == |Lines.Split(head + (last + w))|
    requires Place(head + (last + w), t).first == Place(head + less, t).first < |Lines.Split(head)|
    ensures !SameUpToEnds(GetSection(head + less, t), GetSection(head + (last + w), t))
    ensures !SameUpToEnds(GetSection(head + (last + w), t), GetSection(head + less, t))
  {
    var a := Place(head + less, t).first;
    ContentBeforeLast(head, last + w, t);
    ContentWithin(head, less, t);
    GrownContent(c, head[|Lines.Flat(Lines.Split(head)[..a + 1])|..], last, w);
  }

  lemma ContentWithin(head: string, less: string, t: Search)
    requires Lines.Closed(head) && less != ""
    requires Place(head + less, t).At? && Place(head + less, t).after == |Lines.Split(head)|
    ensures var n := |Lines.Flat(Lines.Split(head)[..Place(head + less, t).first + 1])|;
      n <= |head| && GetSection(head + less, t).Found? && GetSection(head + less, t).content == head[n..]
  {
    var pre, a := Lines.Split(head), Place(head + less, t).first;
    Lines.SplitConcat(head, less);
    GetIsRendered(head + less, t);
    TextTail(head, a + 1);
    assert Lines.Split(head + less)[a + 1..|pre|] == pre[a + 1..];
  }

  lemma GrownContent(c: Charset, v: string, last: string, w: string)
    requires Blanks(c) && last != "" && !c.space(last[|last| - 1])
    ensures StripEnds(v + (last + w)) != StripEnds(v)
  {
    StripEndsShorter(v);
    assert v + (last + w) == (v + last) + w;
    StripEndsAtLeast(c, v + last, w);
  }

  lemma EndKeepsOnlyIf(c: Charset, head: string, last: string, w: string, t: Search)
    requires Blanks(c) && Spaceless(c, t) && t.Lawful() && Parts(c, head, last, w)
    requires !GetSection(head + (last + w), t).Duplicate?
    requires SameUpToEnds(GetSection(head + (last + w), t), GetSection(head + (last + "\n"), t))
    ensures KeptAtEnd(c, head, last, w, t)
  {
    var x, y, n := head + (last + w), head + (last + "\n"), |Lines.Split(head)|;
    var q, p := Lines.Split(last + w), Place(x, t);
    EndLinesOf(c, head, last, w);
    GetIsRendered(x, t);
    GetIsRendered(y, t);
    if t.title(q[0]) != t.title(last + "\n") {
      TitleLost(c, head, last, w, t);
    } else if p.At? && p.after >= n && t.heading(q[0]) != t.heading(last + "\n") {
      HeadingLost(c, head, last, w, t);
    } else if p.At? && p.after == |Lines.Split(x)| {
      PartsSameBut(c, head, last, w, t);
      EndPlace(Lines.Split(x), Lines.Split(y), n, t);
      ContentsAtEnd(c, head, last, w, t);
    }
  }

  lemma TitleLost(c: Charset, head: string, last: string, w: string, t: Search)
    requires Blanks(c) && Spaceless(c, t) && t.Lawful() && Parts(c, head, last, w)
    requires t.title(Lines.Split(last + w)[0]) != t.title(last + "\n")
    requires !GetSection(head + (last + w), t).Duplicate?
    ensures !SameUpToEnds(GetSection(head + (last + w), t), GetSection(head + (last + "\n"), t))
  {
    var x, y, pre, q := head + (last + w), head + (last + "\n"), Lines.Split(head), Lines.Split(last + w);
    EndLinesOf(c, head, last, w);
    GetIsRendered(x, t);
    GetIsRendered(y, t);
    forall k | |pre| < k < |pre + q|
      ensures !t.title((pre + q)[k])
    {
      assert (pre + q)[k] == q[k - |pre|] && AllSpace(c, q[k - |pre|]);
    }
    EndLostTitle(pre + q, pre + [last + "\n"], |pre|, t);
  }

  /** Dumping the end of a text keeps a section that is there once, or not at all, exactly under the condition. */
  lemma EndKeepsIff(c: Charset, x: string, t: Search)
    requires Blanks(c) && Spaceless(c, t) && t.Lawful() && c.StripRight(x) != ""
    ensures EndKept(c, x, t) ==> SameUpToEnds(GetSection(x, t), GetSection(EndTidy(c, x), t))
    ensures !EndKept(c, x, t) && !GetSection(x, t).Duplicate? ==>
      !SameUpToEnds(GetSection(x, t), GetSection(EndTidy(c, x), t))
  {
    EndParts(c, x);
    var r, k := c.StripRight(x), LastLine(c, x);
    EndKeepsIffParts(c, x, EndTidy(c, x), x[..k], r[k..], x[|r|..], t);
  }

  lemma EndKeepsIffParts(c: Charset, x: string, y: string, head: string, last: string, w: string, t: Search)
    requires Blanks(c) && Spaceless(c, t) && t.Lawful() && Parts(c, head, last, w)
    requires x == head + (last + w) && y == head + (last + "\n")
    ensures KeptAtEnd(c, head, last, w, t) ==> SameUpToEnds(GetSection(x, t), GetSection(y, t))
    ensures SameUpToEnds(GetSection(x, t), GetSection(y, t)) && !GetSection(x, t).Duplicate? ==>
      KeptAtEnd(c, head, last, w, t)
  {
    if KeptAtEnd(c, head, last, w, t) {
      EndKeepsParts(c, head, last, w, t);
    }
    if SameUpToEnds(GetSection(x, t), GetSection(y, t)) && !GetSection(x, t).Duplicate? {
      EndKeepsOnlyIf(c, head, last, w, t);
    }
  }

  /** There is one way to take the end apart. */
  lemma EndIsKept(c: Charset, x: string, head: string, last: string, w: string, t: Search)
    requires Blanks(c) && Parts(c, head, last, w) && x == head + (last + w)
    ensures c.StripRight(x) == head + last && (EndKept(c, x, t) <==> KeptAtEnd(c, head, last, w, t))
  {
    var r := head + last;
    assert x == r + w && r[|r| - 1] == last[|last| - 1];
    StripRightAt(c, r, w);
    BreakAt(head, last);
    assert x[..|head|] == head && x[|r|..] == w;
  }

  /** A text that ends visibly, but for its newline, keeps every section. */
  lemma ClosedEndKept(c: Charset, head: string, last: string, t: Search)
    requires Blanks(c) && Spaceless(c, t) && t.Lawful() && Parts(c, head, last, "\n")
    ensures EndKept(c, head + (last + "\n"), t)
  {
    ClosedKept(c, head, last, t);
    EndIsKept(c, head + (last + "\n"), head, last, "\n", t);
  }

  lemma ClosedKept(c: Charset, head: string, last: string, t: Search)
    requires Blanks(c) && Spaceless(c, t) && t.Lawful() && Parts(c, head, last, "\n")
    ensures KeptAtEnd(c, head, last, "\n", t)
  {
    var x := head + (last + "\n");
    SplitOpenLine(last);
    if Place(x, t).At? && Place(x, t).after == |Lines.Split(x)| {
      EndLinesOf(c, head, last, "\n");
      ContentsAtEnd(c, head, last, "\n", t);
    }
  }

  // The front of a text

  /** The first line when something is put before a text on the same line. */
  lemma {:induction false} SplitPadded(p: string, f: string)
    requires '\n' !in p && f != ""
    ensures Lines.Split(p + f) == [p + Lines.Split(f)[0]] + Lines.Split(f)[1..]
  {
    if p == "" {
      assert p + f == f && p + Lines.Split(f)[0] == Lines.Split(f)[0];
    } else {
      var q, fs := p[1..], Lines.Split(f);
      assert p[0] in p && (p + f)[0] == p[0] && (p + f)[1..] == q + f;
      assert forall i :: 0 <= i < |q| ==> q[i] in p;
      SplitPadded(q, f);
      assert [p[0]] + (q + fs[0]) == p + fs[0];
    }
  }

  /** Lines of space, then the same lines but for what the first one starts with. */
  ghost predicate Fronted(ls: seq<string>, ls': seq<string>, m: nat, t: Search) {
    && ls' != [] && |ls| == m + |ls'|
    && (forall k :: 0 <= k < m ==> !t.heading(ls[k]) && !t.title(ls[k]))
    && (forall k :: 1 <= k < |ls'| ==> ls'[k] == ls[m + k])
  }

  lemma FrontedFrom(bs: seq<string>, l: string, fs: seq<string>, t: Search)
    requires fs != [] && forall k :: 0 <= k < |bs| ==> !t.heading(bs[k]) && !t.title(bs[k])
    ensures Fronted(bs + ([l] + fs[1..]), fs, |bs|, t)
  {
  }

  lemma FrontTitles(ls: seq<string>, ls': seq<string>, m: nat, t: Search)
    requires Fronted(ls, ls', m, t) && t.title(ls[m]) == t.title(ls'[0])
    ensures Outline.Without(ls, t.title) <==> Outline.Without(ls', t.title)
    ensures Outline.Two(ls, t.title) <==> Outline.Two(ls', t.title)
  {
    assert forall k :: 0 <= k < |ls'| ==> t.title(ls'[k]) == t.title(ls[m + k]);
    assert forall k :: m <= k < |ls| ==> t.title(ls'[k - m]) == t.title(ls[k]);
    if Outline.Two(ls, t.title) {
      var a, b :| 0 <= a < b < |ls| && t.title(ls[a]) && t.title(ls[b]);
      assert t.title(ls'[a - m]) && t.title(ls'[b - m]);
    }
    if Outline.Two(ls', t.title) {
      var a, b :| 0 <= a < b < |ls'| && t.title(ls'[a]) && t.title(ls'[b]);
      assert t.title(ls[m + a]) && t.title(ls[m + b]);
    }
  }

  lemma FrontSection(ls: seq<string>, ls': seq<string>, m: nat, t: Search, a: nat, z: nat)
    requires t.Lawful() && Fronted(ls, ls', m, t) && t.title(ls[m]) == t.title(ls'[0])
    requires Outline.SectionAt(ls, t.title, t.heading, a, z)
    ensures m <= a && Outline.SectionAt(ls', t.title, t.heading, a - m, z - m)
    ensures ls[a + 1..z] == ls'[a - m + 1..z - m]
  {
    assert forall k :: m <= k < |ls| ==> t.title(ls'[k - m]) == t.title(ls[k]);
    assert forall k :: m < k < |ls| ==> ls'[k - m] == ls[k];
    assert forall k :: 0 <= k < |ls'| ==> t.title(ls'[k]) == t.title(ls[m + k]);
    assert forall k :: 1 <= k < |ls'| ==> ls'[k] == ls[m + k];
  }

  lemma FrontPlace(ls: seq<string>, ls': seq<string>, m: nat, t: Search)
    requires t.Lawful() && Fronted(ls, ls', m, t) && t.title(ls[m]) == t.title(ls'[0])
    ensures SameContent(Rendered(ls, Locate(ls, t)), Rendered(ls', Locate(ls', t)))
  {
    var q := Locate(ls, t);
    FrontTitles(ls, ls', m, t);
    Outline.LocateMeans(ls, t.title, t.heading, 0, 0);
    Outline.LocateMeans(ls', t.title, t.heading, 0, 0);
    if q.At? {
      Outline.LocateMeans(ls, t.title, t.heading, q.first, q.after);
      FrontSection(ls, ls', m, t, q.first, q.after);
      Outline.LocateMeans(ls', t.title, t.heading, q.first - m, q.after - m);
    }
  }

  /** What stripping the front must leave alone: whether the first visible line is the section's title. */
  predicate KeptAtFront(p: string, f: string, t: Search) {
    f != "" ==> t.title(p + Lines.Split(f)[0]) == t.title(Lines.Split(f)[0])
  }

  lemma FrontLines(c: Charset, b: string, p: string, f: string, t: Search)
    requires Spaceless(c, t) && t.Lawful() && Lines.Closed(b) && AllSpace(c, b) && '\n' !in p && f != ""
    ensures Fronted(Lines.Split(b + (p + f)), Lines.Split(f), |Lines.Split(b)|, t)
    ensures Lines.Split(b + (p + f))[|Lines.Split(b)|] == p + Lines.Split(f)[0]
  {
    var bs, fs := Lines.Split(b), Lines.Split(f);
    Lines.SplitConcat(b, p + f);
    SplitPadded(p, f);
    SpaceLines(c, b);
    forall k | 0 <= k < |bs|
      ensures !t.heading(bs[k]) && !t.title(bs[k])
    {
      assert AllSpace(c, bs[k]);
    }
    FrontedFrom(bs, p + fs[0], fs, t);
  }

  lemma FrontKeeps(c: Charset, b: string, p: string, f: string, t: Search)
    requires Spaceless(c, t) && t.Lawful() && Lines.Closed(b) && AllSpace(c, b) && '\n' !in p && f != ""
    requires KeptAtFront(p, f, t)
    ensures SameUpToEnds(GetSection(b + (p + f), t), GetSection(f, t))
  {
    FrontLines(c, b, p, f, t);
    FrontPlace(Lines.Split(b + (p + f)), Lines.Split(f), |Lines.Split(b)|, t);
    GetIsRendered(b + (p + f), t);
    GetIsRendered(f, t);
  }

  lemma FrontLost(ls: seq<string>, ls': seq<string>, m: nat, t: Search)
    requires Fronted(ls, ls', m, t) && t.title(ls[m]) != t.title(ls'[0]) && !Locate(ls, t).Ambiguous?
    ensures Locate(ls, t).Nowhere? ==> !Locate(ls', t).Nowhere?
    ensures Locate(ls, t).At? ==> !Locate(ls', t).At?
  {
    var p := Locate(ls, t);
    Outline.LocateMeans(ls, t.title, t.heading, 0, 0);
    Outline.LocateMeans(ls', t.title, t.heading, 0, 0);
    if p.Nowhere? {
      assert t.title(ls'[0]);
    } else {
      Outline.LocateMeans(ls, t.title, t.heading, p.first, p.after);
      assert p.first >= m;
      if p.first == m {
        assert forall k :: 0 <= k < |ls'| ==> !t.title(ls'[k]);
        assert Outline.Without(ls', t.title);
      } else {
        assert ls'[p.first - m] == ls[m + (p.first - m)] == ls[p.first];
        assert t.title(ls'[0]) && t.title(ls'[p.first - m]);
        assert Outline.Two(ls', t.title);
      }
    }
  }

  /** And only then, for a section that is there once or not at all. */
  lemma FrontKeepsOnlyIf(c: Charset, b: string, p: string, f: string, t: Search)
    requires Spaceless(c, t) && t.Lawful() && Lines.Closed(b) && AllSpace(c, b) && '\n' !in p && f != ""
    requires !GetSection(b + (p + f), t).Duplicate? && !KeptAtFront(p, f, t)
    ensures !SameUpToEnds(GetSection(b + (p + f), t), GetSection(f, t))
  {
    FrontLines(c, b, p, f, t);
    FrontLost(Lines.Split(b + (p + f)), Lines.Split(f), |Lines.Split(b)|, t);
    GetIsRendered(b + (p + f), t);
    GetIsRendered(f, t);
  }

  predicate FrontKept(c: Charset, x: string, t: Search) {
    var f := c.StripLeft(x);
    |f| <= |x| ==> var pad := x[..|x| - |f|]; KeptAtFront(pad[Lines.LastBreak(pad)..], f, t)
  }

  /** The parts of a text at its front: lines of space, the space before the first visible character, the rest. */
  ghost predicate Front(c: Charset, x: string, b: string, p: string, f: string) {
    && x == b + (p + f) && Lines.Closed(b) && AllSpace(c, b) && AllSpace(c, p) && '\n' !in p
    && (f != "" ==> !c.space(f[0]))
  }

  lemma FrontParts(c: Charset, x: string) returns (b: string, p: string)
    ensures Front(c, x, b, p, c.StripLeft(x))
  {
    var f := c.StripLeft(x);
    StripLeftParts(c, x);
    var pad := x[..|x| - |f|];
    b, p := pad[..Lines.LastBreak(pad)], pad[Lines.LastBreak(pad)..];
    assert pad == b + p && b + p + f == b + (p + f);
  }

  /** There is one way to take the front apart. */
  lemma FrontIsKept(c: Charset, x: string, b: string, p: string, f: string, t: Search)
    requires Front(c, x, b, p, f)
    ensures c.StripLeft(x) == f && (FrontKept(c, x, t) <==> KeptAtFront(p, f, t))
  {
    assert x == (b + p) + f && x[..|x| - |f|] == b + p;
    StripLeftSpace(c, b + p, f);
    assert c.StripLeft(f) == f;
    BreakAt(b, p);
  }

  lemma BreakAt(b: string, p: string)
    requires Lines.Closed(b) && '\n' !in p
    ensures Lines.LastBreak(b + p) == |b| && (b + p)[|b|..] == p
  {
    var x, k := b + p, Lines.LastBreak(b + p);
    assert x[..|b|] == b && x[|b|..] == p;
    BreakBetween(x, k, |b|);
    BreakBetween(x, |b|, k);
  }

  lemma BreakBetween(x: string, k: nat, n: nat)
    requires k <= |x| && n <= |x| && Lines.Closed(x[..n])
    ensures k < n ==> '\n' in x[k..]
  {
    if k < n {
      assert x[..n][n - 1] == x[k..][n - 1 - k];
    }
  }

  /** Stripping the front of a text keeps a section that is there once, or not at all, exactly under the condition. */
  lemma FrontKeepsIff(c: Charset, x: string, t: Search)
    requires Spaceless(c, t) && t.Lawful() && c.StripLeft(x) != ""
    ensures FrontKept(c, x, t) ==> SameUpToEnds(GetSection(x, t), GetSection(c.StripLeft(x), t))
    ensures !FrontKept(c, x, t) && !GetSection(x, t).Duplicate? ==>
      !SameUpToEnds(GetSection(x, t), GetSection(c.StripLeft(x), t))
  {
    var b, p := FrontParts(c, x);
    FrontIsKept(c, x, b, p, c.StripLeft(x), t);
    if FrontKept(c, x, t) {
      FrontKeeps(c, b, p, c.StripLeft(x), t);
    } else if !GetSection(x, t).Duplicate? {
      FrontKeepsOnlyIf(c, b, p, c.StripLeft(x), t);
    }
  }

  // Texts that share an end or a front

  /** Behind lines that are not all space, what follows does not matter to the front. */
  lemma FrontShared(c: Charset, a: string, r: string, t: Search)
    requires Lines.Closed(a) && c.StripLeft(a) != ""
    ensures FrontKept(c, a + r, t) <==> FrontKept(c, a, t)
    ensures c.StripLeft(a + r) != ""
  {
    var f := c.StripLeft(a);
    var b, p := FrontParts(c, a);
    FrontGrows(c, a, b, p, f, r);
    assert f[|f| - 1] == a[|a| - 1];
    FrontIsKept(c, a, b, p, f, t);
    FrontIsKept(c, a + r, b, p, f + r, t);
    Lines.SplitConcat(f, r);
  }

  /** Lines of space before a text that starts visibly do not matter. */
  lemma FrontOfSpace(c: Charset, a: string, r: string, t: Search)
    requires Lines.Closed(a) && c.StripLeft(a) == "" && r != "" && !c.space(r[0])
    ensures FrontKept(c, a + r, t) && c.StripLeft(a + r) == r
  {
    StripLeftParts(c, a);
    assert a[..|a|] == a && a + r == a + ("" + r);
    assert "" + Lines.Split(r)[0] == Lines.Split(r)[0];
    FrontIsKept(c, a + r, a, "", r, t);
  }

  /** Nor does closing the text. */
  lemma FrontClosed(c: Charset, x: string, t: Search)
    requires c.space('\n') && t.Lawful()
    ensures FrontKept(c, x + Separator(x), t) <==> FrontKept(c, x, t)
    ensures c.StripLeft(x + Separator(x)) == "" <==> c.StripLeft(x) == ""
  {
    var f := c.StripLeft(x);
    var b, p := FrontParts(c, x);
    FrontIsKept(c, x, b, p, f, t);
    if f == "" {
      SpaceClosed(c, x);
      StripLeftParts(c, x + Separator(x));
      FrontBlank(c, x, t);
      FrontBlank(c, x + Separator(x), t);
    } else {
      FrontClosedUp(c, x, b, p, f, t);
    }
  }

  lemma FrontBlank(c: Charset, x: string, t: Search)
    requires c.StripLeft(x) == ""
    ensures FrontKept(c, x, t)
  {
  }

  lemma SpaceClosed(c: Charset, x: string)
    requires c.space('\n') && c.StripLeft(x) == ""
    ensures c.StripLeft(x + Separator(x)) == ""
  {
    StripLeftParts(c, x);
    assert x[..|x|] == x;
    StripLeftSpace(c, x, Separator(x));
    assert AllSpace(c, Separator(x)) && Separator(x) + "" == Separator(x);
    StripLeftSpace(c, Separator(x), "");
  }

  lemma FrontClosedUp(c: Charset, x: string, b: string, p: string, f: string, t: Search)
    requires t.Lawful() && Front(c, x, b, p, f) && f != ""
    ensures FrontKept(c, x + Separator(x), t) <==> FrontKept(c, x, t)
    ensures c.StripLeft(x + Separator(x)) != ""
  {
    var sep := Separator(x);
    assert f[|f| - 1] == x[|x| - 1];
    FrontGrows(c, x, b, p, f, sep);
    FrontIsKept(c, x, b, p, f, t);
    FrontIsKept(c, x + sep, b, p, f + sep, t);
    KeptClosed(p, f, t);
  }

  lemma KeptClosed(p: string, f: string, t: Search)
    requires t.Lawful() && '\n' !in p && f != ""
    ensures KeptAtFront(p, f + Separator(f), t) <==> KeptAtFront(p, f, t)
  {
    ClosedUp(f);
    var ls, ls' := Lines.Split(f), Lines.Split(f + Separator(f));
    assert ls'[0] == ls[0] || (ls[0] != "" && '\n' !in ls[0] && ls'[0] == ls[0] + "\n");
    Lines.SplitLines(f);
    ClosedFirst(p, ls[0], ls'[0], t);
  }

  lemma FrontGrows(c: Charset, x: string, b: string, p: string, f: string, r: string)
    requires Front(c, x, b, p, f) && f != ""
    ensures Front(c, x + r, b, p, f + r)
  {
    assert (b + (p + f)) + r == b + (p + (f + r));
  }

  lemma ClosedFirst(p: string, l: string, l': string, t: Search)
    requires t.Lawful() && '\n' !in p && l != "" && (l' == l || ('\n' !in l && l' == l + "\n"))
    ensures t.title(l') == t.title(l) && t.title(p + l') == t.title(p + l)
  {
    assert p + (l + "\n") == (p + l) + "\n";
  }

  /** Nor does what comes before the last heading matter to the end, if the section has moved along with its lines. */
  lemma EndShared(c: Charset, u: string, u': string, z: string, t: Search, i: nat, d: int)
    requires Blanks(c) && Lines.Closed(u) && Lines.Closed(u') && c.StripRight(z) != ""
    requires var j := |Lines.Split(u)|; i < j && i < j + d == |Lines.Split(u')|
    requires Outline.Kept(Lines.Split(u + z), Lines.Split(u' + z), t.title, t.heading, i, |Lines.Split(u)|, d)
    ensures EndKept(c, u + z, t) <==> EndKept(c, u' + z, t)
  {
    EndParts(c, z);
    var r, k := c.StripRight(z), LastLine(c, z);
    EndSharedParts(c, u, u', z, z[..k], r[k..], z[|r|..], t, i, d);
  }

  lemma EndSharedParts(c: Charset, u: string, u': string, z: string, head: string, last: string, w: string, t: Search,
                       i: nat, d: int)
    requires Blanks(c) && Lines.Closed(u) && Lines.Closed(u') && z == head + (last + w) && Parts(c, head, last, w)
    requires var j := |Lines.Split(u)|; i < j && i < j + d == |Lines.Split(u')|
    requires Outline.Kept(Lines.Split(u + z), Lines.Split(u' + z), t.title, t.heading, i, |Lines.Split(u)|, d)
    ensures EndKept(c, u + z, t) <==> EndKept(c, u' + z, t)
  {
    PartsBehind(c, u, head, last, w, t);
    PartsBehind(c, u', head, last, w, t);
    KeptLookups(u + z, u' + z, t, i, |Lines.Split(u)|, d);
    SplitBehind(u, head, last + w);
    SplitBehind(u', head, last + w);
  }

  lemma PartsBehind(c: Charset, u: string, head: string, last: string, w: string, t: Search)
    requires Blanks(c) && Lines.Closed(u) && Parts(c, head, last, w)
    ensures EndKept(c, u + (head + (last + w)), t) <==> KeptAtEnd(c, u + head, last, w, t)
    ensures u + (head + (last + w)) == (u + head) + (last + w)
  {
    Lines.Associative(u, head, last + w);
    assert Lines.Closed(u + head);
    EndIsKept(c, u + (head + (last + w)), u + head, last, w, t);
  }

  lemma SplitBehind(u: string, head: string, rest: string)
    requires Lines.Closed(u) && Lines.Closed(head)
    ensures |Lines.Split(u + head)| == |Lines.Split(u)| + |Lines.Split(head)|
    ensures |Lines.Split(u + (head + rest))| == |Lines.Split(u)| + |Lines.Split(head)| + |Lines.Split(rest)|
  {
    Lines.SplitConcat(u, head);
    Lines.SplitConcat(u, head + rest);
    Lines.SplitConcat(head, rest);
  }
}
