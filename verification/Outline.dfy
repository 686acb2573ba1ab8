/**
  Sections of a list of lines, for any notion of a heading and of the title looked for: where a
  section is, and what exchanging the lines of one section does to it and to the others.
*/
module Outline {
  type Test = string -> bool

  predicate Without(ls: seq<string>, test: Test) {
    forall k :: 0 <= k < |ls| ==> !test(ls[k])
  }

  /** The first line at or after k that passes. */
  function Next(ls: seq<string>, test: Test, k: nat): (j: nat)
    requires k <= |ls|
    ensures k <= j <= |ls|
    decreases |ls| - k
  {
    if k == |ls| || test(ls[k]) then k else Next(ls, test, k + 1)
  }

  lemma {:induction false} NextIsFirst(ls: seq<string>, test: Test, k: nat)
    requires k <= |ls|
    ensures forall i :: k <= i < Next(ls, test, k) ==> !test(ls[i])
    ensures Next(ls, test, k) < |ls| ==> test(ls[Next(ls, test, k)])
    decreases |ls| - k
  {
    if k < |ls| && !test(ls[k]) {
      NextIsFirst(ls, test, k + 1);
    }
  }

  /** The title's line and the line after the section. */
  datatype Place = Nowhere | Ambiguous | At(first: nat, after: nat)

  function Locate(ls: seq<string>, title: Test, heading: Test): (p: Place)
    ensures p.At? ==> p.first < p.after <= |ls|
  {
    var i := Next(ls, title, 0);
    if i == |ls| then Nowhere
    else if Next(ls, title, i + 1) < |ls| then Ambiguous
    else At(i, Next(ls, heading, i + 1))
  }

  /** The section at (i, j): the only title, then no heading up to the next one. */
  predicate SectionAt(ls: seq<string>, title: Test, heading: Test, i: nat, j: nat) {
    && i < j <= |ls| && title(ls[i])
    && (forall k :: 0 <= k < |ls| && k != i ==> !title(ls[k]))
    && (forall k :: i < k < j ==> !heading(ls[k]))
    && (j < |ls| ==> heading(ls[j]))
  }

  predicate Two(ls: seq<string>, title: Test) {
    exists a, b :: 0 <= a < b < |ls| && title(ls[a]) && title(ls[b])
  }

  /** What the three answers mean. */
  lemma LocateMeans(ls: seq<string>, title: Test, heading: Test, i: nat, j: nat)
    ensures Locate(ls, title, heading).Nowhere? <==> Without(ls, title)
    ensures Locate(ls, title, heading).Ambiguous? <==> Two(ls, title)
    ensures Locate(ls, title, heading) == At(i, j) <==> SectionAt(ls, title, heading, i, j)
  {
    var a := Next(ls, title, 0);
    NextIsFirst(ls, title, 0);
    if a < |ls| {
      NextIsFirst(ls, title, a + 1);
      NextIsFirst(ls, heading, a + 1);
      var b := Next(ls, title, a + 1);
      if b < |ls| {
        assert title(ls[a]) && title(ls[b]);
      }
    }
  }

  /** A section of the title's own: its line, then no heading. */
  predicate Own(block: seq<string>, title: Test, heading: Test) {
    block != [] && title(block[0]) && forall k :: 1 <= k < |block| ==> !heading(block[k])
  }

  /** A section of another title. */
  predicate Foreign(block: seq<string>, title: Test, heading: Test) {
    && block != [] && heading(block[0]) && !title(block[0])
    && (forall k :: 1 <= k < |block| ==> !heading(block[k]))
  }

  predicate StartsSection(post: seq<string>, heading: Test) {
    post != [] ==> heading(post[0])
  }

  function Splice(ls: seq<string>, i: nat, j: nat, block: seq<string>): seq<string>
    requires i <= j <= |ls|
  {
    ls[..i] + block + ls[j..]
  }

  lemma SpliceIndices(ls: seq<string>, i: nat, j: nat, block: seq<string>)
    requires i <= j <= |ls|
    ensures var ls' := Splice(ls, i, j, block);
      && |ls'| == |ls| - (j - i) + |block|
      && (forall k :: 0 <= k < i ==> ls'[k] == ls[k])
      && (forall k :: i <= k < i + |block| ==> ls'[k] == block[k - i])
      && (forall k :: j <= k < |ls| ==> ls'[k - j + i + |block|] == ls[k])
      && (forall k :: i + |block| <= k < |ls'| ==> ls'[k] == ls[k + j - i - |block|])
  {
  }

  lemma LocatedSplit(ls: seq<string>, title: Test, heading: Test)
    requires Locate(ls, title, heading).At?
    ensures var p := Locate(ls, title, heading);
      && Without(ls[..p.first], title) && Without(ls[p.after..], title) && StartsSection(ls[p.after..], heading)
      && Own(ls[p.first..p.after], title, heading)
  {
    var p := Locate(ls, title, heading);
    LocateMeans(ls, title, heading, p.first, p.after);
  }

  /** A block of the title's own between lines that do not have it is the section. */
  lemma BlockLocated(pre: seq<string>, block: seq<string>, post: seq<string>, title: Test, heading: Test)
    requires forall l :: title(l) ==> heading(l)
    requires Without(pre, title) && Without(post, title) && StartsSection(post, heading) && Own(block, title, heading)
    ensures Locate(pre + block + post, title, heading) == At(|pre|, |pre| + |block|)
  {
    var ls := pre + block + post;
    assert forall k :: 0 <= k < |pre| ==> ls[k] == pre[k];
    assert forall k :: |pre| <= k < |pre| + |block| ==> ls[k] == block[k - |pre|];
    assert forall k :: |pre| + |block| <= k < |ls| ==> ls[k] == post[k - |pre| - |block|];
    LocateMeans(ls, title, heading, |pre|, |pre| + |block|);
  }

  /** One title's section when another section's lines are exchanged: the same lines, moved along. */
  predicate Kept(ls: seq<string>, ls': seq<string>, title: Test, heading: Test, i: nat, j: nat, d: int) {
    match Locate(ls, title, heading)
    case Nowhere => Locate(ls', title, heading).Nowhere?
    case Ambiguous => Locate(ls', title, heading).Ambiguous?
    case At(a, z) =>
      && (z <= i || j <= a)
      && var e := if z <= i then 0 else d;
         && 0 <= a + e
         && Locate(ls', title, heading) == At(a + e, z + e)
         && ls'[a + e + 1..z + e] == ls[a + 1..z]
  }

  lemma OtherMoved(ls: seq<string>, i: nat, j: nat, block: seq<string>, title: Test, heading: Test, a: nat, z: nat)
    requires forall l :: title(l) ==> heading(l)
    requires i < j <= |ls| && Foreign(ls[i..j], title, heading) && Foreign(block, title, heading)
    requires SectionAt(ls, title, heading, a, z)
    ensures z <= i || j <= a
    ensures var e := if z <= i then 0 else |block| - (j - i);
      0 <= a + e && 0 <= z + e && SectionAt(Splice(ls, i, j, block), title, heading, a + e, z + e)
  {
    SpliceIndices(ls, i, j, block);
    assert forall k :: i <= k < j ==> ls[k] == ls[i..j][k - i];
    assert !(i <= a < j);
    assert !(i < z < j);
  }

  lemma KeptLines(ls: seq<string>, i: nat, j: nat, block: seq<string>, a: nat, z: nat)
    requires i < j <= |ls| && a < z <= |ls| && (z <= i || j <= a)
    ensures var e := if z <= i then 0 else |block| - (j - i);
      && 0 <= a + e < z + e <= |Splice(ls, i, j, block)|
      && Splice(ls, i, j, block)[a + e + 1..z + e] == ls[a + 1..z]
  {
    SpliceIndices(ls, i, j, block);
  }

  lemma OtherMissing(ls: seq<string>, i: nat, j: nat, block: seq<string>, title: Test, heading: Test)
    requires forall l :: title(l) ==> heading(l)
    requires i < j <= |ls| && Foreign(ls[i..j], title, heading) && Foreign(block, title, heading)
    ensures Without(ls, title) ==> Without(Splice(ls, i, j, block), title)
    ensures Two(ls, title) ==> Two(Splice(ls, i, j, block), title)
  {
    var ls' := Splice(ls, i, j, block);
    SpliceIndices(ls, i, j, block);
    assert forall k :: i <= k < j ==> ls[k] == ls[i..j][k - i];
    if Two(ls, title) {
      var a, b :| 0 <= a < b < |ls| && title(ls[a]) && title(ls[b]);
      var a' := if a < i then a else a - j + i + |block|;
      var b' := if b < i then b else b - j + i + |block|;
      assert title(ls'[a']) && title(ls'[b']);
    }
  }

  lemma OtherPlace(ls: seq<string>, i: nat, j: nat, block: seq<string>, title: Test, heading: Test)
    requires forall l :: title(l) ==> heading(l)
    requires i < j <= |ls| && Foreign(ls[i..j], title, heading) && Foreign(block, title, heading)
    requires Locate(ls, title, heading).At?
    ensures var p := Locate(ls, title, heading);
      && (p.after <= i || j <= p.first)
      && var e := if p.after <= i then 0 else |block| - (j - i);
         0 <= p.first + e && Locate(Splice(ls, i, j, block), title, heading) == At(p.first + e, p.after + e)
  {
    var p := Locate(ls, title, heading);
    var e := if p.after <= i then 0 else |block| - (j - i);
    LocateMeans(ls, title, heading, p.first, p.after);
    OtherMoved(ls, i, j, block, title, heading, p.first, p.after);
    LocateMeans(Splice(ls, i, j, block), title, heading, p.first + e, p.after + e);
  }

  /** Exchanging one foreign section for another. */
  lemma OtherKept(ls: seq<string>, i: nat, j: nat, block: seq<string>, title: Test, heading: Test)
    requires forall l :: title(l) ==> heading(l)
    requires i < j <= |ls| && Foreign(ls[i..j], title, heading) && Foreign(block, title, heading)
    ensures Kept(ls, Splice(ls, i, j, block), title, heading, i, j, |block| - (j - i))
  {
    var p := Locate(ls, title, heading);
    if p.At? {
      OtherPlace(ls, i, j, block, title, heading);
      KeptLines(ls, i, j, block, p.first, p.after);
    } else {
      LocateMeans(ls, title, heading, 0, 0);
      OtherMissing(ls, i, j, block, title, heading);
      LocateMeans(Splice(ls, i, j, block), title, heading, 0, 0);
    }
  }

  lemma SpliceCommutes(ls: seq<string>, i1: nat, j1: nat, b1: seq<string>, i2: nat, j2: nat, b2: seq<string>, i3: nat,
                       j3: nat)
    requires i1 <= j1 <= i2 <= j2 <= |ls| && i3 - i2 == j3 - j2 == |b1| - (j1 - i1)
    ensures j1 <= |Splice(ls, i2, j2, b2)| && i3 <= j3 <= |Splice(ls, i1, j1, b1)|
    ensures Splice(Splice(ls, i1, j1, b1), i3, j3, b2) == Splice(Splice(ls, i2, j2, b2), i1, j1, b1)
  {
    var one, two := Splice(ls, i1, j1, b1), Splice(ls, i2, j2, b2);
    assert one[..i3] == ls[..i1] + b1 + ls[j1..i2];
    assert one[j3..] == ls[j2..];
    assert two[..i1] == ls[..i1];
    assert two[j1..] == ls[j1..i2] + b2 + ls[j2..];
  }

  /** The lines of a text that was closed before something was appended: the same to every test, then plain ones. */
  predicate Closes(ls: seq<string>, ls': seq<string>, test: Test) {
    && |ls| <= |ls'|
    && (forall k :: 0 <= k < |ls| ==> test(ls'[k]) == test(ls[k]))
    && (forall k :: |ls| <= k < |ls'| ==> !test(ls'[k]))
  }

  /**
    Appending lines that start with a heading and have no such title: every other section stays where
    it is, and the last one gains the closing lines.
  */
  lemma AppendedKept(ls: seq<string>, closed: seq<string>, block: seq<string>, title: Test, heading: Test)
    requires forall l :: title(l) ==> heading(l)
    requires Closes(ls, closed, title) && Closes(ls, closed, heading)
    requires block != [] && heading(block[0]) && Without(block, title)
    ensures match Locate(ls, title, heading)
      case Nowhere => Locate(closed + block, title, heading).Nowhere?
      case Ambiguous => Locate(closed + block, title, heading).Ambiguous?
      case At(a, z) => Locate(closed + block, title, heading) == At(a, if z < |ls| then z else |closed|)
  {
    var ls', p := closed + block, Locate(ls, title, heading);
    assert forall k :: |closed| <= k < |ls'| ==> ls'[k] == block[k - |closed|];
    if p.At? {
      LocateMeans(ls, title, heading, p.first, p.after);
      LocateMeans(ls', title, heading, p.first, if p.after < |ls| then p.after else |closed|);
    } else {
      LocateMeans(ls, title, heading, 0, 0);
      if p.Ambiguous? {
        var a, b :| 0 <= a < b < |ls| && title(ls[a]) && title(ls[b]);
        assert title(ls'[a]) && title(ls'[b]);
      }
      LocateMeans(ls', title, heading, 0, 0);
    }
  }
}
