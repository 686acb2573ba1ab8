/** Text as a list of lines that keep their newline, and back. */
module Lines {
  /** Splits after every `\n`; only the last line may lack one. */
  function Split(s: string): (ls: seq<string>)
    ensures s == "" <==> ls == []
  {
    if s == "" then []
    else if s[0] == '\n' then ["\n"] + Split(s[1..])
    else Glue(s[0], Split(s[1..]))
  }

  /** One more character in front of the first line. */
  function Glue(c: char, ls: seq<string>): (r: seq<string>)
    ensures r != []
  {
    if ls == [] then [[c]] else [[c] + ls[0]] + ls[1..]
  }

  lemma GlueConcat(c: char, a: seq<string>, b: seq<string>)
    requires a != []
    ensures Glue(c, a + b) == Glue(c, a) + b
  {
    assert (a + b)[1..] == a[1..] + b;
  }

  function Flat(ls: seq<string>): string {
    if ls == [] then "" else ls[0] + Flat(ls[1..])
  }

  predicate Closed(s: string) {
    s != "" ==> s[|s| - 1] == '\n'
  }

  /** One line: not empty, and a newline only at its end. */
  predicate IsLine(l: string) {
    l != "" && forall i :: 0 <= i < |l| - 1 ==> l[i] != '\n'
  }

  predicate AreLines(ls: seq<string>) {
    && (forall i :: 0 <= i < |ls| ==> IsLine(ls[i]))
    && (forall i :: 0 <= i < |ls| - 1 ==> Closed(ls[i]))
  }

  /** The text of a line, as `$` sees it. */
  function Text(l: string): string {
    if l != "" && l[|l| - 1] == '\n' then l[..|l| - 1] else l
  }

  lemma {:induction false} FlatSplit(s: string)
    ensures Flat(Split(s)) == s
  {
    if s != "" {
      FlatSplit(s[1..]);
      assert s == [s[0]] + s[1..];
      var rest := Split(s[1..]);
      if s[0] != '\n' && rest != [] {
        assert Flat(rest) == rest[0] + Flat(rest[1..]);
      }
    }
  }

  lemma {:induction false} SplitLines(s: string)
    ensures AreLines(Split(s))
    ensures Closed(s) && s != "" ==> Closed(Split(s)[|Split(s)| - 1])
  {
    if s != "" {
      SplitLines(s[1..]);
      var ls, rest := Split(s), Split(s[1..]);
      if s[0] == '\n' {
        assert forall i :: 0 < i < |ls| ==> ls[i] == rest[i - 1];
      } else if rest != [] {
        assert IsLine([s[0]] + rest[0]);
        assert forall i :: 0 < i < |ls| ==> ls[i] == rest[i];
      }
    }
  }

  /** A closed text splits independently of what follows it. */
  lemma {:induction false} SplitConcat(a: string, b: string)
    requires Closed(a)
    ensures Split(a + b) == Split(a) + Split(b)
  {
    if a == "" {
      assert a + b == b;
    } else {
      assert (a + b)[1..] == a[1..] + b && (a + b)[0] == a[0];
      SplitConcat(a[1..], b);
      if a[0] == '\n' {
        Associative(["\n"], Split(a[1..]), Split(b));
      } else {
        GlueConcat(a[0], Split(a[1..]), Split(b));
      }
    }
  }

  /** One line at the front. */
  lemma {:induction false} SplitLine(l: string)
    requires IsLine(l)
    ensures Split(l) == [l]
  {
    if |l| > 1 {
      assert l[0] != '\n';
      SplitLine(l[1..]);
      assert Split(l[1..]) == [l[1..]];
      assert l == [l[0]] + l[1..];
    } else {
      assert l[1..] == "" && l == [l[0]];
    }
  }

  /** Where the open last line of a text begins. */
  function LastBreak(s: string): (k: nat)
    ensures k <= |s| && Closed(s[..k]) && '\n' !in s[k..]
  {
    if Closed(s) then |s|
    else
      var k := LastBreak(s[..|s| - 1]);
      assert s[..|s| - 1][..k] == s[..k] && s[k..] == s[..|s| - 1][k..] + [s[|s| - 1]];
      k
  }

  /** An open text is a closed one and a last line. */
  lemma SplitTail(a: string, t: string)
    requires Closed(a) && IsLine(t)
    ensures Split(a + t) == Split(a) + [t]
  {
    SplitConcat(a, t);
    SplitLine(t);
  }

  /** Closing a text changes only where its last line ends. */
  lemma SplitClosing(s: string)
    ensures Closed(s) ==> Split(s + "\n") == Split(s) + ["\n"]
    ensures !Closed(s) ==>
      var a, t := s[..LastBreak(s)], s[LastBreak(s)..];
      && Split(s) == Split(a) + [t] && Split(s + "\n") == Split(a) + [t + "\n"]
      && Text(t + "\n") == Text(t) == t
  {
    if Closed(s) {
      SplitTail(s, "\n");
    } else {
      var a, t := s[..LastBreak(s)], s[LastBreak(s)..];
      assert s == a + t && s + "\n" == a + (t + "\n");
      assert t != "" && forall i :: 0 <= i < |t| ==> t[i] != '\n';
      SplitTail(a, t);
      SplitTail(a, t + "\n");
    }
  }

  lemma {:induction false} FlatConcat(a: seq<string>, b: seq<string>)
    ensures Flat(a + b) == Flat(a) + Flat(b)
  {
    if a == [] {
      assert a + b == b;
    } else {
      FlatConcat(a[1..], b);
      assert (a + b)[1..] == a[1..] + b && (a + b)[0] == a[0];
      assert a[0] + (Flat(a[1..]) + Flat(b)) == (a[0] + Flat(a[1..])) + Flat(b);
    }
  }

  /** Splitting undoes flattening. */
  lemma {:induction false} SplitFlat(ls: seq<string>)
    requires AreLines(ls)
    ensures Split(Flat(ls)) == ls
  {
    if |ls| == 1 {
      SplitLine(ls[0]);
      assert Flat(ls) == ls[0] + "" == ls[0];
    } else if ls != [] {
      SplitFlat(ls[1..]);
      SplitLine(ls[0]);
      SplitConcat(ls[0], Flat(ls[1..]));
    }
  }

  /** Where the first i lines end, and what lies between two such offsets. */
  lemma FlatSlices(ls: seq<string>, i: nat, j: nat)
    requires i <= j <= |ls|
    ensures |Flat(ls[..i])| <= |Flat(ls[..j])| <= |Flat(ls)|
    ensures Flat(ls)[..|Flat(ls[..i])|] == Flat(ls[..i])
    ensures Flat(ls)[|Flat(ls[..i])|..|Flat(ls[..j])|] == Flat(ls[i..j])
    ensures Flat(ls)[|Flat(ls[..j])|..] == Flat(ls[j..])
  {
    FlatConcat(ls[..i], ls[i..j]);
    assert ls[..i] + ls[i..j] == ls[..j];
    FlatConcat(ls[..j], ls[j..]);
    assert ls[..j] + ls[j..] == ls;
  }

  lemma {:induction false} FlatClosed(ls: seq<string>)
    requires forall i :: 0 <= i < |ls| ==> Closed(ls[i])
    ensures Closed(Flat(ls))
  {
    if ls != [] {
      FlatClosed(ls[1..]);
    }
  }

  lemma Associative<T>(a: seq<T>, b: seq<T>, c: seq<T>)
    ensures a + b + c == a + (b + c)
  {
  }

  lemma SplitTwo(block: string, post: seq<string>)
    requires AreLines(post) && Closed(block)
    ensures Split(block + Flat(post)) == Split(block) + post
  {
    SplitFlat(post);
    SplitConcat(block, Flat(post));
  }

  /** Lines, a closed text, and lines again. */
  lemma SplitThree(pre: seq<string>, block: string, post: seq<string>)
    requires AreLines(pre) && AreLines(post) && Closed(block)
    requires forall i :: 0 <= i < |pre| ==> Closed(pre[i])
    ensures Split(Flat(pre) + block + Flat(post)) == pre + Split(block) + post
  {
    var a, rest, ls := Flat(pre), block + Flat(post), Split(block);
    SplitTwo(block, post);
    FlatClosed(pre);
    SplitFlat(pre);
    SplitConcat(a, rest);
    Associative(a, block, Flat(post));
    Associative(pre, ls, post);
  }
}
