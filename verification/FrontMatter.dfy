/** Documents with a metadata block: `dump` writes `key: value` lines between `---` fences, `parse` reads them. */
module FrontMatter {
  import opened Types

  /** Which characters Python strips, and which ones `splitlines` breaks at. */
  datatype Charset = Charset(space: char -> bool, lineEnd: char -> bool)
  {
    ghost predicate Lawful() {
      && space(' ') && space('\n') && !space(':') && !space('-') && !space('[') && !space(']') && !space('#')
      && lineEnd('\n') && !lineEnd(' ') && !lineEnd(':')
    }

    function StripLeft(s: string): string {
      if s != "" && space(s[0]) then StripLeft(s[1..]) else s
    }

    function StripRight(s: string): string {
      if s != "" && space(s[|s| - 1]) then StripRight(s[..|s| - 1]) else s
    }

    function Strip(s: string): string {
      StripRight(StripLeft(s))
    }

    predicate Trimmed(s: string) {
      s != "" ==> !space(s[0]) && !space(s[|s| - 1])
    }

    predicate OneLine(s: string) {
      forall i :: 0 <= i < |s| ==> !lineEnd(s[i])
    }

    /** Where the first line ends. */
    function FirstBreak(s: string): (n: nat)
      ensures n <= |s|
    {
      if s == "" || lineEnd(s[0]) then 0 else 1 + FirstBreak(s[1..])
    }

    /** `str.splitlines()`: CRLF is one break, and a final break opens no further line. */
    function SplitLines(s: string): seq<string>
      decreases |s|
    {
      if s == "" then []
      else
        var n := FirstBreak(s);
        if n == |s| then [s]
        else
          var width := if s[n] == '\r' && n + 1 < |s| && s[n + 1] == '\n' then 2 else 1;
          [s[..n]] + SplitLines(s[n + width..])
    }
  }

  type Meta = seq<(string, string)>  // a dict, in insertion order

  predicate Distinct(fm: Meta) {
    forall i, j :: 0 <= i < j < |fm| ==> fm[i].0 != fm[j].0
  }

  /** `fm[k] = v`. */
  function Put(fm: Meta, k: string, v: string): Meta {
    if fm == [] then [(k, v)]
    else if fm[0].0 == k then [(k, v)] + fm[1..]
    else [fm[0]] + Put(fm[1..], k, v)
  }

  function Colon(line: string): (n: nat)
    ensures n <= |line|
    ensures forall i :: 0 <= i < n ==> line[i] != ':'
    ensures n < |line| ==> line[n] == ':'
  {
    if line == "" || line[0] == ':' then 0 else 1 + Colon(line[1..])
  }

  /** One line of the metadata: ignored without a colon, else stripped on both sides of the first one. */
  function ReadLine(c: Charset, line: string, fm: Meta): Meta {
    var n := Colon(line);
    if n == |line| then fm else Put(fm, c.Strip(line[..n]), c.Strip(line[n + 1..]))
  }

  function ReadLines(c: Charset, lines: seq<string>): Meta {
    if lines == [] then []
    else ReadLine(c, lines[|lines| - 1], ReadLines(c, lines[..|lines| - 1]))
  }

  const OPEN := "---\n"
  const CLOSE := "\n---\n"

  predicate FenceAt(s: string, k: int) {
    && 0 <= k && k + 5 <= |s|
    && s[k] == '\n' && s[k + 1] == '-' && s[k + 2] == '-' && s[k + 3] == '-' && s[k + 4] == '\n'
  }

  /** The first closing fence from k on. */
  function Fence(s: string, k: nat): (n: Option<nat>)
    ensures n.Some? ==> k <= n.value && FenceAt(s, n.value)
    decreases |s| - k
  {
    if k >= |s| then None else if FenceAt(s, k) then Some(k) else Fence(s, k + 1)
  }

  /** `parse`: text without fences is all body. */
  function Parse(c: Charset, text: string): (Meta, string) {
    if !(OPEN <= text) then ([], text)
    else
      var n := Fence(text, 4);
      if n.None? then ([], text)
      else (ReadLines(c, c.SplitLines(text[4..n.value])), text[n.value + 5..])
  }

  function MetaLines(fm: Meta): seq<string> {
    seq(|fm|, i requires 0 <= i < |fm| => fm[i].0 + ": " + fm[i].1)
  }

  function Join(lines: seq<string>): string {
    if lines == [] then "" else if |lines| == 1 then lines[0] else lines[0] + "\n" + Join(lines[1..])
  }

  /** `dump`. */
  function Dump(c: Charset, fm: Meta, body: string): string {
    OPEN + (Join(MetaLines(fm)) + (CLOSE + (c.Strip(body) + "\n")))
  }

  /** Metadata a line can carry: trimmed, on one line, and no colon in the key. */
  predicate Sound(c: Charset, fm: Meta) {
    && Distinct(fm)
    && forall i :: 0 <= i < |fm| ==>
         c.Trimmed(fm[i].0) && c.Trimmed(fm[i].1) && c.OneLine(fm[i].0) && c.OneLine(fm[i].1) && ':' !in fm[i].0
  }

  // Parse undoes dump

  lemma StripTrimmed(c: Charset, s: string)
    requires c.Lawful() && c.Trimmed(s)
    ensures c.Strip(s) == s && c.Strip(" " + s) == s
  {
    assert (" " + s)[1..] == s;
  }

  lemma {:induction false} FirstBreakOfLine(c: Charset, l: string, rest: string)
    requires c.Lawful() && c.OneLine(l)
    ensures c.FirstBreak(l + "\n" + rest) == |l| && c.FirstBreak(l) == |l|
  {
    var s := l + "\n" + rest;
    if l == "" {
      assert s[0] == '\n';
    } else {
      assert s[0] == l[0] && s[1..] == l[1..] + "\n" + rest;
      FirstBreakOfLine(c, l[1..], rest);
    }
  }

  /** Splitting undoes joining for lines without breaks, none of them empty. */
  lemma {:induction false} SplitJoin(c: Charset, lines: seq<string>)
    requires c.Lawful() && forall i :: 0 <= i < |lines| ==> c.OneLine(lines[i]) && lines[i] != ""
    ensures c.SplitLines(Join(lines)) == lines
  {
    if |lines| == 1 {
      FirstBreakOfLine(c, lines[0], "");
    } else if lines != [] {
      var l, rest, s := lines[0], Join(lines[1..]), Join(lines);
      FirstBreakOfLine(c, l, rest);
      assert s[|l|] == '\n' && s[..|l|] == l && s[|l| + 1..] == rest;
      SplitJoin(c, lines[1..]);
    }
  }

  lemma {:induction false} FenceIs(s: string, k: nat, n: nat)
    requires k <= n && FenceAt(s, n) && forall j :: k <= j < n ==> !FenceAt(s, j)
    ensures Fence(s, k) == Some(n)
    decreases n - k
  {
    if k < n {
      FenceIs(s, k + 1, n);
    }
  }

  predicate MetaLine(line: string) {
    ':' in line && '\n' !in line
  }

  /** A line with a colon in it is not the middle of a fence. */
  lemma NoFenceBefore(line: string, s: string, k: nat)
    requires MetaLine(line) && k + 1 + |line| <= |s| && s[k + 1..k + 1 + |line|] == line
    ensures !FenceAt(s, k)
  {
    var i :| 0 <= i < |line| && line[i] == ':';
    assert s[k + 1 + i] == ':';
    if |line| > 3 {
      assert s[k + 4] == line[3] && line[3] in line;
    }
  }

  lemma JoinTail(lines: seq<string>, tail: string)
    requires |lines| > 1
    ensures var s, l := Join(lines) + tail, lines[0];
      && |Join(lines)| == |l| + 1 + |Join(lines[1..])|
      && s[..|l|] == l && s[|l|] == '\n' && s[|l| + 1..] == Join(lines[1..]) + tail
  {
  }

  /** No fence among the metadata lines. */
  lemma {:induction false} NoFenceInLines(lines: seq<string>, tail: string, j: nat)
    requires lines != [] && forall i :: 0 <= i < |lines| ==> MetaLine(lines[i])
    requires j < |Join(lines)|
    ensures !FenceAt(Join(lines) + tail, j)
  {
    var s, l := Join(lines) + tail, lines[0];
    if |lines| == 1 {
      assert s[j] == l[j] && l[j] in l;
    } else {
      JoinTail(lines, tail);
      var rest := s[|l| + 1..];
      if j < |l| {
        assert s[j] == l[j] && l[j] in l;
      } else if j == |l| {
        FirstLine(lines[1..], tail);
        assert s[j + 1..j + 1 + |lines[1]|] == rest[..|lines[1]|];
        NoFenceBefore(lines[1], s, j);
      } else {
        NoFenceInLines(lines[1..], tail, j - |l| - 1);
        assert forall x :: 0 <= x < |rest| ==> rest[x] == s[|l| + 1 + x];
      }
    }
  }

  lemma FirstLine(lines: seq<string>, tail: string)
    requires lines != []
    ensures |lines[0]| <= |Join(lines)| && (Join(lines) + tail)[..|lines[0]|] == lines[0]
  {
  }

  /** `fm.get(k)`. */
  function Field(fm: Meta, k: string): Option<string> {
    if fm == [] then None else if fm[0].0 == k then Some(fm[0].1) else Field(fm[1..], k)
  }

  lemma {:induction false} FieldOfPut(fm: Meta, k: string, v: string, key: string)
    ensures Field(Put(fm, k, v), key) == if key == k then Some(v) else Field(fm, key)
  {
    if fm != [] && fm[0].0 != k {
      FieldOfPut(fm[1..], k, v, key);
      assert Put(fm, k, v)[1..] == Put(fm[1..], k, v);
    } else if fm != [] {
      assert Put(fm, k, v)[1..] == fm[1..];
    }
  }

  /** The line sets this field. */
  predicate Sets(c: Charset, line: string, k: string) {
    Colon(line) < |line| && c.Strip(line[..Colon(line)]) == k
  }

  /** What the last line that sets the field sets it to. */
  function LastSet(c: Charset, lines: seq<string>, k: string): Option<string> {
    if lines == [] then None
    else
      var line := lines[|lines| - 1];
      if Sets(c, line, k) then Some(c.Strip(line[Colon(line) + 1..])) else LastSet(c, lines[..|lines| - 1], k)
  }

  /** The metadata lines say of a field what the last line that sets it says; a line without a colon sets none. */
  lemma {:induction false} LastLineCounts(c: Charset, lines: seq<string>, k: string)
    ensures Field(ReadLines(c, lines), k) == LastSet(c, lines, k)
  {
    if lines != [] {
      var n := |lines| - 1;
      var line, before := lines[n], ReadLines(c, lines[..n]);
      LastLineCounts(c, lines[..n], k);
      if Colon(line) < |line| {
        FieldOfPut(before, c.Strip(line[..Colon(line)]), c.Strip(line[Colon(line) + 1..]), k);
      }
    }
  }

  predicate Lacks(fm: Meta, k: string) {
    forall i :: 0 <= i < |fm| ==> fm[i].0 != k
  }

  lemma {:induction false} PutNew(fm: Meta, k: string, v: string)
    requires Lacks(fm, k)
    ensures Put(fm, k, v) == fm + [(k, v)]
  {
    if fm != [] {
      PutNew(fm[1..], k, v);
      assert fm == [fm[0]] + fm[1..];
    }
  }

  /** `fm[k] = v` changes the value of k where it is, or adds k at the end. */
  lemma {:induction false} PutInPlace(fm: Meta, k: string, v: string)
    ensures |Put(fm, k, v)| == |fm| + if Lacks(fm, k) then 1 else 0
    ensures forall i :: 0 <= i < |fm| ==> Put(fm, k, v)[i].0 == fm[i].0 && (fm[i].0 != k ==> Put(fm, k, v)[i] == fm[i])
    ensures (k, v) in Put(fm, k, v)
  {
    if fm != [] && fm[0].0 != k {
      PutInPlace(fm[1..], k, v);
      assert Put(fm, k, v)[1..] == Put(fm[1..], k, v);
      assert Lacks(fm, k) <==> Lacks(fm[1..], k);
    } else if fm != [] {
      assert !Lacks(fm, k);
    }
  }

  lemma ReadOne(c: Charset, k: string, v: string)
    requires c.Lawful() && c.Trimmed(k) && c.Trimmed(v) && ':' !in k
    ensures var line := k + ": " + v;
      var n := Colon(line);
      n < |line| && c.Strip(line[..n]) == k && c.Strip(line[n + 1..]) == v
  {
    var line := k + ": " + v;
    assert forall i :: 0 <= i < |k| ==> line[i] == k[i] && k[i] in k;
    assert line[|k|] == ':';
    assert line[..|k|] == k && line[|k| + 1..] == " " + v;
    StripTrimmed(c, k);
    StripTrimmed(c, v);
  }

  lemma ReadStep(c: Charset, before: Meta, k: string, v: string)
    requires c.Lawful() && c.Trimmed(k) && c.Trimmed(v) && ':' !in k && Lacks(before, k)
    ensures ReadLine(c, k + ": " + v, before) == before + [(k, v)]
  {
    ReadOne(c, k, v);
    PutNew(before, k, v);
  }

  lemma {:induction false} ReadMeta(c: Charset, fm: Meta)
    requires c.Lawful() && Sound(c, fm)
    ensures ReadLines(c, MetaLines(fm)) == fm
  {
    if fm != [] {
      var n := |fm| - 1;
      assert MetaLines(fm)[..n] == MetaLines(fm[..n]);
      ReadMeta(c, fm[..n]);
      ReadStep(c, fm[..n], fm[n].0, fm[n].1);
      assert fm[..n] + [fm[n]] == fm;
    }
  }

  lemma MetaLinesAreLines(c: Charset, fm: Meta, i: nat)
    requires c.Lawful() && Sound(c, fm) && i < |fm|
    ensures var l := MetaLines(fm)[i]; MetaLine(l) && c.OneLine(l) && l != ""
  {
    var (k, v) := fm[i];
    var l := MetaLines(fm)[i];
    assert l[|k|] == ':';
    assert forall j :: 0 <= j < |k| ==> l[j] == k[j];
    assert forall j :: 0 <= j < |v| ==> l[|k| + 2 + j] == v[j];
    assert c.OneLine(l);
  }

  /** Where the parts of a dumped document are. */
  lemma DumpParts(c: Charset, fm: Meta, body: string)
    ensures var text, n := Dump(c, fm, body), 4 + |Join(MetaLines(fm))|;
      && OPEN <= text && n + 5 <= |text| && FenceAt(text, n)
      && text[4..n] == Join(MetaLines(fm)) && text[n + 5..] == c.Strip(body) + "\n"
  {
    var head, rest := Join(MetaLines(fm)), c.Strip(body) + "\n";
    var text := OPEN + (head + (CLOSE + rest));
    var n := 4 + |head|;
    assert forall i :: 0 <= i < 5 ==> text[n + i] == CLOSE[i];
  }

  lemma FenceShift(pre: string, s: string, j: nat)
    ensures FenceAt(pre + s, |pre| + j) == FenceAt(s, j)
  {
    assert forall x :: 0 <= x < |s| ==> (pre + s)[|pre| + x] == s[x];
  }

  /** The metadata block ends where the writer ended it. */
  lemma DumpFence(c: Charset, fm: Meta, body: string)
    requires c.Lawful() && Sound(c, fm)
    ensures Fence(Dump(c, fm, body), 4) == Some(4 + |Join(MetaLines(fm))|)
  {
    var text, lines := Dump(c, fm, body), MetaLines(fm);
    var tail := CLOSE + (c.Strip(body) + "\n");
    DumpParts(c, fm, body);
    forall j | 4 <= j < 4 + |Join(lines)|
      ensures !FenceAt(text, j)
    {
      forall i | 0 <= i < |lines|
        ensures MetaLine(lines[i])
      {
        MetaLinesAreLines(c, fm, i);
      }
      NoFenceInLines(lines, tail, j - 4);
      FenceShift(OPEN, Join(lines) + tail, j - 4);
    }
    FenceIs(text, 4, 4 + |Join(lines)|);
  }

  /** The round trip: sound metadata comes back in order, the body comes back stripped and closed. */
  lemma ParseDump(c: Charset, fm: Meta, body: string)
    requires c.Lawful() && Sound(c, fm)
    ensures Parse(c, Dump(c, fm, body)) == (fm, c.Strip(body) + "\n")
  {
    var lines := MetaLines(fm);
    forall i | 0 <= i < |lines|
      ensures c.OneLine(lines[i]) && lines[i] != ""
    {
      MetaLinesAreLines(c, fm, i);
    }
    SplitJoin(c, lines);
    DumpParts(c, fm, body);
    DumpFence(c, fm, body);
    ReadMeta(c, fm);
  }

  // What parse reads can be written back

  lemma {:induction false} StripLeftPart(c: Charset, s: string)
    ensures forall x :: x in c.StripLeft(s) ==> x in s
    ensures c.StripLeft(s) != "" ==> !c.space(c.StripLeft(s)[0])
  {
    if s != "" && c.space(s[0]) {
      StripLeftPart(c, s[1..]);
      assert forall x :: x in s[1..] ==> x in s;
    }
  }

  lemma {:induction false} StripRightPart(c: Charset, s: string)
    ensures c.StripRight(s) <= s
    ensures c.StripRight(s) != "" ==> !c.space(c.StripRight(s)[|c.StripRight(s)| - 1])
  {
    if s != "" && c.space(s[|s| - 1]) {
      StripRightPart(c, s[..|s| - 1]);
    }
  }

  /** Stripping leaves a trimmed part of the text. */
  lemma StripIsTrimmed(c: Charset, s: string)
    ensures c.Trimmed(c.Strip(s)) && forall x :: x in c.Strip(s) ==> x in s
  {
    var l := c.StripLeft(s);
    StripLeftPart(c, s);
    StripRightPart(c, l);
    assert forall x :: x in c.Strip(s) ==> x in l;
  }

  lemma {:induction false} FirstBreakIsFirst(c: Charset, s: string)
    ensures forall i :: 0 <= i < c.FirstBreak(s) ==> !c.lineEnd(s[i])
  {
    if s != "" && !c.lineEnd(s[0]) {
      FirstBreakIsFirst(c, s[1..]);
      assert forall i :: 1 <= i < |s| ==> s[i] == s[1..][i - 1];
    }
  }

  lemma {:induction false} SplitLinesAreLines(c: Charset, s: string, i: nat)
    requires i < |c.SplitLines(s)|
    ensures c.OneLine(c.SplitLines(s)[i])
    decreases |s|
  {
    FirstBreakIsFirst(c, s);
    var n := c.FirstBreak(s);
    if i > 0 {
      var width := if s[n] == '\r' && n + 1 < |s| && s[n + 1] == '\n' then 2 else 1;
      SplitLinesAreLines(c, s[n + width..], i - 1);
    }
  }

  lemma {:induction false} PutSound(c: Charset, fm: Meta, k: string, v: string)
    requires Sound(c, fm) && Sound(c, [(k, v)])
    ensures Sound(c, Put(fm, k, v))
    ensures forall key :: key != k && Lacks(fm, key) ==> Lacks(Put(fm, k, v), key)
  {
    assert [(k, v)][0] == (k, v);
    if fm != [] && fm[0].0 != k {
      var before, after := fm[1..], Put(fm[1..], k, v);
      PutSound(c, before, k, v);
      assert forall key :: Lacks(fm, key) ==> Lacks(before, key) && fm[0].0 != key;
      assert Lacks(before, fm[0].0) && Lacks(after, fm[0].0);
      assert Put(fm, k, v) == [fm[0]] + after;
    }
  }

  lemma LineSound(c: Charset, line: string, fm: Meta)
    requires Sound(c, fm) && c.OneLine(line)
    ensures Sound(c, ReadLine(c, line, fm))
  {
    var n := Colon(line);
    if n < |line| {
      var k, v := c.Strip(line[..n]), c.Strip(line[n + 1..]);
      StripIsTrimmed(c, line[..n]);
      StripIsTrimmed(c, line[n + 1..]);
      forall i | 0 <= i < |k|
        ensures !c.lineEnd(k[i]) && k[i] != ':'
      {
        assert k[i] in line[..n];
      }
      forall i | 0 <= i < |v|
        ensures !c.lineEnd(v[i])
      {
        assert v[i] in line[n + 1..];
      }
      PutSound(c, fm, k, v);
    }
  }

  lemma {:induction false} LinesSound(c: Charset, lines: seq<string>)
    requires forall i :: 0 <= i < |lines| ==> c.OneLine(lines[i])
    ensures Sound(c, ReadLines(c, lines))
  {
    if lines != [] {
      LinesSound(c, lines[..|lines| - 1]);
      LineSound(c, lines[|lines| - 1], ReadLines(c, lines[..|lines| - 1]));
    }
  }

  /** Whatever text is parsed, the metadata found survives being dumped and parsed again. */
  lemma ParsedIsSound(c: Charset, text: string)
    ensures Sound(c, Parse(c, text).0)
  {
    if OPEN <= text && Fence(text, 4).Some? {
      var head := text[4..Fence(text, 4).value];
      forall i | 0 <= i < |c.SplitLines(head)|
        ensures c.OneLine(c.SplitLines(head)[i])
      {
        SplitLinesAreLines(c, head, i);
      }
      LinesSound(c, c.SplitLines(head));
    }
  }
}
