/** The append-only session journal: entries added by re-reading and rewriting the whole document. */
module SessionJournal {
  import opened Types
  import opened Register
  import opened FrontMatter
  import opened Store

  const HEADING := "## Journal\n"
  const APPEND_ATTEMPTS: nat := 50
  const LEASE_TTL: nat := 30_000  // milliseconds, as every time here

  /** One appender: its metadata defaults, the skill's metadata check, its clock and its lock tokens. */
  datatype Writer = Writer(c: Charset, defaults: Meta, valid: Meta -> bool, now: nat -> string, token: nat -> Token)
  {
    ghost predicate Lawful() {
      && c.Lawful() && Sound(c, defaults)
      && forall n :: Sound(c, [("updated", now(n))])
    }
  }

  function EntryLine(stamp: string, entry: string): string {
    "[" + stamp + "] " + entry
  }

  function BodyOf(c: Charset, text: string): string {
    Parse(c, text).1
  }

  /** A document whose body an append keeps: no body yet, or one that starts with a visible character. */
  predicate Appendable(c: Charset, text: string) {
    var body := BodyOf(c, text);
    body == "" || !c.space(body[0])
  }

  /** The first document of a journal, and a document with one more entry. */
  function FirstDoc(c: Charset, fm: Meta, stamp: string, entry: string): string {
    Dump(c, fm, HEADING + (EntryLine(stamp, entry) + "\n"))
  }

  function NextDoc(c: Charset, text: string, fm: Meta, stamp: string, entry: string): string {
    var body := BodyOf(c, text);
    Dump(c, fm, (if body == "" then HEADING else body) + (EntryLine(stamp, entry) + "\n"))
  }

  // Every append extends

  lemma {:induction false} StripRightKeeps(c: Charset, a: string, b: string)
    requires c.StripRight(b) != ""
    ensures c.StripRight(a + b) == a + c.StripRight(b)
  {
    if b != "" && c.space(b[|b| - 1]) {
      assert (a + b)[..|a + b| - 1] == a + b[..|b| - 1];
      StripRightKeeps(c, a, b[..|b| - 1]);
    }
  }

  /** A bracketed stamp survives stripping. */
  lemma {:induction false} EntryKept(c: Charset, stamp: string, entry: string)
    requires c.Lawful()
    ensures c.StripRight(EntryLine(stamp, entry) + "\n") == c.StripRight(EntryLine(stamp, entry)) != ""
  {
    var l := EntryLine(stamp, entry);
    assert (l + "\n")[..|l|] == l;
    var head, tail := "[" + stamp + "]", " " + entry;
    assert l == head + tail;
    StripRightSplit(c, head, tail);
  }

  lemma {:induction false} StripRightSplit(c: Charset, a: string, b: string)
    requires a != "" && !c.space(a[|a| - 1])
    ensures a <= c.StripRight(a + b)
  {
    if b == "" {
      assert a + b == a;
    } else if c.space(b[|b| - 1]) {
      assert (a + b)[..|a + b| - 1] == a + b[..|b| - 1];
      StripRightSplit(c, a, b[..|b| - 1]);
    }
  }

  /** What is stored when an entry is put after a trimmed beginning. */
  lemma StripAppended(c: Charset, start: string, stamp: string, entry: string)
    requires c.Lawful() && start != "" && !c.space(start[0])
    ensures c.Strip(start + (EntryLine(stamp, entry) + "\n")) == start + c.StripRight(EntryLine(stamp, entry))
    ensures c.Trimmed(c.Strip(start + (EntryLine(stamp, entry) + "\n")))
  {
    var b := EntryLine(stamp, entry) + "\n";
    assert (start + b)[0] == start[0];
    EntryKept(c, stamp, entry);
    StripRightKeeps(c, start, b);
    StripIsTrimmed(c, start + b);
  }

  /** Stripping a text that ends with an entry touches only its beginning and the blanks the entry ends with. */
  lemma {:induction false} StripEntry(c: Charset, start: string, stamp: string, entry: string)
    requires c.Lawful()
    ensures c.Strip(start + (EntryLine(stamp, entry) + "\n")) ==
      c.StripLeft(start) + c.StripRight(EntryLine(stamp, entry))
    ensures c.StripRight(EntryLine(stamp, entry)) != ""
  {
    EntryKept(c, stamp, entry);
    StripBoth(c, start, EntryLine(stamp, entry) + "\n");
  }

  lemma {:induction false} StripBoth(c: Charset, a: string, b: string)
    requires c.StripRight(b) != "" && !c.space(b[0])
    ensures c.Strip(a + b) == c.StripLeft(a) + c.StripRight(b)
  {
    if a == "" {
      assert a + b == b;
    } else if c.space(a[0]) {
      assert (a + b)[1..] == a[1..] + b;
      StripBoth(c, a[1..], b);
    } else {
      StripRightKeeps(c, a, b);
    }
  }

  /** The body a dump stores after a beginning, when the entry was put there. */
  function Entered(c: Charset, start: string, stamp: string, entry: string): string {
    start + (c.StripRight(EntryLine(stamp, entry)) + "\n")
  }

  lemma DumpedEntry(c: Charset, fm: Meta, start: string, stamp: string, entry: string)
    requires c.Lawful() && Sound(c, fm) && start != "" && !c.space(start[0])
    ensures BodyOf(c, Dump(c, fm, start + (EntryLine(stamp, entry) + "\n"))) == Entered(c, start, stamp, entry)
    ensures Appendable(c, Dump(c, fm, start + (EntryLine(stamp, entry) + "\n")))
  {
    StripAppended(c, start, stamp, entry);
    ParseDump(c, fm, start + (EntryLine(stamp, entry) + "\n"));
  }

  lemma FirstDocIsJournal(c: Charset, fm: Meta, stamp: string, entry: string)
    requires c.Lawful() && Sound(c, fm)
    ensures Appendable(c, FirstDoc(c, fm, stamp, entry))
    ensures BodyOf(c, FirstDoc(c, fm, stamp, entry)) == Entered(c, HEADING, stamp, entry)
  {
    DumpedEntry(c, fm, HEADING, stamp, entry);
  }

  /** One append to such a document: the new body is the old one, or the heading, with the entry right after it. */
  lemma AppendExtends(c: Charset, text: string, fm: Meta, stamp: string, entry: string)
    requires c.Lawful() && Appendable(c, text) && Sound(c, fm)
    ensures Appendable(c, NextDoc(c, text, fm, stamp, entry))
    ensures BodyOf(c, NextDoc(c, text, fm, stamp, entry)) ==
      Entered(c, if BodyOf(c, text) == "" then HEADING else BodyOf(c, text), stamp, entry)
  {
    DumpedEntry(c, fm, if BodyOf(c, text) == "" then HEADING else BodyOf(c, text), stamp, entry);
  }

  /**
    An append keeps the body it found as the beginning of the new one exactly when that body is empty
    or starts with a visible character: the document is stripped on both sides when it is dumped.
  */
  lemma AppendKeepsBodyIff(c: Charset, text: string, fm: Meta, stamp: string, entry: string)
    requires c.Lawful() && Sound(c, fm)
    ensures BodyOf(c, text) <= BodyOf(c, NextDoc(c, text, fm, stamp, entry)) <==> Appendable(c, text)
  {
    if Appendable(c, text) {
      AppendExtends(c, text, fm, stamp, entry);
    } else {
      var whole := BodyOf(c, text) + (EntryLine(stamp, entry) + "\n");
      ParseDump(c, fm, whole);
      StripEntry(c, BodyOf(c, text), stamp, entry);
      StripIsTrimmed(c, whole);
    }
  }

  /** A body that is lost, and one that is more than blanks and still loses its first line end. */
  lemma LeadingBlanksAreNotKept(c: Charset, fm: Meta, stamp: string, entry: string)
    requires c.Lawful() && Sound(c, fm)
    ensures forall text :: BodyOf(c, text) == "\n" || BodyOf(c, text) == "\n# Notes\n" ==>
      !(BodyOf(c, text) <= BodyOf(c, NextDoc(c, text, fm, stamp, entry)))
    ensures BodyOf(c, Dump(c, fm, "")) == "\n" && BodyOf(c, "\n# Notes\n") == "\n# Notes\n"
  {
    forall text | BodyOf(c, text) == "\n" || BodyOf(c, text) == "\n# Notes\n"
      ensures !(BodyOf(c, text) <= BodyOf(c, NextDoc(c, text, fm, stamp, entry)))
    {
      AppendKeepsBodyIff(c, text, fm, stamp, entry);
    }
    ParseDump(c, fm, "");
    assert c.Strip("") + "\n" == "\n";
  }

  // Over any interleaving of appenders

  predicate IsWrite(op: Op<string>) {
    op.Create? || op.Update?
  }

  /** What any appender may do to the journal key. */
  ghost predicate Appends(c: Charset, op: Op<string>) {
    match op
    case Create(body) => exists fm, stamp, entry :: Sound(c, fm) && body == FirstDoc(c, fm, stamp, entry)
    case Update(_, expected, body) =>
      exists fm, stamp, entry :: Sound(c, fm) && body == NextDoc(c, expected.body, fm, stamp, entry)
    case _ => true
  }

  ghost predicate AppendStep(c: Charset, gen: string -> Option<nat>, r: Register<string>, r': Register<string>) {
    || r' == r
    || (exists op :: Appends(c, op) && Enabled(gen, r, op) && r' == Apply(r, op))
    || (exists op :: Appends(c, op) && LandsLate(r, op) && r' == r.(value := Some(op.body)))
    || (r.value.None? && r' == r.(value := Some("")))  // a create that only took the name
  }

  /** A write that becomes visible after its lease was superseded, on the value it was computed from. */
  predicate LandsLate(r: Register<string>, op: Op<string>) {
    match op
    case Create(_) => r.value.None?
    case Update(_, expected, _) => r.value == Some(expected.body)
    case _ => false
  }

  ghost predicate AppendRun(c: Charset, gen: string -> Option<nat>, rs: seq<Register<string>>) {
    forall i :: 0 <= i < |rs| - 1 ==> AppendStep(c, gen, rs[i], rs[i + 1])
  }

  lemma StepExtends(c: Charset, gen: string -> Option<nat>, r: Register<string>, r': Register<string>)
    requires c.Lawful() && AppendStep(c, gen, r, r')
    requires r.value.Some? ==> Appendable(c, r.value.value)
    ensures r'.value.Some? ==> Appendable(c, r'.value.value)
    ensures r.value.Some? ==> r'.value.Some? && BodyOf(c, r.value.value) <= BodyOf(c, r'.value.value)
  {
    if r' != r {
      if r.value.None? && r' == r.(value := Some("")) {
        assert BodyOf(c, "") == "";
      } else if op :| Appends(c, op) && Enabled(gen, r, op) && r' == Apply(r, op) {
        if IsWrite(op) {
          WriteExtends(c, op, r);
        }
      } else {
        var op :| Appends(c, op) && LandsLate(r, op) && r' == r.(value := Some(op.body));
        WriteExtends(c, op, r);
      }
    }
  }

  lemma WriteExtends(c: Charset, op: Op<string>, r: Register<string>)
    requires c.Lawful() && Appends(c, op) && LandsLate(r, op)
    requires r.value.Some? ==> Appendable(c, r.value.value)
    ensures Appendable(c, op.body) && (r.value.Some? ==> BodyOf(c, r.value.value) <= BodyOf(c, op.body))
  {
    match op {
      case Create(body) =>
        var fm, stamp, entry :| Sound(c, fm) && body == FirstDoc(c, fm, stamp, entry);
        FirstDocIsJournal(c, fm, stamp, entry);
      case Update(_, expected, body) =>
        var fm, stamp, entry :| Sound(c, fm) && body == NextDoc(c, expected.body, fm, stamp, entry);
        AppendExtends(c, expected.body, fm, stamp, entry);
    }
  }

  lemma JournalStep(c: Charset, gen: string -> Option<nat>, rs: seq<Register<string>>, i: nat)
    requires c.Lawful() && AppendRun(c, gen, rs) && i + 1 < |rs|
    requires rs[i].value.Some? ==> Appendable(c, rs[i].value.value)
    ensures rs[i + 1].value.Some? ==> Appendable(c, rs[i + 1].value.value)
    ensures rs[i].value.Some? ==>
      rs[i + 1].value.Some? && BodyOf(c, rs[i].value.value) <= BodyOf(c, rs[i + 1].value.value)
  {
    assert AppendStep(c, gen, rs[i], rs[i + 1]);
    StepExtends(c, gen, rs[i], rs[i + 1]);
  }

  /** Each committed journal body is a prefix of every later one, whoever appends and however they interleave. */
  lemma {:induction false} JournalOnlyGrows(c: Charset, gen: string -> Option<nat>, rs: seq<Register<string>>, i: nat,
                                            j: nat)
    requires c.Lawful() && AppendRun(c, gen, rs) && i <= j < |rs|
    requires rs[i].value.Some? ==> Appendable(c, rs[i].value.value)
    ensures rs[j].value.Some? ==> Appendable(c, rs[j].value.value)
    ensures rs[i].value.Some? ==> rs[j].value.Some? && BodyOf(c, rs[i].value.value) <= BodyOf(c, rs[j].value.value)
    decreases j - i
  {
    if i < j {
      JournalOnlyGrows(c, gen, rs, i, j - 1);
      JournalStep(c, gen, rs, j - 1);
      assert rs[j - 1 + 1] == rs[j];
      if rs[i].value.Some? {
        PrefixOfPrefix(BodyOf(c, rs[i].value.value), BodyOf(c, rs[j - 1].value.value), BodyOf(c, rs[j].value.value));
      }
    }
  }

  lemma PrefixOfPrefix(x: string, y: string, z: string)
    requires x <= y <= z
    ensures x <= z
  {
  }

  // The append itself

  datatype Reason = InvalidMetadata | SecretFound | WriteError(kind: ErrorKind) | RetryExhausted

  datatype Outcome = Appended | GaveUp(why: Reason) | Crashed

  /** The metadata an append starts from: what was found, or the defaults where there is none. */
  function FoundMeta(w: Writer, doc: Option<string>): Meta {
    var parsed := if doc.None? then [] else Parse(w.c, doc.value).0;
    if parsed == [] then w.defaults else parsed
  }

  /** The metadata of the n-th reading, stamped as updated then. */
  function Refreshed(w: Writer, doc: Option<string>, n: nat): Meta {
    Put(FoundMeta(w, doc), "updated", w.now(n))
  }

  lemma RefreshedIsSound(w: Writer, doc: Option<string>, n: nat)
    requires w.Lawful()
    ensures Sound(w.c, FoundMeta(w, doc)) && Sound(w.c, Refreshed(w, doc, n))
  {
    if doc.Some? {
      ParsedIsSound(w.c, doc.value);
    }
    PutSound(w.c, FoundMeta(w, doc), "updated", w.now(n));
  }

  /** The document that puts this entry after what it replaces, by the clock's n-th and next readings. */
  function DocWith(w: Writer, doc: Option<string>, n: nat, entry: string): string {
    if doc.None? then FirstDoc(w.c, Refreshed(w, doc, n), w.now(n + 1), entry)
    else NextDoc(w.c, doc.value, Refreshed(w, doc, n), w.now(n + 1), entry)
  }

  /** The document puts this entry after what it replaces, and keeps the metadata found there. */
  ghost predicate Enters(w: Writer, op: Op<string>, entry: string) {
    match op
    case Create(body) => exists n: nat :: w.valid(Refreshed(w, None, n)) && body == DocWith(w, None, n, entry)
    case Update(_, expected, body) =>
      exists n: nat ::
        w.valid(Refreshed(w, Some(expected.body), n)) && body == DocWith(w, Some(expected.body), n, entry)
    case _ => false
  }

  /** The same key, and the same value unless it is the key that is set. */
  predicate SameField(before: (string, string), after: (string, string)) {
    after.0 == before.0 && (after.0 != "updated" ==> after.1 == before.1)
  }

  /** Whatever the append found, it reads back with all its metadata as it was, in order, and only `updated` set. */
  lemma AppendKeepsMetadata(w: Writer, doc: Option<string>, n: nat, entry: string)
    requires w.Lawful()
    ensures var before := if doc.None? || Parse(w.c, doc.value).0 == [] then w.defaults else Parse(w.c, doc.value).0;
      var after := Parse(w.c, DocWith(w, doc, n, entry)).0;
      && |after| == |before| + (if Lacks(before, "updated") then 1 else 0)
      && (forall i :: 0 <= i < |before| ==> SameField(before[i], after[i]))
      && ("updated", w.now(n)) in after
  {
    RefreshedIsSound(w, doc, n);
    PutInPlace(FoundMeta(w, doc), "updated", w.now(n));
    var start := if doc.None? || BodyOf(w.c, doc.value) == "" then HEADING else BodyOf(w.c, doc.value);
    ParseDump(w.c, Refreshed(w, doc, n), start + (EntryLine(w.now(n + 1), entry) + "\n"));
  }

  /** From here on this caller only took leases of the key and then, at most once and last, wrote the entry. */
  ghost predicate EnteredOnce(ls: seq<Landing<string>>, from: nat, key: Key, w: Writer, entry: string) {
    forall j :: from <= j < |ls| ==>
      ls[j].key == key && (if j == |ls| - 1 && IsWrite(ls[j].op) then Enters(w, ls[j].op, entry) else ls[j].op.Acquire?)
  }

  ghost predicate NoWrites(ls: seq<Landing<string>>, from: nat, key: Key) {
    forall j :: from <= j < |ls| ==> ls[j].key == key && ls[j].op.Acquire?
  }

  lemma EnteredAfter(ls: seq<Landing<string>>, from: nat, mid: nat, key: Key, w: Writer, entry: string)
    requires from <= mid <= |ls| && NoWrites(ls[..mid], from, key)
    requires EnteredOnce(ls, mid, key, w, entry)
    ensures EnteredOnce(ls, from, key, w, entry)
    ensures NoWrites(ls, mid, key) ==> NoWrites(ls, from, key)
  {
    forall j | from <= j < mid
      ensures ls[j].key == key && ls[j].op.Acquire?
    {
      assert ls[j] == ls[..mid][j];
    }
  }

  datatype Attempt = Again | Done(outcome: Outcome)

  /** The document an attempt writes over what it read, None when the metadata is refused. */
  function Compose(w: Writer, read: Option<string>, n: nat, entry: string): Option<string> {
    var parsed := if read.None? then [] else Parse(w.c, read.value).0;
    var fm := Put(if parsed == [] then w.defaults else parsed, "updated", w.now(n));
    if !w.valid(fm) then None
    else if read.None? then Some(FirstDoc(w.c, fm, w.now(n + 1), entry))
    else Some(NextDoc(w.c, read.value, fm, w.now(n + 1), entry))
  }

  lemma ComposedEnters(w: Writer, read: Option<string>, n: nat, entry: string, lease: Lease)
    ensures Compose(w, read, n, entry).Some? <==> w.valid(Refreshed(w, read, n))
    ensures Compose(w, read, n, entry).Some? ==>
      && Compose(w, read, n, entry).value == DocWith(w, read, n, entry)
      && Enters(w, OpFor(PreFor(read, lease), Compose(w, read, n, entry).value), entry)
  {
  }

  /** The document ends with the entry on a line of its own. */
  ghost predicate EntryStored(c: Charset, text: string, entry: string) {
    exists fm, start, stamp :: Sound(c, fm) && text == Dump(c, fm, start + (EntryLine(stamp, entry) + "\n"))
  }

  lemma EntersStored(w: Writer, op: Op<string>, entry: string, body: string)
    requires w.Lawful() && Enters(w, op, entry) && op.body == body
    ensures EntryStored(w.c, body, entry)
  {
    match op {
      case Create(_) =>
        var n: nat :| body == DocWith(w, None, n, entry);
        DocIsStored(w, None, n, entry);
      case Update(_, expected, _) =>
        var n: nat :| body == DocWith(w, Some(expected.body), n, entry);
        DocIsStored(w, Some(expected.body), n, entry);
    }
  }

  lemma DocIsStored(w: Writer, doc: Option<string>, n: nat, entry: string)
    requires w.Lawful()
    ensures EntryStored(w.c, DocWith(w, doc, n, entry), entry)
  {
    RefreshedIsSound(w, doc, n);
    var start := if doc.None? || BodyOf(w.c, doc.value) == "" then HEADING else BodyOf(w.c, doc.value);
    assert DocWith(w, doc, n, entry) ==
      Dump(w.c, Refreshed(w, doc, n), start + (EntryLine(w.now(n + 1), entry) + "\n"));
  }

  /** Everything this caller did to the key is a step of the run of appenders. */
  lemma EnteredSteps(ls: seq<Landing<string>>, from: nat, key: Key, w: Writer, gen: string -> Option<nat>,
                     entry: string, j: nat)
    requires w.Lawful()
    requires EnteredOnce(ls, from, key, w, entry) && from <= j < |ls| && Enabled(gen, ls[j].before, ls[j].op)
    ensures AppendStep(w.c, gen, ls[j].before, Apply(ls[j].before, ls[j].op))
  {
    if IsWrite(ls[j].op) {
      EntersAppends(w, ls[j].op, entry);
    }
    assert Appends(w.c, ls[j].op);
  }

  lemma EntersAppends(w: Writer, op: Op<string>, entry: string)
    requires w.Lawful() && Enters(w, op, entry)
    ensures Appends(w.c, op)
  {
    if op.Create? {
      var n: nat :| op.body == DocWith(w, None, n, entry);
      FirstAppends(w, op, n, entry);
    } else {
      var n: nat :| op.body == DocWith(w, Some(op.expected.body), n, entry);
      NextAppends(w, op, n, entry);
    }
  }

  lemma FirstAppends(w: Writer, op: Op<string>, n: nat, entry: string)
    requires w.Lawful() && op.Create? && op.body == DocWith(w, None, n, entry)
    ensures Appends(w.c, op)
  {
    RefreshedIsSound(w, None, n);
  }

  lemma NextAppends(w: Writer, op: Op<string>, n: nat, entry: string)
    requires w.Lawful() && op.Update? && op.body == DocWith(w, Some(op.expected.body), n, entry)
    ensures Appends(w.c, op)
  {
    RefreshedIsSound(w, Some(op.expected.body), n);
  }

  /** The entry is in this body: some beginning, the stamped entry and a line end. */
  ghost predicate Holds(c: Charset, body: string, entry: string) {
    exists start, stamp :: Entered(c, start, stamp, entry) <= body
  }

  lemma StoredHolds(c: Charset, text: string, entry: string)
    requires c.Lawful() && EntryStored(c, text, entry)
    ensures Appendable(c, text) && Holds(c, BodyOf(c, text), entry)
  {
    var fm, start, stamp :| Sound(c, fm) && text == Dump(c, fm, start + (EntryLine(stamp, entry) + "\n"));
    StripEntry(c, start, stamp, entry);
    ParseDump(c, fm, start + (EntryLine(stamp, entry) + "\n"));
    StripIsTrimmed(c, start + (EntryLine(stamp, entry) + "\n"));
    EntryKept(c, stamp, entry);
    assert BodyOf(c, text) == Entered(c, c.StripLeft(start), stamp, entry);
  }

  /** Every acknowledged entry stays: it is in the body stored then, and in every body any appenders leave later. */
  lemma AcknowledgedEntryStays(c: Charset, gen: string -> Option<nat>, rs: seq<Register<string>>, i: nat, j: nat,
                               entry: string)
    requires c.Lawful() && AppendRun(c, gen, rs) && i <= j < |rs|
    requires rs[i].value.Some? && EntryStored(c, rs[i].value.value, entry)
    ensures rs[j].value.Some? && Holds(c, BodyOf(c, rs[j].value.value), entry)
  {
    StoredHolds(c, rs[i].value.value, entry);
    JournalOnlyGrows(c, gen, rs, i, j);
    var start, stamp :| Entered(c, start, stamp, entry) <= BodyOf(c, rs[i].value.value);
    assert Entered(c, start, stamp, entry) <= BodyOf(c, rs[j].value.value);
  }

  /** The write of one attempt, and what its answer means. */
  method Commit(store: Store<string>, key: Key, w: Writer, entry: string, pre: Precondition<string>, doc: string)
    returns (a: Attempt)
    requires w.Lawful() && Enters(w, OpFor(pre, doc), entry)
    modifies store
    ensures old(store.landings) <= store.landings && |store.landings| <= |old(store.landings)| + 1
    ensures old(store.seen) <= store.seen
    ensures old(store.clock) <= store.clock
    ensures store.doubtful <= old(store.doubtful) + {key}
    ensures a.Again? || a == Done(Appended) ==> store.doubtful == old(store.doubtful)
    ensures |store.landings| > |old(store.landings)| ==>
      store.landings[|old(store.landings)|].key == key && store.landings[|old(store.landings)|].op == OpFor(pre, doc)
    ensures a.Again? ==> store.landings == old(store.landings)
    ensures store.tick == old(store.tick) + 1
    ensures a.Done? ==> a.outcome != GaveUp(RetryExhausted) && a.outcome != GaveUp(InvalidMetadata)
    ensures a == Done(Appended) ==> store.Value(key) == Some(doc) && EntryStored(w.c, doc, entry)
    // An error is reported as what it was.
    ensures match store.turns(old(store.tick)).fate
      case Broken(kind, _) => a == Done(GaveUp(if kind == SecretBlocked then SecretFound else WriteError(kind)))
      case Thrown(_) => a == Done(Crashed)
      case _ => true
    ensures (
      && store.Quiet(old(store.tick))
      && Judge(store.gen, old(store.At(key)), pre, doc, store.turns(old(store.tick)).wall).Commit?) ==>
        a == Done(Appended)
  {
    EntersStored(w, OpFor(pre, doc), entry, doc);
    var reply := store.Persist(key, pre, doc);
    if reply.Raised? {
      return Done(Crashed);
    }
    match reply.result {
      case Ok(_) => a := Done(Appended);
      case Stale(_, _) => a := Again;
      case Exists(_) => a := Again;
      case Error(kind) => a := Done(GaveUp(if kind == SecretBlocked then SecretFound else WriteError(kind)));
    }
  }

  /** The lease is the newest, lasts, and the key still holds what was read under it. */
  ghost predicate ReadyFor(store: Store<string>, key: Key, read: Option<string>, lease: Lease)
    reads store
  {
    && store.Value(key) == read && Owns(store.At(key), lease)
    && forall j :: store.tick <= j ==> store.turns(j).wall < store.At(key).expiry
  }

  function PreFor(read: Option<string>, lease: Lease): Precondition<string> {
    if read.None? then CreateOnly else Overwrite(Sha256(read.value), lease)
  }

  /** Nothing stands in the way of a write under such a lease. */
  lemma ReadyCommits(store: Store<string>, key: Key, read: Option<string>, lease: Lease, doc: string)
    ensures ReadyFor(store, key, read, lease) && (forall b :: store.gen(b).None?) ==>
      Judge(store.gen, store.At(key), PreFor(read, lease), doc, store.turns(store.tick).wall).Commit?
  {
  }

  /** What an attempt works on: the lease, and what it read under it. */
  datatype Opened = NotOpened(a: Attempt) | Opened(lease: Lease, read: Option<string>)

  method Open(store: Store<string>, key: Key, token: Token) returns (o: Opened)
    modifies store
    ensures old(store.seen) <= store.seen && old(store.clock) <= store.clock
    ensures old(store.landings) <= store.landings && NoWrites(store.landings, |old(store.landings)|, key)
    ensures o.NotOpened? ==> o.a == Again || o.a == Done(Crashed)
    ensures old(store.tick) < store.tick
    ensures o == NotOpened(Again) ==> store.seen == old(store.seen)
    ensures o.Opened? ==> store.seen == old(store.seen) + [Saw(key, o.read)]
    ensures store.doubtful == old(store.doubtful)
    ensures store.CalmFrom(old(store.tick), LEASE_TTL) ==>
      o.Opened? && o.read == old(store.Value(key)) && ReadyFor(store, key, o.read, o.lease)
  {
    var lock := store.Lock(key, token, LEASE_TTL);
    if !lock.Locked? {
      return NotOpened(if lock.LockBusy? then Again else Done(Crashed));
    }
    var read := store.Read(key);
    o := if read.ReadRaised? then NotOpened(Done(Crashed)) else Opened(lock.lease, read.value);
  }

  /** Compose over what was read and write it. */
  method WriteEntry(store: Store<string>, key: Key, w: Writer, entry: string, n: nat, read: Option<string>,
                    lease: Lease)
    returns (a: Attempt)
    requires w.Lawful()
    modifies store
    ensures old(store.landings) <= store.landings && old(store.seen) <= store.seen
    ensures EnteredOnce(store.landings, |old(store.landings)|, key, w, entry)
    ensures old(store.clock) <= store.clock
    ensures store.doubtful <= old(store.doubtful) + {key}
    ensures a.Again? || a == Done(Appended) || a == Done(GaveUp(InvalidMetadata)) ==>
      store.doubtful == old(store.doubtful)
    ensures a.Again? || a == Done(GaveUp(InvalidMetadata)) ==> store.landings == old(store.landings)
    ensures a != Done(GaveUp(RetryExhausted)) && store.tick >= old(store.tick)
    ensures a == Done(Appended) ==> store.Value(key).Some? && EntryStored(w.c, store.Value(key).value, entry)
    // The metadata found decides whether anything is written.
    ensures a == Done(GaveUp(InvalidMetadata)) <==> !w.valid(Refreshed(w, read, n))
    ensures a == Done(Appended) ==> store.Value(key) == Some(DocWith(w, read, n, entry))
    ensures (
      && old(ReadyFor(store, key, read, lease)) && (forall b :: store.gen(b).None?) && store.Quiet(old(store.tick))
      && w.valid(Refreshed(w, read, n))) ==> a == Done(Appended)
  {
    var doc := Compose(w, read, n, entry);
    ComposedEnters(w, read, n, entry, lease);
    if doc.None? {
      return Done(GaveUp(InvalidMetadata));
    }
    ReadyCommits(store, key, read, lease, doc.value);
    ghost var from := |store.landings|;
    a := Commit(store, key, w, entry, PreFor(read, lease), doc.value);
    LandedEnters(store.landings, from, key, w, entry, OpFor(PreFor(read, lease), doc.value));
  }

  lemma LandedEnters(ls: seq<Landing<string>>, from: nat, key: Key, w: Writer, entry: string, op: Op<string>)
    requires Enters(w, op, entry) && from <= |ls| <= from + 1
    requires |ls| > from ==> ls[from].key == key && ls[from].op == op
    ensures EnteredOnce(ls, from, key, w, entry)
  {
  }

  /** One attempt under one lease. */
  method AttemptAppend(store: Store<string>, key: Key, w: Writer, entry: string, n: nat) returns (a: Attempt)
    requires w.Lawful()
    modifies store
    ensures old(store.landings) <= store.landings && old(store.seen) <= store.seen
    ensures EnteredOnce(store.landings, |old(store.landings)|, key, w, entry)
    ensures old(store.clock) <= store.clock
    ensures store.doubtful <= old(store.doubtful) + {key}
    ensures a.Again? || a == Done(Appended) || a == Done(GaveUp(InvalidMetadata)) ==>
      store.doubtful == old(store.doubtful)
    ensures a.Again? || a == Done(GaveUp(InvalidMetadata)) ==> NoWrites(store.landings, |old(store.landings)|, key)
    ensures a != Done(GaveUp(RetryExhausted)) && store.tick > old(store.tick)
    ensures a == Done(Appended) ==> store.Value(key).Some? && EntryStored(w.c, store.Value(key).value, entry)
    ensures store.CalmFrom(old(store.tick), LEASE_TTL) ==>
      && a == Done(if w.valid(Refreshed(w, old(store.Value(key)), n)) then Appended else GaveUp(InvalidMetadata))
      && (a == Done(Appended) ==> store.Value(key) == Some(DocWith(w, old(store.Value(key)), n, entry)))
  {
    var o := Open(store, key, w.token(n));
    if o.NotOpened? {
      return o.a;
    }
    ghost var mid := |store.landings|;
    a := WriteEntry(store, key, w, entry, n, o.read, o.lease);
    EnteredAfter(store.landings, |old(store.landings)|, mid, key, w, entry);
  }

  /**
    `session_append`: at most one write of this call takes effect, and it is an append; an
    acknowledged entry is in the journal, and a call that gives up has written nothing.
  */
  method SessionAppend(store: Store<string>, key: Key, w: Writer, entry: string) returns (out: Outcome)
    requires w.Lawful()
    modifies store
    ensures old(store.landings) <= store.landings && old(store.seen) <= store.seen
    ensures EnteredOnce(store.landings, |old(store.landings)|, key, w, entry)
    ensures old(store.clock) <= store.clock
    ensures store.doubtful <= old(store.doubtful) + {key}
    ensures out in {Appended, GaveUp(RetryExhausted), GaveUp(InvalidMetadata)} ==> store.doubtful == old(store.doubtful)
    ensures out == GaveUp(RetryExhausted) || out == GaveUp(InvalidMetadata) ==>
      NoWrites(store.landings, |old(store.landings)|, key)
    ensures out == Appended ==> store.Value(key).Some? && EntryStored(w.c, store.Value(key).value, entry)
    // It gives up for want of luck only after all its attempts.
    ensures out == GaveUp(RetryExhausted) ==> store.tick >= old(store.tick) + APPEND_ATTEMPTS
    // With nobody in the way the entry is appended at once, to the document that is there, unless the
    // metadata found is refused.
    ensures store.CalmFrom(old(store.tick), LEASE_TTL) ==>
      && out == (if w.valid(Refreshed(w, old(store.Value(key)), 0)) then Appended else GaveUp(InvalidMetadata))
      && (out == Appended ==> store.Value(key) == Some(DocWith(w, old(store.Value(key)), 0, entry)))
  {
    for attempt := 0 to APPEND_ATTEMPTS
      invariant old(store.landings) <= store.landings && old(store.seen) <= store.seen
      invariant NoWrites(store.landings, |old(store.landings)|, key)
      invariant store.doubtful == old(store.doubtful)
      invariant old(store.clock) <= store.clock && store.tick >= old(store.tick) + attempt
      invariant attempt > 0 ==> !store.CalmFrom(old(store.tick), LEASE_TTL)
      invariant attempt == 0 ==> store.tick == old(store.tick) && store.regs == old(store.regs)
    {
      ghost var before := |store.landings|;
      var a := AttemptAppend(store, key, w, entry, 2 * attempt);
      if a.Done? {
        EnteredAfter(store.landings, |old(store.landings)|, before, key, w, entry);
        return a.outcome;
      }
    }
    out := GaveUp(RetryExhausted);
  }
}
