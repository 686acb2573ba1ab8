/**
  The conflict protocol of the section editor: apply an edit to the document the caller knows, or to
  one whose section is still what the caller saw; otherwise park the losing text under a conflict key.
*/
module FlushDoc {
  import opened Types
  import opened FrontMatter
  import opened Sections
  import Outline
  import opened SectionText
  import opened Store
  import opened SessionJournal
  import Register

  const MAX_CAS_ATTEMPTS: nat := 5
  const BUSY_WAIT_MS: nat := 5000
  const PARK_ATTEMPTS: nat := 3

  /** One call: the whole document, or one section of it. */
  datatype Job = Job(
    project: string, isLog: bool, content: string, declared: Option<Version<string>>, section: Option<Search>)
  {
    function Key(): Key {
      project + (if isLog then "/session_log" else "/system_state")
    }
  }

  /** What the call takes from its surroundings: text rules, metadata stamping, key suffixes, pauses. */
  datatype Tools = Tools(
    c: Charset,
    blank: string -> bool,
    stamp: (Option<Meta>, nat) -> Option<Meta>,  // None: the metadata is refused
    token: nat -> Token,
    suffix: nat -> string,
    note: string -> string,
    pause: nat -> nat,
    journal: Writer)

  function ConflictKey(project: string, suffix: string): Key {
    project + "/conflicts/" + suffix
  }

  function JournalKey(project: string): Key {
    project + "/sessions/conflicts"
  }

  /** The document, the conflict copies and the conflict journal never share a key. */
  lemma KeysApart(job: Job, suffix: string)
    ensures ConflictKey(job.project, suffix) != job.Key() && JournalKey(job.project) != job.Key()
    ensures ConflictKey(job.project, suffix) != JournalKey(job.project)
  {
    var p := |job.project|;
    assert ConflictKey(job.project, suffix)[p + 1] == 'c' && job.Key()[p + 1] == 's' &&
      JournalKey(job.project)[p + 1] == 's';
    assert JournalKey(job.project)[p + 8] == 's';
    assert job.isLog ==> job.Key()[p + 8] == '_';
    assert !job.isLog ==> job.Key()[p + 2] == 'y' && JournalKey(job.project)[p + 2] == 'e';
  }

  // What an edit must respect

  function ContentOf(r: Lookup): Option<string> {
    if r.Found? then Some(r.content) else None
  }

  function Body(c: Charset, doc: Option<string>): string {
    if doc.None? then "" else Parse(c, doc.value).1
  }

  function SectionIn(c: Charset, doc: Option<string>, s: Search): Option<string> {
    ContentOf(GetSection(Body(c, doc), s))
  }

  /** The section as the caller knew it: in the declared version, or absent when none was declared. */
  function Base(job: Job, c: Charset): Option<string>
    requires job.section.Some?
  {
    if job.declared.None? then None else SectionIn(c, Some(job.declared.value.body), job.section.value)
  }

  /** The metadata of a document, None where there is no document. */
  function MetaIn(c: Charset, doc: Option<string>): Option<Meta> {
    if doc.None? then None else Some(Parse(c, doc.value).0)
  }

  /** The document is this body under the metadata of what was read, stamped. */
  predicate StampedFrom(t: Tools, read: Option<string>, n: nat, body: string, doc: string) {
    var m := t.stamp(MetaIn(t.c, read), n);
    m.Some? && doc == Dump(t.c, m.value, body)
  }

  /**
    The document `doc` is this call's edit of `prev`, and `prev` had what the caller's edit was made
    against. Its metadata is that of `prev`, stamped; a whole document takes it from the one read.
  */
  ghost predicate SafeEdit(job: Job, t: Tools, prev: Option<string>, doc: string) {
    match job.section
    case None =>
      && (prev.None? || VersionOf(prev) == job.declared)
      && exists read: Option<string>, n: nat :: read.Some? == prev.Some? && StampedFrom(t, read, n, job.content, doc)
    case Some(s) =>
      && SectionEq(SectionIn(t.c, prev, s), Base(job, t.c))
      && var edited := ReplaceSection(Body(t.c, prev), s, job.content, t.blank);
         edited.Some? && exists n: nat :: StampedFrom(t, prev, n, edited.value, doc)
  }

  ghost predicate SafeOp(job: Job, t: Tools, op: Register.Op<string>) {
    match op
    case Create(doc) => SafeEdit(job, t, None, doc)
    case Update(_, expected, doc) => SafeEdit(job, t, Some(expected.body), doc)
    case _ => false
  }

  // One attempt

  datatype Reason =
    | InvalidSectionName
    | HeadingInBody
    | MalformedFrontMatter
    | ExpectHashRequired
    | BadMetadata
    | Secret
    | NotWritten(kind: ErrorKind)
    | ConflictSecret
    | ParkFailed

  datatype Outcome =
    | Flushed(version: Version<string>)
    | Parked(exhausted: bool, key: Key, recorded: bool)
    | Died(reason: Reason)
    | Aborted

  datatype Plan =
    | Die(reason: Reason)
    | ParkIt
    | Write(expected: Option<Version<string>>, doc: string, base: Option<string>)

  /** What to do with the document just read; `base` is the section first seen, once there is one. */
  function Decide(job: Job, t: Tools, read: Option<string>, first: bool, base: Option<Option<string>>, n: nat): Plan {
    var fm := if read.None? then [] else Parse(t.c, read.value).0;
    var body := Body(t.c, read);
    if read.Some? && fm == [] then Die(MalformedFrontMatter)
    else if read.Some? && job.declared.None? && first then Die(ExpectHashRequired)
    else match job.section
      case None => Stamped(t, read, fm, job.content, if read.Some? then job.declared else None, None, n)
      case Some(s) =>
        var got := GetSection(body, s);
        if got.Duplicate? then ParkIt
        else if base.None? && job.declared.Some? && VersionOf(read) != job.declared then ParkIt
        else if base.Some? && !SectionEq(ContentOf(got), base.value) then ParkIt
        else
          var edited := ReplaceSection(body, s, job.content, t.blank);
          Stamped(t, read, fm, edited.value, VersionOf(read), if base.Some? then base.value else ContentOf(got), n)
  }

  function Stamped(t: Tools, read: Option<string>, fm: Meta, body: string, expected: Option<Version<string>>,
                   base: Option<string>, n: nat): Plan
  {
    var m := t.stamp(if read.None? then None else Some(fm), n);
    if m.None? then Die(BadMetadata) else Write(expected, Dump(t.c, m.value, body), base)
  }

  /** The section first seen is the caller's, whenever it was established. */
  predicate Grounded(job: Job, c: Charset, first: bool, base: Option<Option<string>>) {
    && (job.section.None? ==> first)
    && (job.section.Some? ==> if base.None? then first else base.value == Base(job, c))
  }

  /** The decision to write is safe, against whatever the write then replaces. */
  lemma DecisionIsSafe(job: Job, t: Tools, read: Option<string>, first: bool, base: Option<Option<string>>, n: nat,
                       lease: Lease)
    requires Grounded(job, t.c, first, base)
    requires Decide(job, t, read, first, base, n).Write?
    ensures var plan := Decide(job, t, read, first, base, n);
      && SafeOp(job, t, OpFor(if plan.expected.None? then CreateOnly else Overwrite(plan.expected.value, lease),
                              plan.doc))
      && (job.section.Some? ==> plan.base == Base(job, t.c))
  {
    var plan := Decide(job, t, read, first, base, n);
    if job.section.Some? {
      EmptyHasNoSection(job.section.value);
      SectionDecision(job, t, read, first, base, n);
    } else {
      var fm := if read.None? then [] else Parse(t.c, read.value).0;
      StampedDumps(t, read, fm, job.content, if read.Some? then job.declared else None, None, n);
      assert StampedFrom(t, read, n, job.content, plan.doc);
    }
  }

  lemma StampedDumps(t: Tools, read: Option<string>, fm: Meta, body: string, expected: Option<Version<string>>,
                     base: Option<string>, n: nat)
    requires read.Some? ==> fm == Parse(t.c, read.value).0
    ensures var plan := Stamped(t, read, fm, body, expected, base, n);
      if t.stamp(MetaIn(t.c, read), n).None? then plan == Die(BadMetadata)
      else plan.Write? && plan.expected == expected && plan.base == base && StampedFrom(t, read, n, body, plan.doc)
  {
  }

  /** A section is written over the document read, which holds the caller's section still. */
  lemma SectionDecision(job: Job, t: Tools, read: Option<string>, first: bool, base: Option<Option<string>>, n: nat)
    requires Grounded(job, t.c, first, base) && job.section.Some? && GetSection("", job.section.value).Absent?
    requires Decide(job, t, read, first, base, n).Write?
    ensures var plan := Decide(job, t, read, first, base, n);
      plan.expected == VersionOf(read) && plan.base == Base(job, t.c) && SafeEdit(job, t, read, plan.doc)
  {
    var s, body := job.section.value, Body(t.c, read);
    var fm := if read.None? then [] else Parse(t.c, read.value).0;
    var got := GetSection(body, s);
    StampedDumps(t, read, fm, ReplaceSection(body, s, job.content, t.blank).value, VersionOf(read),
                 if base.Some? then base.value else ContentOf(got), n);
    assert StampedFrom(t, read, n, ReplaceSection(body, s, job.content, t.blank).value,
                       Decide(job, t, read, first, base, n).doc);
  }

  // Why a call parks

  /**
    A sight of the document that parks an edit: its section is there twice or no longer what the caller
    saw, or, the first time, the document is not the version the caller declared. A whole document is
    parked when its write was refused.
  */
  predicate Disputes(job: Job, t: Tools, seen: seq<Sighting<string>>, from: nat, i: nat)
    requires from <= i < |seen|
  {
    match job.section
    case None => seen[i] == Answered(job.Key(), None)
    case Some(s) =>
      && seen[i].Saw? && seen[i].key == job.Key()
      && (|| GetSection(Body(t.c, seen[i].value), s).Duplicate?
          || !SectionEq(SectionIn(t.c, seen[i].value, s), Base(job, t.c))
          || (FirstSight(seen, from, i) && VersionOf(seen[i].value) != job.declared))
  }

  /** Nothing was learned of this key before. */
  predicate FirstSight(seen: seq<Sighting<string>>, from: nat, i: nat)
    requires from <= i < |seen|
  {
    forall j :: from <= j < i ==> seen[j].key != seen[i].key
  }

  ghost predicate MustPark(job: Job, t: Tools, seen: seq<Sighting<string>>, from: nat) {
    exists i :: from <= i < |seen| && Disputes(job, t, seen, from, i)
  }

  lemma MustParkStays(job: Job, t: Tools, seen: seq<Sighting<string>>, seen': seq<Sighting<string>>, from: nat)
    requires MustPark(job, t, seen, from) && seen <= seen'
    ensures MustPark(job, t, seen', from)
  {
    var i :| from <= i < |seen| && Disputes(job, t, seen, from, i);
    assert forall j :: 0 <= j < |seen| ==> seen'[j] == seen[j];
    assert Disputes(job, t, seen', from, i);
  }

  /** How many writes of this key were answered as not stored. */
  function Refusals(seen: seq<Sighting<string>>, key: Key): nat {
    if seen == [] then 0
    else Refusals(seen[..|seen| - 1], key) + if seen[|seen| - 1] == Answered(key, None) then 1 else 0
  }

  lemma OneMoreRefusal(seen: seq<Sighting<string>>, key: Key, read: Option<string>)
    ensures Refusals(seen + [Saw(key, read), Answered(key, None)], key) == Refusals(seen, key) + 1
  {
    var seen' := seen + [Saw(key, read), Answered(key, None)];
    assert seen'[..|seen'| - 1] == seen + [Saw(key, read)];
    assert (seen + [Saw(key, read)])[..|seen|] == seen;
  }

  lemma {:induction false} MoreRefusals(seen: seq<Sighting<string>>, seen': seq<Sighting<string>>, key: Key)
    requires seen <= seen'
    ensures Refusals(seen, key) <= Refusals(seen', key)
    decreases |seen'|
  {
    if seen != seen' {
      assert seen <= seen'[..|seen'| - 1];
      MoreRefusals(seen, seen'[..|seen'| - 1], key);
    } else {
      assert seen == seen';
    }
  }

  lemma ParkingMustPark(job: Job, t: Tools, read: Option<string>, first: bool, base: Option<Option<string>>, n: nat,
                        seen: seq<Sighting<string>>, from: nat)
    requires Grounded(job, t.c, first, base) && Decide(job, t, read, first, base, n).ParkIt?
    requires from < |seen| && seen[|seen| - 1] == Saw(job.Key(), read)
    requires first ==> FirstSight(seen, from, |seen| - 1)
    ensures MustPark(job, t, seen, from)
  {
    assert Disputes(job, t, seen, from, |seen| - 1);
  }

  // What a call comes to when nobody is in the way

  /** The caller knows the document that is there: a section of its own version of it, or none was there at all. */
  predicate Undisputed(job: Job, c: Charset, read: Option<string>) {
    match job.section
    case None => read.None? || VersionOf(read) == job.declared
    case Some(s) => VersionOf(read) == job.declared && !GetSection(Body(c, read), s).Duplicate?
  }

  /** The body the call is to leave. */
  function NewBody(job: Job, t: Tools, read: Option<string>): string
    requires Undisputed(job, t.c, read)
  {
    match job.section
    case None => job.content
    case Some(s) => ReplaceSection(Body(t.c, read), s, job.content, t.blank).value
  }

  predicate IsParked(out: Outcome) {
    (out.Parked? && !out.exhausted) || out == Died(ParkFailed)
  }

  /**
    A document without metadata, or one the caller declared no version of, is refused. An edit of the
    version that is there is applied, under the metadata found and stamped, unless that is refused; any
    other edit is parked.
  */
  predicate CalmFlush(job: Job, t: Tools, read: Option<string>, n: nat, out: Outcome) {
    var stamped := t.stamp(MetaIn(t.c, read), n);
    if read.Some? && Parse(t.c, read.value).0 == [] then out == Died(MalformedFrontMatter)
    else if read.Some? && job.declared.None? then out == Died(ExpectHashRequired)
    else if !Undisputed(job, t.c, read) then
      if job.section.None? && stamped.None? then out == Died(BadMetadata) else IsParked(out)
    else if stamped.None? then out == Died(BadMetadata)
    else out == Flushed(Sha256(Dump(t.c, stamped.value, NewBody(job, t, read))))
  }

  lemma FirstPlan(job: Job, t: Tools, read: Option<string>, n: nat, out: Outcome)
    requires CalmOutcome(Decide(job, t, read, true, None, n), read, out)
    ensures CalmFlush(job, t, read, n, out)
  {
    var fm := if read.None? then [] else Parse(t.c, read.value).0;
    if job.section.None? {
      StampedDumps(t, read, fm, job.content, if read.Some? then job.declared else None, None, n);
    } else if Undisputed(job, t.c, read) {
      var s, body := job.section.value, Body(t.c, read);
      StampedDumps(t, read, fm, ReplaceSection(body, s, job.content, t.blank).value, VersionOf(read),
                   ContentOf(GetSection(body, s)), n);
    }
  }

  lemma EmptyHasNoSection(s: Search)
    ensures GetSection("", s).Absent?
  {
    Outline.LocateMeans([], s.title, s.heading, 0, 0);
  }

  /** The write replaced exactly the document it was computed from. */
  predicate Replaces(l: Landing<string>) {
    match l.op
    case Create(_) => l.before.value.None?
    case Update(_, expected, _) => l.before.value == Some(expected.body)
    case _ => false
  }

  /** From here on this caller only leased the document and then, at most once and last, wrote a safe edit of it. */
  ghost predicate EditedOnce(ls: seq<Landing<string>>, from: nat, job: Job, t: Tools) {
    forall j :: from <= j < |ls| ==>
      && ls[j].key == job.Key()
      && (if j == |ls| - 1 && IsWrite(ls[j].op) then SafeOp(job, t, ls[j].op) && Replaces(ls[j]) else ls[j].op.Acquire?)
  }

  lemma EditedAfter(ls: seq<Landing<string>>, from: nat, mid: nat, job: Job, t: Tools)
    requires from <= mid <= |ls| && NoWrites(ls[..mid], from, job.Key()) && EditedOnce(ls, mid, job, t)
    ensures EditedOnce(ls, from, job, t)
    ensures NoWrites(ls, mid, job.Key()) ==> NoWrites(ls, from, job.Key())
  {
    forall j | from <= j < mid
      ensures ls[j].key == job.Key() && ls[j].op.Acquire?
    {
      assert ls[j] == ls[..mid][j];
    }
  }

  datatype Step = Waiting | Conflicting | Parking | Finished(outcome: Outcome)

  /** A flushed document is in the store; this call put it there, or created it a second time. */
  ghost predicate Applied(store: Store<string>, from: nat, job: Job, t: Tools, v: Version<string>)
    reads store
  {
    && store.Value(job.Key()) == Some(v.body)
    && (if |store.landings| > from && IsWrite(store.landings[|store.landings| - 1].op)
        then store.landings[|store.landings| - 1].op.body == v.body
        else SafeEdit(job, t, None, v.body))
  }

  method WriteDoc(store: Store<string>, job: Job, t: Tools, pre: Precondition<string>, doc: string) returns (step: Step)
    requires SafeOp(job, t, OpFor(pre, doc))
    modifies store
    ensures old(store.landings) <= store.landings && old(store.seen) <= store.seen && old(store.clock) <= store.clock
    ensures old(store.tick) <= store.tick
    ensures |store.landings| <= |old(store.landings)| + 1
    ensures EditedOnce(store.landings, |old(store.landings)|, job, t)
    ensures |store.landings| > |old(store.landings)| ==> IsWrite(store.landings[|old(store.landings)|].op)
    ensures step.Conflicting? ==>
      store.landings == old(store.landings) && store.seen == old(store.seen) + [Answered(job.Key(), None)]
    ensures !step.Finished? || step.outcome.Flushed? ==> store.doubtful == old(store.doubtful)
    ensures !step.Waiting? && !step.Parking?
    ensures step.Finished? ==> !step.outcome.Parked?
    ensures step.Finished? && step.outcome.Flushed? ==>
      Applied(store, |old(store.landings)|, job, t, step.outcome.version)
    ensures store.Quiet(old(store.tick)) ==>
      var verdict := Register.Judge(store.gen, old(store.At(job.Key())), pre, doc, store.turns(old(store.tick)).wall);
      && (verdict.Commit? ==> step == Finished(Flushed(Sha256(doc))))
      && (verdict.Refuse? && pre.Overwrite? ==> step == Conflicting)
    // An error is reported as what it was.
    ensures match store.turns(old(store.tick)).fate
      case Broken(kind, _) => step == Finished(Died(if kind == SecretBlocked then Secret else NotWritten(kind)))
      case Thrown(_) => step == Finished(Aborted)
      case _ => true
  {
    var reply := store.Persist(job.Key(), pre, doc);
    if reply.Raised? {
      return Finished(Aborted);
    }
    match reply.result {
      case Ok(v) => step := Finished(Flushed(v));
      case Stale(_, _) => step := Conflicting;
      case Exists(_) => step := Conflicting;
      case Error(kind) => step := Finished(Died(if kind == SecretBlocked then Secret else NotWritten(kind)));
    }
  }

  /** The write of an attempt, under its lease. */
  method WriteUnder(store: Store<string>, job: Job, t: Tools, ghost read: Option<string>, lease: Lease,
                    expected: Option<Version<string>>, doc: string) returns (step: Step)
    requires SafeOp(job, t, OpFor(if expected.None? then CreateOnly else Overwrite(expected.value, lease), doc))
    modifies store
    ensures old(store.landings) <= store.landings && old(store.seen) <= store.seen && old(store.clock) <= store.clock
    ensures old(store.tick) <= store.tick
    ensures EditedOnce(store.landings, |old(store.landings)|, job, t)
    ensures step.Conflicting? ==>
      store.landings == old(store.landings) && store.seen == old(store.seen) + [Answered(job.Key(), None)]
    ensures !step.Finished? || step.outcome.Flushed? ==> store.doubtful == old(store.doubtful)
    ensures !step.Waiting? && !step.Parking?
    ensures step.Finished? ==> !step.outcome.Parked?
    ensures step.Finished? && step.outcome.Flushed? ==>
      Applied(store, |old(store.landings)|, job, t, step.outcome.version)
    ensures (
      && old(ReadyFor(store, job.Key(), read, lease)) && (forall b :: store.gen(b).None?)
      && store.Quiet(old(store.tick))) ==> CalmWrite(expected, doc, read, step)
  {
    var pre := if expected.None? then CreateOnly else Overwrite(expected.value, lease);
    ReadyCommits(store, job.Key(), read, lease, doc);
    step := WriteDoc(store, job, t, pre, doc);
  }

  /** What an attempt with nobody in the way comes to. */
  predicate CalmStep(plan: Plan, read: Option<string>, step: Step) {
    match plan
    case Die(reason) => step == Finished(Died(reason))
    case ParkIt => step == Parking
    case Write(expected, doc, _) => CalmWrite(expected, doc, read, step)
  }

  predicate CalmWrite(expected: Option<Version<string>>, doc: string, read: Option<string>, step: Step) {
    && (expected == VersionOf(read) ==> step == Finished(Flushed(Sha256(doc))))
    && (expected.Some? && expected != VersionOf(read) ==> step == Conflicting)
  }

  /** Decide on what was read under a lease, and do it. */
  method DecideAndWrite(store: Store<string>, job: Job, t: Tools, first: bool, base: Option<Option<string>>, n: nat,
                        read: Option<string>, lease: Lease) returns (step: Step, base': Option<Option<string>>)
    requires Grounded(job, t.c, first, base)
    modifies store
    ensures old(store.landings) <= store.landings && old(store.seen) <= store.seen && old(store.clock) <= store.clock
    ensures old(store.tick) <= store.tick
    ensures EditedOnce(store.landings, |old(store.landings)|, job, t)
    ensures !step.Finished? ==> store.landings == old(store.landings)
    ensures step.Parking? ==> store.seen == old(store.seen) && Decide(job, t, read, first, base, n).ParkIt?
    ensures step.Conflicting? ==> store.seen == old(store.seen) + [Answered(job.Key(), None)]
    ensures !step.Finished? || step.outcome.Flushed? ==> store.doubtful == old(store.doubtful)
    ensures !step.Waiting?
    ensures step.Finished? ==> !step.outcome.Parked?
    ensures step.Conflicting? && job.section.Some? ==> base' == Some(Base(job, t.c))
    ensures step.Finished? && step.outcome.Flushed? ==>
      Applied(store, |old(store.landings)|, job, t, step.outcome.version)
    ensures (
      && old(ReadyFor(store, job.Key(), read, lease)) && (forall b :: store.gen(b).None?)
      && store.Quiet(old(store.tick))) ==> CalmStep(Decide(job, t, read, first, base, n), read, step)
  {
    base' := base;
    match Decide(job, t, read, first, base, n) {
      case Die(reason) => step := Finished(Died(reason));
      case ParkIt => step := Parking;
      case Write(expected, doc, b) =>
        DecisionIsSafe(job, t, read, first, base, n, lease);
        step := WriteUnder(store, job, t, read, lease, expected, doc);
        base' := Some(b);
    }
  }

  /** One attempt, under one lease. */
  method AttemptOnce(store: Store<string>, job: Job, t: Tools, first: bool, base: Option<Option<string>>, n: nat)
    returns (step: Step, base': Option<Option<string>>)
    requires Grounded(job, t.c, first, base)
    modifies store
    ensures old(store.landings) <= store.landings && old(store.seen) <= store.seen && old(store.clock) <= store.clock
    ensures old(store.tick) <= store.tick
    ensures EditedOnce(store.landings, |old(store.landings)|, job, t)
    ensures !step.Finished? ==> NoWrites(store.landings, |old(store.landings)|, job.Key())
    ensures !step.Finished? || step.outcome.Flushed? ==> store.doubtful == old(store.doubtful)
    ensures step.Finished? ==> !step.outcome.Parked?
    ensures step.Waiting? ==> base' == base
    ensures SeenBy(job, t, first, base, n, old(store.seen), store.seen, step)
    ensures step.Conflicting? && job.section.Some? ==> base' == Some(Base(job, t.c))
    ensures step.Finished? && step.outcome.Flushed? ==>
      Applied(store, |old(store.landings)|, job, t, step.outcome.version)
    ensures store.CalmFrom(old(store.tick), LEASE_TTL) ==>
      CalmStep(Decide(job, t, old(store.Value(job.Key())), first, base, n), old(store.Value(job.Key())), step)
  {
    var o := Open(store, job.Key(), t.token(n));
    if o.NotOpened? {
      return if o.a.Again? then Waiting else Finished(Aborted), base;
    }
    ghost var mid := |store.landings|;
    step, base' := DecideAndWrite(store, job, t, first, base, n, o.read, o.lease);
    EditedAfter(store.landings, |old(store.landings)|, mid, job, t);
  }

  // Parking, and the whole call

  /** This call left the document alone: it took leases of it at most. */
  ghost predicate Untouched(ls: seq<Landing<string>>, from: nat, key: Key) {
    forall j :: from <= j < |ls| && ls[j].key == key ==> ls[j].op.Acquire?
  }

  /** The losing text was in the store, to the letter, under this conflict key. */
  ghost predicate KeptVerbatim(store: Store<string>, from: nat, key: Key, content: string)
    requires from <= |store.seen|
    reads store
  {
    Answered(key, Some(content)) in store.seen[from..]
  }

  /** A create of this text under this key succeeds when nobody is in the way. */
  predicate Takes(store: Store<string>, key: Key, content: string)
    reads store
  {
    store.Value(key).None? || store.Value(key) == Some(content)
  }

  /** The j-th name tried from this request on takes the text. */
  predicate NameTakes(store: Store<string>, job: Job, t: Tools, at: nat, j: nat)
    reads store
  {
    Takes(store, ConflictKey(job.project, t.suffix(at + j)), job.content)
  }

  /** The first of the names, from the i-th on, that takes the text. */
  function FirstFree(store: Store<string>, job: Job, t: Tools, at: nat, i: nat): (n: nat)
    requires i <= PARK_ATTEMPTS
    reads store
    ensures i <= n <= PARK_ATTEMPTS
    ensures forall j :: i <= j < n ==> !NameTakes(store, job, t, at, j)
    ensures n < PARK_ATTEMPTS ==> NameTakes(store, job, t, at, n)
    decreases PARK_ATTEMPTS - i
  {
    if i == PARK_ATTEMPTS || NameTakes(store, job, t, at, i) then i else FirstFree(store, job, t, at, i + 1)
  }

  /** Up to three names for the losing text; the first that takes it is its conflict key. */
  method ParkText(store: Store<string>, job: Job, t: Tools) returns (key: Option<Key>, out: Outcome)
    modifies store
    ensures old(store.landings) <= store.landings && old(store.seen) <= store.seen
    ensures Untouched(store.landings, |old(store.landings)|, job.Key())
    ensures job.Key() in store.doubtful ==> job.Key() in old(store.doubtful)
    ensures old(store.clock) <= store.clock
    ensures key.None? ==> out == Aborted || out == Died(ConflictSecret) || out == Died(ParkFailed)
    ensures key.Some? ==>
      && (exists suffix :: key.value == ConflictKey(job.project, suffix))
      && KeptVerbatim(store, |old(store.seen)|, key.value, job.content)
    ensures old(store.tick) <= store.tick
    // With nobody in the way the first name that is free, or holds this very text, takes it.
    ensures store.QuietFrom(old(store.tick)) ==>
      var i := old(FirstFree(store, job, t, store.tick, 0));
      if i < PARK_ATTEMPTS then key == Some(ConflictKey(job.project, t.suffix(old(store.tick) + i)))
      else key.None? && out == Died(ParkFailed)
  {
    for i := 0 to PARK_ATTEMPTS
      invariant old(store.landings) <= store.landings && old(store.seen) <= store.seen
      invariant Untouched(store.landings, |old(store.landings)|, job.Key())
      invariant job.Key() in store.doubtful ==> job.Key() in old(store.doubtful)
      invariant old(store.clock) <= store.clock
      invariant store.tick == old(store.tick) + i
      invariant store.QuietFrom(old(store.tick)) ==>
        && store.regs == old(store.regs)
        && old(FirstFree(store, job, t, store.tick, 0)) == old(FirstFree(store, job, t, store.tick, i))
    {
      var candidate := ConflictKey(job.project, t.suffix(store.tick));
      var kept := KeepText(store, job, t.suffix(store.tick));
      match kept {
        case Kept => return Some(candidate), Aborted;
        case Stopped(o) => return None, o;
        case NotKept =>
      }
    }
    return None, Died(ParkFailed);
  }

  datatype Keeping = Kept | NotKept | Stopped(out: Outcome)

  /** One name tried. */
  method KeepText(store: Store<string>, job: Job, suffix: string) returns (kept: Keeping)
    modifies store
    ensures old(store.landings) <= store.landings && old(store.seen) <= store.seen && store.tick == old(store.tick) + 1
    ensures old(store.clock) <= store.clock
    ensures forall j :: |old(store.landings)| <= j < |store.landings| ==> store.landings[j].key != job.Key()
    ensures job.Key() in store.doubtful ==> job.Key() in old(store.doubtful)
    ensures kept.Kept? ==>
      && |store.seen| > |old(store.seen)|
      && store.seen[|store.seen| - 1] == Answered(ConflictKey(job.project, suffix), Some(job.content))
    ensures kept.Stopped? ==> kept.out == Aborted || kept.out == Died(ConflictSecret)
    // A secret in the text stops parking, as an exception does; any other error leaves another name to try.
    ensures match store.turns(old(store.tick)).fate
      case Broken(kind, _) => kept == if kind == SecretBlocked then Stopped(Died(ConflictSecret)) else NotKept
      case Thrown(_) => kept == Stopped(Aborted)
      case _ => true
    ensures store.Quiet(old(store.tick)) ==>
      && kept == (if old(Takes(store, ConflictKey(job.project, suffix), job.content)) then Kept else NotKept)
      && (kept.NotKept? ==> store.regs == old(store.regs))
  {
    KeysApart(job, suffix);
    var reply := store.Persist(ConflictKey(job.project, suffix), CreateOnly, job.content);
    if reply.Raised? {
      return Stopped(Aborted);
    }
    if reply.result.Ok? {
      return Kept;
    }
    kept := if reply.result == Error(SecretBlocked) then Stopped(Died(ConflictSecret)) else NotKept;
  }

  /** `_park_conflict`: keep the losing text, leave a note in the conflict journal, and say so. */
  method ParkConflict(store: Store<string>, job: Job, t: Tools, exhausted: bool) returns (out: Outcome)
    requires t.journal.Lawful()
    modifies store
    ensures old(store.landings) <= store.landings && old(store.seen) <= store.seen
    ensures Untouched(store.landings, |old(store.landings)|, job.Key())
    ensures job.Key() in store.doubtful ==> job.Key() in old(store.doubtful)
    ensures old(store.clock) <= store.clock
    ensures !out.Flushed?
    ensures out.Parked? ==>
      && out.exhausted == exhausted
      && (exists suffix :: out.key == ConflictKey(job.project, suffix))
      && KeptVerbatim(store, |old(store.seen)|, out.key, job.content)
    ensures store.CalmFrom(old(store.tick), LEASE_TTL) ==>
      var i := old(FirstFree(store, job, t, store.tick, 0));
      if i < PARK_ATTEMPTS then out.Parked? && out.key == ConflictKey(job.project, t.suffix(old(store.tick) + i))
      else out == Died(ParkFailed)
  {
    var key;
    key, out := ParkText(store, job, t);
    if key.None? {
      return;
    }
    ghost var mid := |store.landings|;
    KeysApart(job, "");
    var noted := SessionAppend(store, JournalKey(job.project), t.journal, t.note(key.value));
    assert Untouched(store.landings, mid, job.Key());
    out := if noted.Crashed? then Aborted else Parked(exhausted, key.value, noted.Appended?);
  }

  /** What a call with nobody in the way comes to. */
  predicate CalmOutcome(plan: Plan, read: Option<string>, out: Outcome) {
    match plan
    case Die(reason) => out == Died(reason)
    case ParkIt => IsParked(out)
    case Write(expected, doc, _) =>
      && (expected == VersionOf(read) ==> out == Flushed(Sha256(doc)))
      && (expected.Some? && expected != VersionOf(read) ==> IsParked(out))
  }

  /** What the attempts of a call come to when nobody is in the way; None means parking. */
  predicate CalmAttempts(plan: Plan, read: Option<string>, done: Option<Outcome>, exhausted: bool) {
    match plan
    case Die(reason) => done == Some(Died(reason))
    case ParkIt => done.None? && !exhausted
    case Write(expected, doc, _) =>
      && (expected == VersionOf(read) ==> done == Some(Flushed(Sha256(doc))))
      && (expected.Some? && expected != VersionOf(read) ==> done.None? && !exhausted)
  }

  /** Five writes were refused, or another writer's lease was waited out for the whole time. */
  predicate Exhausted(seen: seq<Sighting<string>>, before: seq<Sighting<string>>, key: Key, began: nat, now: nat) {
    Refusals(seen, key) >= Refusals(before, key) + MAX_CAS_ATTEMPTS || now >= began + BUSY_WAIT_MS
  }

  /** The first attempt of a call with nobody in the way is its last. */
  lemma CalmNext(job: Job, t: Tools, read: Option<string>, n: nat, step: Step)
    requires CalmStep(Decide(job, t, read, true, None, n), read, step)
    ensures var plan := Decide(job, t, read, true, None, n);
      match step
      case Finished(out) => CalmAttempts(plan, read, Some(out), false)
      case Waiting => false
      case Parking => CalmAttempts(plan, read, None, false)
      case Conflicting => CalmAttempts(plan, read, None, false) && job.section.None?
  {
  }

  /** What an attempt that did not finish has seen. */
  ghost predicate SeenBy(job: Job, t: Tools, first: bool, base: Option<Option<string>>, n: nat,
                         seen: seq<Sighting<string>>, seen': seq<Sighting<string>>, step: Step)
  {
    match step
    case Finished(_) => true
    case Waiting => seen' == seen
    case Parking => exists read ::
      seen' == seen + [Saw(job.Key(), read)] && Decide(job, t, read, first, base, n).ParkIt?
    case Conflicting => exists read :: seen' == seen + [Saw(job.Key(), read), Answered(job.Key(), None)]
  }

  /** What the loop has seen after so many refused attempts, and once it has decided to park. */
  ghost predicate SoFar(job: Job, t: Tools, before: seq<Sighting<string>>, seen: seq<Sighting<string>>, attempt: nat,
                        park: bool)
  {
    && before <= seen && (attempt == 0 && !park ==> seen == before)
    && Refusals(seen, job.Key()) >= Refusals(before, job.Key()) + attempt
    && (park ==> MustPark(job, t, seen, |before|))
  }

  lemma Learned(job: Job, t: Tools, base: Option<Option<string>>, n: nat, before: seq<Sighting<string>>,
                seen: seq<Sighting<string>>, seen': seq<Sighting<string>>, attempt: nat, step: Step)
    requires SoFar(job, t, before, seen, attempt, false) && Grounded(job, t.c, attempt == 0, base)
    requires SeenBy(job, t, attempt == 0, base, n, seen, seen', step)
    ensures step.Waiting? ==> SoFar(job, t, before, seen', attempt, false)
    ensures step.Parking? ==> SoFar(job, t, before, seen', attempt, true)
    ensures step.Conflicting? ==> SoFar(job, t, before, seen', attempt + 1, job.section.None?)
  {
    match step {
      case Parking =>
        var read :| seen' == seen + [Saw(job.Key(), read)] && Decide(job, t, read, attempt == 0, base, n).ParkIt?;
        ParkingMustPark(job, t, read, attempt == 0, base, n, seen', |before|);
        MoreRefusals(seen, seen', job.Key());
      case Conflicting =>
        var read :| seen' == seen + [Saw(job.Key(), read), Answered(job.Key(), None)];
        OneMoreRefusal(seen, job.Key(), read);
        if job.section.None? {
          assert Disputes(job, t, seen', |before|, |seen'| - 1);
        }
      case _ =>
    }
  }

  /** The retry loop of `_flush_doc`: an outcome, or the decision to park after nothing was written. */
  method Attempts(store: Store<string>, job: Job, t: Tools) returns (done: Option<Outcome>, exhausted: bool)
    modifies store
    ensures old(store.landings) <= store.landings && old(store.seen) <= store.seen && old(store.tick) <= store.tick
    ensures EditedOnce(store.landings, |old(store.landings)|, job, t)
    ensures done.None? ==> NoWrites(store.landings, |old(store.landings)|, job.Key())
    // It gives up for a reason it saw, or after all its attempts, or after waiting its time out.
    ensures done.None? && !exhausted ==> MustPark(job, t, store.seen, |old(store.seen)|)
    ensures done.None? && exhausted ==> Exhausted(store.seen, old(store.seen), job.Key(), old(store.clock), store.clock)
    ensures done.None? || done.value.Flushed? ==> store.doubtful == old(store.doubtful)
    ensures done.Some? ==> !done.value.Parked?
    ensures done.Some? && done.value.Flushed? ==> Applied(store, |old(store.landings)|, job, t, done.value.version)
    ensures store.CalmFrom(old(store.tick), LEASE_TTL) ==>
      CalmAttempts(Decide(job, t, old(store.Value(job.Key())), true, None, old(store.tick)),
                   old(store.Value(job.Key())), done, exhausted)
  {
    ghost var read := store.Value(job.Key());
    ghost var plan := Decide(job, t, read, true, None, store.tick);
    ghost var started := false;
    var attempt, base, park := 0, None, false;
    var deadline := store.clock + BUSY_WAIT_MS;
    while attempt < MAX_CAS_ATTEMPTS && !park
      invariant old(store.landings) <= store.landings && old(store.tick) <= store.tick
      invariant NoWrites(store.landings, |old(store.landings)|, job.Key())
      invariant store.doubtful == old(store.doubtful)
      invariant SoFar(job, t, old(store.seen), store.seen, attempt, park) && old(store.clock) <= store.clock
      invariant attempt <= MAX_CAS_ATTEMPTS && (!park ==> Grounded(job, t.c, attempt == 0, base))
      invariant !started ==>
        store.tick == old(store.tick) && store.regs == old(store.regs) && attempt == 0 && base == None && !park
      invariant started && store.CalmFrom(old(store.tick), LEASE_TTL) ==>
        park && CalmAttempts(plan, read, None, false)
      decreases MAX_CAS_ATTEMPTS - attempt, !park, if store.clock < deadline then deadline - store.clock else 0
    {
      ghost var mid := |store.landings|;
      ghost var seen, was, n := store.seen, base, store.tick;
      var step;
      step, base := AttemptOnce(store, job, t, attempt == 0, base, store.tick);
      EditedAfter(store.landings, |old(store.landings)|, mid, job, t);
      Learned(job, t, was, n, old(store.seen), seen, store.seen, attempt, step);
      if !started && old(store.CalmFrom(store.tick, LEASE_TTL)) {
        CalmNext(job, t, read, n, step);
      }
      started := true;
      match step {
        case Finished(o) =>
          return Some(o), false;
        case Waiting =>
          // waiting out another writer's lease is no conflict and costs no attempt
          if store.clock >= deadline {
            break;
          }
          store.Sleep(1 + t.pause(store.tick));
        case Parking =>
          park := true;
        case Conflicting =>
          attempt := attempt + 1;
          if job.section.None? {
            park := true;
          } else {
            store.Sleep(1 + t.pause(store.tick));
          }
      }
    }
    done, exhausted := None, !park;
    LeasedOnly(store.landings, |old(store.landings)|, job, t);
  }

  lemma LeasedOnly(ls: seq<Landing<string>>, from: nat, job: Job, t: Tools)
    requires NoWrites(ls, from, job.Key())
    ensures EditedOnce(ls, from, job, t)
  {
  }

  /**
    `_flush_doc` past its checks. A flushed edit replaced a document whose section was still the one
    the caller knew; a parked one left the document alone and its text is in the store to the letter.
  */
  method FlushJob(store: Store<string>, job: Job, t: Tools) returns (out: Outcome)
    requires t.journal.Lawful()
    modifies store
    ensures old(store.landings) <= store.landings && old(store.seen) <= store.seen
    ensures out.Flushed? ==>
      && EditedOnce(store.landings, |old(store.landings)|, job, t)
      && Applied(store, |old(store.landings)|, job, t, out.version)
    ensures out.Parked? ==>
      && Untouched(store.landings, |old(store.landings)|, job.Key())
      && (exists suffix :: out.key == ConflictKey(job.project, suffix))
      && KeptVerbatim(store, |old(store.seen)|, out.key, job.content)
    // Neither outcome leaves a write of this call behind that could still touch the document.
    ensures out.Flushed? || out.Parked? ==> (job.Key() in store.doubtful ==> job.Key() in old(store.doubtful))
    // Whatever happened, the document was written at most once and only by a safe edit.
    ensures forall j :: |old(store.landings)| <= j < |store.landings| && store.landings[j].key == job.Key() ==>
      store.landings[j].op.Acquire? || (SafeOp(job, t, store.landings[j].op) && Replaces(store.landings[j]))
    // With nobody in the way, an edit of the version that is there is applied at once, any other is parked.
    // It parks for a reason it saw, or after all its attempts, or after waiting its time out.
    ensures out.Parked? ==>
      if out.exhausted then Exhausted(store.seen, old(store.seen), job.Key(), old(store.clock), store.clock)
      else MustPark(job, t, store.seen, |old(store.seen)|)
    ensures store.CalmFrom(old(store.tick), LEASE_TTL) ==>
      CalmFlush(job, t, old(store.Value(job.Key())), old(store.tick), out)
  {
    ghost var read, n := store.Value(job.Key()), store.tick;
    var done, exhausted := Attempts(store, job, t);
    if done.Some? {
      out := done.value;
    } else {
      ghost var seen := store.seen;
      out := ParkConflict(store, job, t, exhausted);
      MoreRefusals(seen, store.seen, job.Key());
      if !exhausted {
        MustParkStays(job, t, seen, store.seen, |old(store.seen)|);
      }
    }
    if old(store.CalmFrom(store.tick, LEASE_TTL)) {
      FirstPlan(job, t, read, n, out);
    }
  }

  /** `_flush_doc`: a bad section name or a heading in the new section text is refused before anything is read. */
  method Flush(store: Store<string>, project: string, isLog: bool, content: string, declared: Option<Version<string>>,
               section: Option<string>, t: Tools) returns (out: Outcome)
    requires t.journal.Lawful() && t.c.Lawful() && t.c.space('\t')
    modifies store
    ensures out.Flushed? ==> section.Some? ==> IsName(section.value) && PassesGuard(content)
    ensures out.Flushed? ==>
      var job := Job(project, isLog, content, declared, if section.None? then None else Some(SearchFor(section.value)));
      && EditedOnce(store.landings, |old(store.landings)|, job, t)
      && Applied(store, |old(store.landings)|, job, t, out.version)
    ensures out.Parked? ==>
      var job := Job(project, isLog, content, declared, if section.None? then None else Some(SearchFor(section.value)));
      && Untouched(store.landings, |old(store.landings)|, job.Key())
      && |old(store.seen)| <= |store.seen| && KeptVerbatim(store, |old(store.seen)|, out.key, content)
      && (if out.exhausted then Exhausted(store.seen, old(store.seen), job.Key(), old(store.clock), store.clock)
          else MustPark(job, t, store.seen, |old(store.seen)|))
      && (job.Key() in store.doubtful ==> job.Key() in old(store.doubtful))
    ensures section.Some? && (!IsName(section.value) || !PassesGuard(content)) ==>
      out.Died? && store.landings == old(store.landings)
    ensures store.CalmFrom(old(store.tick), LEASE_TTL) ==>
      (section.Some? ==> t.c.Strip(section.value) != "" && IsName(section.value) && PassesGuard(content)) ==>
      var job := Job(project, isLog, content, declared, if section.None? then None else Some(SearchFor(section.value)));
      CalmFlush(job, t, old(store.Value(job.Key())), old(store.tick), out)
  {
    if section.Some? {
      if t.c.Strip(section.value) == "" || '\n' in section.value || '\r' in section.value {
        return Died(InvalidSectionName);
      }
      NonBlankIsName(t.c, section.value);
      if !PassesGuard(content) {
        return Died(HeadingInBody);
      }
    }
    var job := Job(project, isLog, content, declared, if section.None? then None else Some(SearchFor(section.value)));
    out := FlushJob(store, job, t);
  }

  lemma NonBlankIsName(c: Charset, h: string)
    requires c.Lawful() && c.space('\t') && c.Strip(h) != "" && '\n' !in h && '\r' !in h
    ensures IsName(h)
  {
    StripIsTrimmed(c, h);
    var x := c.Strip(h)[0];
    assert x in h && !c.space(x);
    var i :| 0 <= i < |h| && h[i] == x;
    assert !IsBlank(h[i]);
  }
}
