/** Crashes of the local backend, down to the byte the journal append reached. */
module CrashRecovery {
  import opened Types
  import opened Journal
  import opened LocalStore

  datatype Disk = Disk(journal: Bytes, data: map<Name, Bytes>)

  /** A reopening may itself die between two keys, or inside the rebuild of one. */
  datatype Event = Write(commit: Commit, stop: Stop) | Reopen | ReopenDies(done: set<Name>, reserved: Option<Name>)

  function EntryOf(w: Commit): Entry {
    Entry(V2, RecordOf(w))
  }

  function Written(p: Platform, d: Disk, w: Commit, stop: Stop): Disk {
    var bytes := p.Encode(EntryOf(w));
    if stop.DiesInAppend? && stop.written < |bytes| then d.(journal := d.journal + bytes[..stop.written])
    else if stop.DiesInAppend? then d.(journal := d.journal + bytes)
    else Disk(d.journal + bytes, Published(d.data, w, stop))
  }

  /** A new instance over the directory: replay, then rebuild what differs. */
  function Reopened(p: Platform, d: Disk): Disk {
    d.(data := RecoveredData(p.Replay(d.journal), d.data))
  }

  function ReopenedPartly(p: Platform, d: Disk, done: set<Name>, reserved: Option<Name>): Disk {
    d.(data := RecoveredPartly(p.Replay(d.journal), d.data, done, reserved))
  }

  /** However far a reopening got before it died, reopening again ends as if it had not been tried. */
  lemma ReopeningIsRestartable(p: Platform, d: Disk, done: set<Name>, reserved: Option<Name>)
    ensures Reopened(p, ReopenedPartly(p, d, done, reserved)) == Reopened(p, d)
    ensures CacheAfterReopen(p, ReopenedPartly(p, d, done, reserved)) == CacheAfterReopen(p, d)
    ensures Reopened(p, Reopened(p, d)) == Reopened(p, d)
  {
    RecoverAgain(p.Replay(d.journal), d.data, done, reserved);
  }

  function CacheAfterReopen(p: Platform, d: Disk): map<Name, nat> {
    RecoveredCache(p.Replay(d.journal))
  }

  function After(p: Platform, d: Disk, events: seq<Event>): Disk {
    if events == [] then d
    else
      var before := After(p, d, events[..|events| - 1]);
      match events[|events| - 1]
      case Write(w, stop) => Written(p, before, w, stop)
      case Reopen => Reopened(p, before)
      case ReopenDies(done, reserved) => ReopenedPartly(p, before, done, reserved)
  }

  /** The records a run of events leaves in the journal. */
  function Appended(events: seq<Event>): seq<Entry> {
    if events == [] then []
    else
      var before := Appended(events[..|events| - 1]);
      match events[|events| - 1]
      case Write(w, _) => before + [EntryOf(w)]
      case _ => before
  }

  predicate Untorn(p: Platform, events: seq<Event>) {
    forall i :: 0 <= i < |events| && events[i].Write? ==>
      p.Writable(EntryOf(events[i].commit)) && !events[i].stop.DiesInAppend?
  }

  predicate AllWritable(p: Platform, es: seq<Entry>) {
    forall i :: 0 <= i < |es| ==> p.Writable(es[i])
  }

  lemma {:induction false} JournalOfRun(p: Platform, start: Disk, past: seq<Entry>, events: seq<Event>)
    requires start.journal == p.EncodeAll(past) && AllWritable(p, past) && Untorn(p, events)
    ensures After(p, start, events).journal == p.EncodeAll(past + Appended(events))
    ensures AllWritable(p, past + Appended(events))
  {
    if events == [] {
      assert past + [] == past;
    } else {
      var init, last := events[..|events| - 1], events[|events| - 1];
      JournalOfRun(p, start, past, init);
      if last.Write? {
        EncodeAllAppend(p, past + Appended(init), EntryOf(last.commit));
        assert past + Appended(events) == past + Appended(init) + [EntryOf(last.commit)];
      }
    }
  }

  lemma {:induction false} AppendedPrefix(events: seq<Event>, i: nat)
    requires i < |events| && events[i].Write?
    ensures |Appended(events[..i])| < |Appended(events)|
    ensures Appended(events)[|Appended(events[..i])|] == EntryOf(events[i].commit)
  {
    var n := |events| - 1;
    var init := events[..n];
    if i == n {
      assert events[..i] == init;
    } else {
      assert init[i] == events[i] && init[..i] == events[..i];
      AppendedPrefix(init, i);
    }
  }

  /** The whole records on disk when the last commit of the run was cut off by a crash. */
  function LogAtCrash(p: Platform, past: seq<Entry>, events: seq<Event>, last: Commit, crash: Stop): seq<Record> {
    Records(past + Appended(events)) +
      if crash.DiesInAppend? && crash.written < |p.Encode(EntryOf(last))| then [] else [RecordOf(last)]
  }

  /**
    Crash recovery: take any clean journal, any run of commits, failed publishes, crashes between
    whole steps and reopenings, and one last commit that dies at any byte of its append or any step
    after it. Reopening leaves every journalled key equal to its last whole record, its accepted
    fence equal to that record's, and every other file as the crash left it.
  */
  lemma CrashRecovery(p: Platform, start: Disk, past: seq<Entry>, events: seq<Event>, last: Commit, crash: Stop)
    requires p.Lawful() && p.Writable(EntryOf(last))
    requires start.journal == p.EncodeAll(past) && AllWritable(p, past) && Untorn(p, events)
    ensures var d := Written(p, After(p, start, events), last, crash);
      var log := LogAtCrash(p, past, events, last, crash);
      && p.Replay(d.journal) == log
      && (forall k :: k in Latest(log) ==>
            && k in Reopened(p, d).data && Reopened(p, d).data[k] == Latest(log)[k].body
            && k in CacheAfterReopen(p, d) && CacheAfterReopen(p, d)[k] == Latest(log)[k].fence)
      && (forall k :: k !in Latest(log) ==>
            (k in Reopened(p, d).data <==> k in d.data) && (k in d.data ==> Reopened(p, d).data[k] == d.data[k]))
  {
    JournalAtCrash(p, start, past, events, last, crash);
    var d := Written(p, After(p, start, events), last, crash);
    RecoveryOfLog(p, d);
  }

  /** What replay finds after the crash. */
  lemma JournalAtCrash(p: Platform, start: Disk, past: seq<Entry>, events: seq<Event>, last: Commit, crash: Stop)
    requires p.Lawful() && p.Writable(EntryOf(last))
    requires start.journal == p.EncodeAll(past) && AllWritable(p, past) && Untorn(p, events)
    ensures p.Replay(Written(p, After(p, start, events), last, crash).journal) ==
      LogAtCrash(p, past, events, last, crash)
  {
    var es := past + Appended(events);
    JournalOfRun(p, start, past, events);
    var bytes := p.Encode(EntryOf(last));
    var written := if crash.DiesInAppend? && crash.written < |bytes| then crash.written else |bytes|;
    assert bytes[..|bytes|] == bytes;
    ReplayTornAppend(p, es, EntryOf(last), written);
  }

  /** What a reopening makes of a directory, in terms of what replay finds. */
  lemma RecoveryOfLog(p: Platform, d: Disk)
    ensures var log := p.Replay(d.journal);
      && (forall k :: k in Latest(log) ==>
            && k in Reopened(p, d).data && Reopened(p, d).data[k] == Latest(log)[k].body
            && k in CacheAfterReopen(p, d) && CacheAfterReopen(p, d)[k] == Latest(log)[k].fence)
      && (forall k :: k !in Latest(log) ==>
            (k in Reopened(p, d).data <==> k in d.data) && (k in d.data ==> Reopened(p, d).data[k] == d.data[k]))
  {
  }

  /**
    Every write that returned OK survives: after the recovery its key holds that write's body or
    the body of a later whole record of the same key, with that record's fence.
  */
  lemma AcknowledgedWritesSurvive(p: Platform, start: Disk, past: seq<Entry>, events: seq<Event>, last: Commit,
                                  crash: Stop, i: nat)
    requires p.Lawful() && p.Writable(EntryOf(last))
    requires start.journal == p.EncodeAll(past) && AllWritable(p, past) && Untorn(p, events)
    requires i < |events| && events[i].Write? && events[i].stop == Completes
    ensures var d := Written(p, After(p, start, events), last, crash);
      var log := LogAtCrash(p, past, events, last, crash);
      var name := events[i].commit.name;
      && name in Latest(log) && LastFrom(log, Latest(log)[name], |past| + |Appended(events[..i])|)
      && name in Reopened(p, d).data && Reopened(p, d).data[name] == Latest(log)[name].body
      && name in CacheAfterReopen(p, d) && CacheAfterReopen(p, d)[name] == Latest(log)[name].fence
  {
    CrashRecovery(p, start, past, events, last, crash);
    AppendedPrefix(events, i);
    var log := LogAtCrash(p, past, events, last, crash);
    var at := |past| + |Appended(events[..i])|;
    assert log[at] == RecordOf(events[i].commit);
    LatestIsLast(log, at);
  }

  /**
    Completed commits are replayed, whichever they are, exactly when the journal they are appended to
    was clean.
  */
  lemma CommitsReplayedIffClean(p: Platform, d: Disk)
    requires p.Lawful() && p.decodable([65]) && p.decodable([65, 65])
    ensures p.Rest(d.journal) == [] <==> forall w :: p.Writable(EntryOf(w)) ==>
      p.Replay(Written(p, d, w, Completes).journal) == p.Replay(d.journal) + [RecordOf(w)]
  {
    AppendsCountIffClean(p, d.journal);
    if p.Rest(d.journal) == [] {
      forall w | p.Writable(EntryOf(w))
        ensures p.Replay(Written(p, d, w, Completes).journal) == p.Replay(d.journal) + [RecordOf(w)]
      {
        assert Counts(p, d.journal, EntryOf(w));
      }
    } else {
      var e :| p.Writable(e) && e.shape.V2? && !Counts(p, d.journal, e);
      var w := Commit(e.record.key, e.record.body, false, e.record.fence);
      assert EntryOf(w) == e;
      assert p.Replay(Written(p, d, w, Completes).journal) != p.Replay(d.journal) + [RecordOf(w)];
    }
  }

  /**
    What a lost commit costs. Over a tail torn inside the magic a completed, acknowledged commit
    is published and yet never replayed: the next reopening forgets the fence it was accepted under,
    and could not rebuild its file.
  */
  lemma AcknowledgedFenceLostAfterTornTail(p: Platform, torn: nat, w: Commit)
    requires p.Lawful() && 0 < torn < 4 && |p.Encode(EntryOf(w))| < 0x4B4B_4A4B
    ensures var d := Written(p, Disk(MAGIC[..torn], map[]), w, Completes);
      && w.name in d.data && d.data[w.name] == w.body
      && p.Replay(d.journal) == []
      && w.name !in CacheAfterReopen(p, d)
  {
    var bytes := p.Encode(EntryOf(w));
    assert bytes[..4] == MAGIC;
    TornTailHidesAppends(p, torn, bytes);
  }

  /**
    The worse cost. If an older whole record of the key lies before the torn tail, the next reopening
    takes it for the last one: it puts the older body back over the one that was acknowledged.
  */
  lemma AcknowledgedBodyRolledBack(p: Platform, past: seq<Entry>, data: map<Name, Bytes>, torn: nat, w: Commit)
    requires p.Lawful() && AllWritable(p, past) && 0 < torn < 4 && |p.Encode(EntryOf(w))| < 0x4B4B_4A4B
    requires w.name in Latest(Records(past))
    ensures var d := Written(p, Disk(p.EncodeAll(past) + MAGIC[..torn], data), w, Completes);
      var older := Latest(Records(past))[w.name];
      && w.name in d.data && d.data[w.name] == w.body
      && p.Replay(d.journal) == Records(past)
      && Reopened(p, d).data[w.name] == older.body
      && w.name in CacheAfterReopen(p, d) && CacheAfterReopen(p, d)[w.name] == older.fence
  {
    var bytes := p.Encode(EntryOf(w));
    assert bytes[..4] == MAGIC;
    TornTailHidesAppends(p, torn, bytes);
    ReplayAfterClean(p, past, MAGIC[..torn] + bytes);
    var d := Written(p, Disk(p.EncodeAll(past) + MAGIC[..torn], data), w, Completes);
    assert d.journal == p.EncodeAll(past) + (MAGIC[..torn] + bytes);
    assert p.Replay(d.journal) == Records(past) + [];
    RecoveryOfLog(p, d);
  }
}
