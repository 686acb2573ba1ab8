/**
  ABA freedom of the local backend. A write that failed to publish stays in the journal and becomes
  visible whenever the next instance opens the directory, so a key's file is no plain register; its
  generations grow all the same.
*/
module LocalGenerations {
  import opened Types
  import Journal
  import opened LocalStore
  import opened LocalFences
  import Register
  import Generations

  /** What a reader of the key sees. */
  function Visible(s: Shared, k: Name): Option<Bytes> {
    if k in s.data then Some(s.data[k]) else None
  }

  predicate Advances(before: Bytes, after: Bytes) {
    Register.Advances(Generations.Extract, before, after)
  }

  /** What the journal holds for the key, published or not, may follow what its file shows. */
  predicate Follows(s: Shared, k: Name) {
    k in s.data && k in Latest(s.log) ==>
      s.data[k] == Latest(s.log)[k].body || Advances(s.data[k], Latest(s.log)[k].body)
  }

  /** The value stayed, appeared, or made room for one that may follow it; it is never removed. */
  predicate Moves(before: Option<Bytes>, after: Option<Bytes>) {
    before.Some? ==> after.Some? && (after == before || Advances(before.value, after.value))
  }

  lemma CommitMoves(s: Shared, cache: map<Name, nat>, name: Name, pre: Precondition<Bytes>, body: Bytes, now: Time,
                    stop: Stop, k: Name)
    requires !stop.DiesInAppend? && Follows(s, k)
    requires Register.Judge(Generations.Extract, RegisterAt(s, cache, name), pre, body, now).Commit?
    ensures Follows(CommitOn(s, CommitFor(name, pre, body), stop), k)
    ensures Moves(Visible(s, k), Visible(CommitOn(s, CommitFor(name, pre, body), stop), k))
  {
    var w := CommitFor(name, pre, body);
    var s' := CommitOn(s, w, stop);
    CommitsOnlyUnderNewest(s, cache, name, pre, body, now);
    assert s'.log[..|s.log|] == s.log;
    assert Generations.Extract([]).None?;
  }

  /** Every critical section, crash and reopening moves every key's visible value forward, or not at all. */
  lemma StepMoves(w: World, step: Step, k: Name)
    requires Possible(w, step) && Follows(w.shared, k)
    ensures Follows(LocalFences.Take(w, step).shared, k)
    ensures Moves(Visible(w.shared, k), Visible(LocalFences.Take(w, step).shared, k))
  {
    match step {
      case Write(who, name, pre, body, now, stop) =>
        if Register.Judge(Generations.Extract, RegisterAt(w.shared, w.caches[who], name), pre, body, now).Commit? {
          CommitMoves(w.shared, w.caches[who], name, pre, body, now, stop, k);
        } else {
          SameFilesMove(w.shared, LocalFences.Take(w, step).shared, k);
        }
      case Open(_) =>
      case OpenDies(done, reserved) =>
        PartlyMoves(w.shared, done, reserved, k);
      case _ =>
        SameFilesMove(w.shared, LocalFences.Take(w, step).shared, k);
    }
  }

  lemma SameFilesMove(s: Shared, s': Shared, k: Name)
    requires Follows(s, k) && s'.data == s.data && s'.log == s.log
    ensures Follows(s', k) && Moves(Visible(s, k), Visible(s', k))
  {
  }

  lemma PartlyMoves(s: Shared, done: set<Name>, reserved: Option<Name>, k: Name)
    requires Follows(s, k)
    ensures var s' := s.(data := RecoveredPartly(s.log, s.data, done, reserved));
      Follows(s', k) && Moves(Visible(s, k), Visible(s', k))
  {
    assert Generations.Extract([]).None?;
  }

  /** Between the two moments the key shows only numbered bodies. */
  ghost predicate Numbered(ws: seq<World>, i: nat, j: nat, k: Name)
    requires i <= j < |ws|
  {
    forall m :: i <= m <= j && Visible(ws[m].shared, k).Some? ==>
      Generations.Extract(Visible(ws[m].shared, k).value).Some?
  }

  /** Over any run of any number of instances a key's generation never goes back, and every change raises it. */
  lemma {:induction false} GenerationsGrow(ws: seq<World>, steps: seq<Step>, i: nat, j: nat, k: Name)
    requires Run(ws, steps) && i <= j < |ws| && Follows(ws[i].shared, k) && Numbered(ws, i, j, k)
    ensures Follows(ws[j].shared, k)
    ensures Visible(ws[i].shared, k).Some? ==>
      && Visible(ws[j].shared, k).Some?
      && var a, b := Visible(ws[i].shared, k).value, Visible(ws[j].shared, k).value;
         && Generations.Extract(a).value <= Generations.Extract(b).value
         && (a != b ==> Generations.Extract(a).value < Generations.Extract(b).value)
    decreases j - i
  {
    if i < j {
      GenerationsGrow(ws, steps, i, j - 1, k);
      assert Stepped(ws, steps, j - 1);
      StepMoves(ws[j - 1], steps[j - 1], k);
    }
  }

  /** A numbered value that was replaced never comes back, crashes and late publishing included. */
  lemma NoRecurrence(ws: seq<World>, steps: seq<Step>, i: nat, m: nat, j: nat, k: Name)
    requires Run(ws, steps) && i <= m <= j < |ws| && Follows(ws[i].shared, k) && Numbered(ws, i, j, k)
    requires Visible(ws[i].shared, k).Some? && Visible(ws[m].shared, k) != Visible(ws[i].shared, k)
    ensures VersionOf(Visible(ws[j].shared, k)) != VersionOf(Visible(ws[i].shared, k))
  {
    GenerationsGrow(ws, steps, i, m, k);
    GenerationsGrow(ws, steps, m, j, k);
  }

  /** In an empty directory the journal has nothing to follow. */
  lemma EmptyFollows(k: Name)
    ensures Follows(Shared([], map[], map[], map[]), k)
  {
  }

  // Writes answered BUSY

  predicate Commits(w: World, step: Step)
    requires Possible(w, step)
  {
    && step.Write?
    && Register.Judge(Generations.Extract, RegisterAt(w.shared, w.caches[step.who], step.name), step.pre, step.body,
                      step.now).Commit?
  }

  function AnswerOf(w: World, step: Step): Option<WriteResult<Bytes>>
    requires Possible(w, step) && step.Write?
  {
    WriteOn(w.shared, w.caches[step.who], step.name, step.pre, step.body, step.now, step.stop).2
  }

  /**
    A write inside the critical section answers BUSY exactly when it reached its commit and the replace
    failed. The record is then the last in the journal; an update leaves the file as it was, a create
    leaves it empty.
  */
  lemma BusyHidesARecord(w: World, step: Step)
    requires Possible(w, step) && step.Write?
    ensures AnswerOf(w, step) == Some(Error(Busy)) <==> Commits(w, step) && step.stop == ReplaceFails
    ensures AnswerOf(w, step) == Some(Error(Busy)) ==>
      var s, s' := w.shared, LocalFences.Take(w, step).shared;
      && s'.log == s.log + [RecordOf(CommitFor(step.name, step.pre, step.body))]
      && Visible(s', step.name) == (if step.pre.CreateOnly? then Some([]) else Visible(s, step.name))
      && (step.pre.CreateOnly? ==> Visible(s, step.name).None?)
      && (s'.data == s.data <==> step.pre.Overwrite?)
  {
  }

  /** The same create issued again meets the empty file, unless it is what it would have written. */
  lemma BusyCreateBlocksItself(s: Shared, cache: map<Name, nat>, name: Name, body: Bytes, now: Time, later: Time,
                               stop: Stop)
    requires name !in s.data
    ensures var (s', _, answer) := WriteOn(s, cache, name, CreateOnly, body, now, ReplaceFails);
      && answer == Some(Error(Busy)) && Visible(s', name) == Some([])
      && WriteOn(s', cache, name, CreateOnly, body, later, stop) ==
           (s', cache, Some(if body == [] then Ok(Sha256([])) else Exists(Sha256([]))))
  {
  }

  /** No record of the key comes after this one. */
  ghost predicate StillLast(log: seq<Journal.Record>, at: nat) {
    at < |log| && forall m :: at < m < |log| ==> log[m].key != log[at].key
  }

  lemma LatestIfLast(log: seq<Journal.Record>, at: nat)
    requires StillLast(log, at)
    ensures log[at].key in Latest(log) && Latest(log)[log[at].key] == log[at]
  {
    LatestIsLast(log, at);
    var r := Latest(log)[log[at].key];
    var j :| at <= j < |log| && log[j] == r && forall m :: j < m < |log| ==> log[m].key != r.key;
    assert j == at;
  }

  /** The journal only grows, by one record for each commit. */
  lemma StepLogs(w: World, step: Step)
    requires Possible(w, step)
    ensures LocalFences.Take(w, step).shared.log == w.shared.log +
      if Commits(w, step) then [RecordOf(CommitFor(step.name, step.pre, step.body))] else []
  {
  }

  ghost predicate CommitsTo(ws: seq<World>, steps: seq<Step>, m: nat, k: Name)
    requires Run(ws, steps) && m < |steps|
  {
    Stepped(ws, steps, m) && Commits(ws[m], steps[m]) && steps[m].name == k
  }

  /** Nobody committed a write of the key between two moments of a run. */
  ghost predicate NoneCommits(ws: seq<World>, steps: seq<Step>, i: nat, j: nat, k: Name)
    requires Run(ws, steps) && j <= |steps|
  {
    forall m :: i <= m < j ==> !CommitsTo(ws, steps, m, k)
  }

  lemma RunLogs(ws: seq<World>, steps: seq<Step>, m: nat, at: nat)
    requires Run(ws, steps) && m < |steps| && at < |ws[m].shared.log|
    ensures ws[m].shared.log <= ws[m + 1].shared.log
    ensures StillLast(ws[m + 1].shared.log, at) <==>
      StillLast(ws[m].shared.log, at) && !CommitsTo(ws, steps, m, ws[m].shared.log[at].key)
  {
    assert Stepped(ws, steps, m);
    StepLogs(ws[m], steps[m]);
    OneMoreRecord(ws[m].shared.log, ws[m + 1].shared.log, at);
  }

  lemma {:induction false} LastUntilNext(ws: seq<World>, steps: seq<Step>, i: nat, j: nat, at: nat)
    requires Run(ws, steps) && i <= j < |ws| && StillLast(ws[i].shared.log, at)
    ensures ws[i].shared.log <= ws[j].shared.log
    ensures StillLast(ws[j].shared.log, at) <==> NoneCommits(ws, steps, i, j, ws[i].shared.log[at].key)
    decreases j - i
  {
    if i < j {
      LastUntilNext(ws, steps, i, j - 1, at);
      RunLogs(ws, steps, j - 1, at);
      NoneCommitsTo(ws, steps, i, j - 1, ws[i].shared.log[at].key);
    }
  }

  lemma NoneCommitsTo(ws: seq<World>, steps: seq<Step>, i: nat, j: nat, k: Name)
    requires Run(ws, steps) && i <= j < |steps|
    ensures NoneCommits(ws, steps, i, j + 1, k) <==> NoneCommits(ws, steps, i, j, k) && !CommitsTo(ws, steps, j, k)
  {
  }

  lemma OneMoreRecord(log: seq<Journal.Record>, log': seq<Journal.Record>, at: nat)
    requires at < |log| && log <= log' && |log'| <= |log| + 1
    ensures StillLast(log', at) <==> StillLast(log, at) && (|log'| > |log| ==> log'[|log|].key != log[at].key)
  {
    assert forall m :: 0 <= m < |log| ==> log'[m] == log[m];
  }

  /**
    When the directory is next opened, after whatever else happened, the write answered BUSY becomes
    visible exactly when nobody committed another write of the key in between; otherwise what is shown
    is the body of a later record.
  */
  lemma BusyLandsLate(ws: seq<World>, steps: seq<Step>, i: nat, j: nat)
    requires Run(ws, steps) && i < j < |steps| && Possible(ws[i], steps[i]) && steps[i].Write?
    requires AnswerOf(ws[i], steps[i]) == Some(Error(Busy)) && steps[j].Open?
    ensures var name, at, log := steps[i].name, |ws[i].shared.log|, ws[j].shared.log;
      && at < |log| && log[at] == RecordOf(CommitFor(name, steps[i].pre, steps[i].body))
      && name in Latest(log) && Visible(ws[j + 1].shared, name) == Some(Latest(log)[name].body)
      && (NoneCommits(ws, steps, i + 1, j, name) <==> StillLast(log, at))
      && (StillLast(log, at) ==> Visible(ws[j + 1].shared, name) == Some(steps[i].body))
      && (!StillLast(log, at) ==> LastFrom(log, Latest(log)[name], at + 1))
  {
    var name, at, log := steps[i].name, |ws[i].shared.log|, ws[j].shared.log;
    assert Stepped(ws, steps, i) && Stepped(ws, steps, j);
    BusyHidesARecord(ws[i], steps[i]);
    LastUntilNext(ws, steps, i + 1, j, at);
    assert log[at] == ws[i + 1].shared.log[at];
    LatestIsLast(log, at);
    if StillLast(log, at) {
      LatestIfLast(log, at);
    } else {
      var m :| at < m < |log| && log[m].key == name;
      LatestIsLast(log, m);
    }
  }
}
