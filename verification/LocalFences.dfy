/**
  Fence safety of the local backend over one directory shared by any number of instances. Each
  instance trusts its own cache of accepted fences; only the owner files, the journal and the data
  files are common. Every critical section is one step, in any order and from any instance.
*/
module LocalFences {
  import opened Types
  import opened Journal
  import opened LocalStore
  import Register
  import Generations

  datatype World = World(shared: Shared, caches: map<int, map<Name, nat>>)

  datatype Step =
    | Write(who: int, name: Name, pre: Precondition<Bytes>, body: Bytes, now: Time, stop: Stop)
    | Lock(who: int, name: Name, token: Token, ttl: nat, now: Time, dies: bool)
    | Unlock(who: int, name: Name, token: Token, now: Time)
    | Renew(who: int, name: Name, token: Token, ttl: nat, now: Time)
    | Open(who: int)
    | OpenDies(done: set<Name>, reserved: Option<Name>)

  /** Only open instances act, and no append is torn. */
  predicate Possible(w: World, step: Step) {
    match step
    case Write(who, _, _, _, _, stop) => who in w.caches && !stop.DiesInAppend?
    case Lock(who, _, _, _, _, _) => who in w.caches
    case Unlock(who, _, _, _) => who in w.caches
    case Renew(who, _, _, _, _) => who in w.caches
    case _ => true
  }

  function Take(w: World, step: Step): World
    requires Possible(w, step)
  {
    match step
    case Write(who, name, pre, body, now, stop) =>
      var (s, cache, _) := WriteOn(w.shared, w.caches[who], name, pre, body, now, stop);
      World(s, w.caches[who := cache])
    case Lock(who, name, token, ttl, now, dies) =>
      w.(shared := LockOn(w.shared, w.caches[who], name, token, ttl, now, dies).0)
    case Unlock(_, name, token, now) => w.(shared := UnlockOn(w.shared, name, token, now))
    case Renew(_, name, token, ttl, now) => w.(shared := RenewOn(w.shared, name, token, ttl, now))
    case Open(who) =>
      World(w.shared.(data := RecoveredData(w.shared.log, w.shared.data)),
            w.caches[who := RecoveredCache(w.shared.log)])
    case OpenDies(done, reserved) =>
      w.(shared := w.shared.(data := RecoveredPartly(w.shared.log, w.shared.data, done, reserved)))
  }

  /** The durable allocated fence bounds everything journalled, and a key without a file was never updated. */
  ghost predicate LogBounded(s: Shared) {
    && (forall i :: 0 <= i < |s.log| ==> s.log[i].fence <= Allocated(s, s.log[i].key))
    && (forall i :: 0 <= i < |s.log| && s.log[i].key !in s.data ==> s.log[i].fence == 0)
  }

  /** Along the journal the fences of one key never decrease. */
  ghost predicate LogMonotone(log: seq<Record>) {
    forall i, j :: 0 <= i < j < |log| && log[i].key == log[j].key ==> log[i].fence <= log[j].fence
  }

  ghost predicate CacheBounded(s: Shared, cache: map<Name, nat>) {
    forall n :: n in cache ==> cache[n] <= Allocated(s, n)
  }

  ghost predicate Inv(w: World) {
    && LogBounded(w.shared)
    && LogMonotone(w.shared.log)
    && forall i :: i in w.caches ==> CacheBounded(w.shared, w.caches[i])
  }

  /** A fenced write reaches its commit only under the newest fence ever allocated for its key. */
  lemma CommitsOnlyUnderNewest(s: Shared, cache: map<Name, nat>, name: Name, pre: Precondition<Bytes>, body: Bytes,
                               now: Time)
    requires Register.Judge(Generations.Extract, RegisterAt(s, cache, name), pre, body, now).Commit?
    ensures pre.Overwrite? ==> pre.lease.fence == Allocated(s, name)
    ensures pre.Overwrite? ==>
      name in s.owners && s.owners[name].token == pre.lease.token && now < s.owners[name].expiry
    ensures pre.Overwrite? ==> name in s.data && Sha256(s.data[name]) == pre.expected
    ensures pre.CreateOnly? ==> name !in s.data
  {
  }

  lemma AppendKeepsMonotone(s: Shared, r: Record)
    requires LogBounded(s) && LogMonotone(s.log)
    requires r.fence == Allocated(s, r.key) || r.key !in s.data
    ensures LogMonotone(s.log + [r])
  {
    var log := s.log + [r];
    forall i, j | 0 <= i < j < |log| && log[i].key == log[j].key ensures log[i].fence <= log[j].fence {
      assert log[i] == s.log[i];
      if j < |s.log| { assert log[j] == s.log[j]; }
    }
  }

  lemma WriteKeepsInv(w: World, step: Step)
    requires Inv(w) && Possible(w, step) && step.Write?
    ensures Inv(Take(w, step))
  {
    var cache := w.caches[step.who];
    var (s, cache', result) := WriteOn(w.shared, cache, step.name, step.pre, step.body, step.now, step.stop);
    var r := RegisterAt(w.shared, cache, step.name);
    if Register.Judge(Generations.Extract, r, step.pre, step.body, step.now).Commit? {
      CommitsOnlyUnderNewest(w.shared, cache, step.name, step.pre, step.body, step.now);
      var r := RecordOf(CommitFor(step.name, step.pre, step.body));
      AppendKeepsMonotone(w.shared, r);
      assert s.log == w.shared.log + [r];
      assert s.owners == w.shared.owners;
      forall n ensures Allocated(s, n) == Allocated(w.shared, n) {}
    }
  }

  lemma OwnersGrowKeepsInv(w: World, w': World)
    requires Inv(w)
    requires w'.caches == w.caches && w'.shared.log == w.shared.log && w'.shared.data == w.shared.data
    requires forall n :: Allocated(w.shared, n) <= Allocated(w'.shared, n)
    ensures Inv(w')
  {
  }

  lemma OpenKeepsInv(w: World, who: int)
    requires Inv(w)
    ensures Inv(Take(w, Open(who)))
  {
    var log := w.shared.log;
    var cache := RecoveredCache(log);
    var s' := Take(w, Open(who)).shared;
    forall n | n in cache ensures cache[n] <= Allocated(s', n) {
      LatestIsARecord(log, n);
      assert Latest(log)[n] in log;
      var i :| 0 <= i < |log| && log[i] == Latest(log)[n];
    }
    forall i | 0 <= i < |log| ensures log[i].key in s'.data {
      LatestIsLast(log, i);
    }
    assert forall n :: Allocated(s', n) == Allocated(w.shared, n);
  }

  lemma StepKeepsInv(w: World, step: Step)
    requires Inv(w) && Possible(w, step)
    ensures Inv(Take(w, step))
    ensures forall n :: Allocated(w.shared, n) <= Allocated(Take(w, step).shared, n)
  {
    match step {
      case Write(_, _, _, _, _, _) =>
        WriteKeepsInv(w, step);
      case Open(who) =>
        OpenKeepsInv(w, who);
      case OpenDies(_, _) =>
        assert forall n :: Allocated(Take(w, step).shared, n) == Allocated(w.shared, n);
      case Lock(who, name, _, _, _, _) =>
        assert CacheBounded(w.shared, w.caches[who]);
        OwnersGrowKeepsInv(w, Take(w, step));
      case _ =>
        OwnersGrowKeepsInv(w, Take(w, step));
    }
  }

  // Runs

  ghost predicate Run(ws: seq<World>, steps: seq<Step>) {
    && |ws| == |steps| + 1
    && forall i :: 0 <= i < |steps| ==> Stepped(ws, steps, i)
  }

  ghost predicate Stepped(ws: seq<World>, steps: seq<Step>, i: nat)
    requires i < |steps| && i + 1 < |ws|
  {
    Possible(ws[i], steps[i]) && ws[i + 1] == Take(ws[i], steps[i])
  }

  lemma RunStep(ws: seq<World>, steps: seq<Step>, k: nat)
    requires Run(ws, steps) && k < |steps| && Inv(ws[k])
    ensures Inv(ws[k + 1])
    ensures forall n :: Allocated(ws[k].shared, n) <= Allocated(ws[k + 1].shared, n)
  {
    assert Stepped(ws, steps, k);
    StepKeepsInv(ws[k], steps[k]);
  }

  lemma {:induction false} RunKeepsInv(ws: seq<World>, steps: seq<Step>, i: nat, j: nat)
    requires Run(ws, steps) && i <= j < |ws| && Inv(ws[i])
    ensures Inv(ws[j])
    ensures forall n :: Allocated(ws[i].shared, n) <= Allocated(ws[j].shared, n)
    decreases j - i
  {
    if i < j {
      RunKeepsInv(ws, steps, i, j - 1);
      RunStep(ws, steps, j - 1);
    }
  }

  /** The fence a lock step hands out, if it succeeds. */
  function Granted(w: World, step: Step): Option<nat>
    requires Possible(w, step) && step.Lock?
  {
    LockOn(w.shared, w.caches[step.who], step.name, step.token, step.ttl, step.now, step.dies).1
  }

  lemma GrantIsNewest(w: World, step: Step)
    requires Inv(w) && Possible(w, step) && step.Lock? && Granted(w, step).Some?
    ensures Allocated(w.shared, step.name) < Granted(w, step).value == Allocated(Take(w, step).shared, step.name)
  {
    assert CacheBounded(w.shared, w.caches[step.who]);
  }

  /** Successive `lock()` calls on a key, from any instances, return strictly increasing fences. */
  lemma LocksIncrease(ws: seq<World>, steps: seq<Step>, i: nat, j: nat)
    requires Run(ws, steps) && Inv(ws[0]) && i < j < |steps|
    requires steps[i].Lock? && steps[j].Lock? && steps[i].name == steps[j].name
    requires Possible(ws[i], steps[i]) && Granted(ws[i], steps[i]).Some?
    requires Possible(ws[j], steps[j]) && Granted(ws[j], steps[j]).Some?
    ensures Granted(ws[i], steps[i]).value < Granted(ws[j], steps[j]).value
  {
    RunKeepsInv(ws, steps, 0, i);
    RunKeepsInv(ws, steps, 0, j);
    RunKeepsInv(ws, steps, i + 1, j) by {
      RunKeepsInv(ws, steps, 0, i + 1);
    }
    assert Stepped(ws, steps, i) && Stepped(ws, steps, j);
    GrantIsNewest(ws[i], steps[i]);
    GrantIsNewest(ws[j], steps[j]);
  }

  /** Once a newer lock was granted, no instance commits a write under the older lease, ever. */
  lemma SupersededLeaseNeverCommits(ws: seq<World>, steps: seq<Step>, i: nat, j: nat)
    requires Run(ws, steps) && Inv(ws[0]) && i < j < |steps|
    requires steps[i].Lock? && Possible(ws[i], steps[i]) && Granted(ws[i], steps[i]).Some?
    requires steps[j].Write? && steps[j].name == steps[i].name && Possible(ws[j], steps[j])
    requires steps[j].pre.Overwrite? && steps[j].pre.lease.fence < Granted(ws[i], steps[i]).value
    ensures ws[j + 1].shared == ws[j].shared
  {
    RunKeepsInv(ws, steps, 0, i);
    GrantIsNewest(ws[i], steps[i]);
    RunKeepsInv(ws, steps, i + 1, j) by {
      RunKeepsInv(ws, steps, 0, i + 1);
    }
    assert Stepped(ws, steps, i) && Stepped(ws, steps, j);
    var step, w := steps[j], ws[j];
    var cache := w.caches[step.who];
    var r := RegisterAt(w.shared, cache, step.name);
    if Register.Judge(Generations.Extract, r, step.pre, step.body, step.now).Commit? {
      CommitsOnlyUnderNewest(w.shared, cache, step.name, step.pre, step.body, step.now);
    }
  }

  /** The step neither renews this key nor locks it, though it may have tried to. */
  predicate LeavesOwner(w: World, step: Step, name: Name) {
    && (step.Lock? && step.name == name ==> Blocked(w.shared, name, step.now))
    && (step.Renew? ==> step.name != name)
  }

  ghost predicate OwnerLeft(ws: seq<World>, steps: seq<Step>, i: nat, j: nat, name: Name)
    requires j <= |steps| && j <= |ws|
  {
    forall m :: i <= m < j ==> LeavesOwner(ws[m], steps[m], name)
  }

  function OwnerOf(s: Shared, name: Name): Option<Owner> {
    if name in s.owners then Some(s.owners[name]) else None
  }

  lemma {:induction false} OwnerStays(ws: seq<World>, steps: seq<Step>, i: nat, j: nat, name: Name)
    requires Run(ws, steps) && i <= j < |ws| && OwnerLeft(ws, steps, i, j, name)
    ensures OwnerOf(ws[j].shared, name) == OwnerOf(ws[i].shared, name)
    decreases j - i
  {
    if i < j {
      OwnerStays(ws, steps, i, j - 1, name);
      assert Stepped(ws, steps, j - 1) && LeavesOwner(ws[j - 1], steps[j - 1], name);
    }
  }

  /**
    A granted lease is good for what it was taken for: as long as nobody is granted the key again or
    renews it, a write under it from any instance, over the version that is there then, commits exactly
    before the agreed time, whatever was written, crashed, unlocked or reopened in between.
  */
  lemma LeaseGoodUntilNextLock(ws: seq<World>, steps: seq<Step>, i: nat, j: nat)
    requires Run(ws, steps) && Inv(ws[0]) && i < j < |steps|
    requires steps[i].Lock? && Possible(ws[i], steps[i]) && Granted(ws[i], steps[i]).Some?
    requires OwnerLeft(ws, steps, i + 1, j, steps[i].name)
    requires steps[j].Write? && steps[j].name == steps[i].name && Possible(ws[j], steps[j]) && steps[j].stop.Completes?
    requires steps[j].pre.Overwrite? && steps[j].pre.lease.token == steps[i].token
    requires steps[j].pre.lease.fence == Granted(ws[i], steps[i]).value
    requires var name, data := steps[j].name, ws[j].shared.data;
      name in data && steps[j].pre.expected == Sha256(data[name]) &&
      Register.Advances(Generations.Extract, data[name], steps[j].body)
    ensures var step, name := steps[j], steps[j].name;
      var answer := WriteOn(ws[j].shared, ws[j].caches[step.who], name, step.pre, step.body, step.now, step.stop).2;
      if step.now < steps[i].now + steps[i].ttl
      then answer == Some(Ok(Sha256(step.body))) && ws[j + 1].shared.data == ws[j].shared.data[name := step.body]
      else answer.Some? && answer.value.Stale? && ws[j + 1].shared == ws[j].shared
  {
    RunKeepsInv(ws, steps, 0, i);
    RunKeepsInv(ws, steps, 0, j);
    OwnerStays(ws, steps, i + 1, j, steps[i].name);
    assert Stepped(ws, steps, i) && Stepped(ws, steps, j);
    GrantIsNewest(ws[i], steps[i]);
    assert CacheBounded(ws[j].shared, ws[j].caches[steps[j].who]);
  }

  /** The journal of a key never goes back to a lower fence, over any run from an empty directory. */
  lemma JournalFencesNeverDecrease(ws: seq<World>, steps: seq<Step>, n: nat)
    requires Run(ws, steps) && n < |ws|
    requires ws[0] == World(Shared([], map[], map[], map[]), map[])
    ensures LogMonotone(ws[n].shared.log)
    ensures LogBounded(ws[n].shared)
    ensures forall who :: who in ws[n].caches ==> CacheBounded(ws[n].shared, ws[n].caches[who])
  {
    RunKeepsInv(ws, steps, 0, n);
  }
}
