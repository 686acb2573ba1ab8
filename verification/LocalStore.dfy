/** What the local backend keeps on disk, and what each of its critical sections does to it. */
module LocalStore {
  import opened Types
  import opened Journal
  import Register
  import Generations

  /** A key, as the UTF-8 bytes the journal holds. */
  type Name = Bytes

  datatype Owner = Owner(token: Token, expiry: Time, fence: nat)

  datatype Shared = Shared(
    log: seq<Record>,                     // the journal
    data: map<Name, Bytes>,               // data/
    owners: map<Name, Owner>,             // locks/fence-alloc/
    advisory: map<Name, (Token, Time)>)   // locks/advisory/

  /** One journal-then-publish commit. */
  datatype Commit = Commit(name: Name, body: Bytes, create: bool, fence: nat)

  /** How far a commit gets: to the end, to a failed replace, or to the point where the process dies. */
  datatype Stop =
    | Completes
    | ReplaceFails                // BUSY: journalled, never published
    | DiesInAppend(written: nat)  // a torn tail
    | DiesAfterAppend
    | DiesAfterReserve
    | DiesAfterReplace

  function RecordOf(w: Commit): Record {
    Record(w.name, w.body, w.fence)
  }

  /** `_publish` and where it can stop: a create first reserves the name with an empty file. */
  function Published(data: map<Name, Bytes>, w: Commit, stop: Stop): map<Name, Bytes> {
    match stop
    case DiesInAppend(_) => data
    case DiesAfterAppend => data
    case DiesAfterReserve => if w.create then data[w.name := []] else data
    case ReplaceFails => if w.create then data[w.name := []] else data
    case DiesAfterReplace => data[w.name := w.body]
    case Completes => data[w.name := w.body]
  }

  /**
    What a reader finds where a commit stopped: what was there before the publish began, an empty file
    once a create reserved its name, and the new body once the replace was done. Other files stay.
  */
  lemma StopLeaves(data: map<Name, Bytes>, w: Commit, stop: Stop)
    requires w.create ==> w.name !in data
    ensures var after := Published(data, w, stop);
      && (stop.DiesInAppend? || stop.DiesAfterAppend? ==> after == data)
      && (stop.DiesAfterReserve? || stop.ReplaceFails? ==>
            if w.create then w.name in after && after[w.name] == [] else after == data)
      && (stop.DiesAfterReplace? || stop.Completes? ==> w.name in after && after[w.name] == w.body)
      && after.Keys <= data.Keys + {w.name}
      && forall n :: n in data && n != w.name ==> n in after && after[n] == data[n]
  {
  }

  function CommitOn(s: Shared, w: Commit, stop: Stop): Shared {
    s.(log := if stop.DiesInAppend? then s.log else s.log + [RecordOf(w)], data := Published(s.data, w, stop))
  }

  function Accepted(cache: map<Name, nat>, name: Name): nat {
    if name in cache then cache[name] else 0
  }

  function Allocated(s: Shared, name: Name): nat {
    if name in s.owners then s.owners[name].fence else 0
  }

  /** The register one instance sees: the owner file read fresh, its own cache of accepted fences. */
  function RegisterAt(s: Shared, cache: map<Name, nat>, name: Name): Register.Register<Bytes> {
    var value := if name in s.data then Some(s.data[name]) else None;
    if name in s.owners then
      var o := s.owners[name];
      Register.Register(value, Some(o.token), o.expiry, o.fence, Accepted(cache, name))
    else Register.Register(value, None, 0, 0, Accepted(cache, name))
  }

  function CommitFor(name: Name, pre: Precondition<Bytes>, body: Bytes): Commit {
    match pre
    case CreateOnly => Commit(name, body, true, 0)
    case Overwrite(_, lease) => Commit(name, body, false, lease.fence)
  }

  /** `write()` under cas.lock. No result means the process died inside the commit. */
  function WriteOn(s: Shared, cache: map<Name, nat>, name: Name, pre: Precondition<Bytes>, body: Bytes, now: Time,
                   stop: Stop)
    : (Shared, map<Name, nat>, Option<WriteResult<Bytes>>)
  {
    match Register.Judge(Generations.Extract, RegisterAt(s, cache, name), pre, body, now)
    case Refuse(result) => (s, cache, Some(result))
    case Commit(_) =>
      var w := CommitFor(name, pre, body);
      var s' := CommitOn(s, w, stop);
      match stop
      case Completes => (s', cache[name := w.fence], Some(Ok(Sha256(body))))
      case ReplaceFails => (s', cache, Some(Error(Busy)))
      case _ => (s', cache, None)
  }

  /** `_try_acquire_advisory`; `dies` is a crash between the owner file and the advisory file. */
  function LockOn(s: Shared, cache: map<Name, nat>, name: Name, token: Token, ttl: nat, now: Time, dies: bool)
    : (Shared, Option<nat>)
  {
    if name in s.advisory && s.advisory[name].1 > now then (s, None)
    else
      var fence := Max(Allocated(s, name), Accepted(cache, name)) + 1;
      var s' := s.(owners := s.owners[name := Owner(token, now + ttl, fence)]);
      if dies then (s', None) else (s'.(advisory := s.advisory[name := (token, now + ttl)]), Some(fence))
  }

  predicate HoldsAdvisory(s: Shared, name: Name, token: Token, now: Time) {
    name in s.advisory && s.advisory[name].0 == token && s.advisory[name].1 > now
  }

  function UnlockOn(s: Shared, name: Name, token: Token, now: Time): Shared {
    if HoldsAdvisory(s, name, token, now) then s.(advisory := s.advisory - {name}) else s
  }

  /** `renew`: the durable owner file decides; the fence is unchanged. */
  function RenewOn(s: Shared, name: Name, token: Token, ttl: nat, now: Time): Shared {
    if HoldsAdvisory(s, name, token, now) && name in s.owners && s.owners[name].token == token then
      s.(owners := s.owners[name := s.owners[name].(expiry := now + ttl)],
         advisory := s.advisory[name := (token, now + ttl)])
    else s
  }

  // What locking, renewing and unlocking are good for

  predicate Blocked(s: Shared, name: Name, now: Time) {
    name in s.advisory && s.advisory[name].1 > now
  }

  /**
    A lock is granted exactly when no advisory entry is in force and it does not die on the way. Unless
    one is in force, the register of the key takes the acquisition, for whichever instance allocated it.
  */
  lemma LockIsAcquire(s: Shared, cache: map<Name, nat>, name: Name, token: Token, ttl: nat, now: Time, dies: bool)
    ensures var (s', fence) := LockOn(s, cache, name, token, ttl, now, dies);
      && (fence.Some? <==> !Blocked(s, name, now) && !dies)
      && (Blocked(s, name, now) ==> s' == s)
      && s'.log == s.log && s'.data == s.data
      && (!Blocked(s, name, now) ==>
            && RegisterAt(s', cache, name) ==
                 Register.Apply(RegisterAt(s, cache, name), Register.Acquire(token, now + ttl))
            && (fence.Some? ==> fence.value == RegisterAt(s', cache, name).fence))
      && forall n :: n != name ==>
           RegisterAt(s', cache, n) == RegisterAt(s, cache, n) && (n in s'.advisory <==> n in s.advisory)
  {
  }

  /**
    Under the lease it grants, any instance that accepted no later fence writes over the version that is
    there at every time before the agreed one, and at none from then on.
  */
  lemma LockedLeaseWrites(s: Shared, cache: map<Name, nat>, name: Name, token: Token, ttl: nat, now: Time, key: Key,
                          writer: map<Name, nat>, body: Bytes, later: Time)
    requires LockOn(s, cache, name, token, ttl, now, false).1.Some? && name in s.data
    requires Accepted(writer, name) <= LockOn(s, cache, name, token, ttl, now, false).1.value
    requires Register.Advances(Generations.Extract, s.data[name], body)
    ensures var (locked, fence) := LockOn(s, cache, name, token, ttl, now, false);
      var pre := Overwrite(Sha256(s.data[name]), Lease(key, token, fence.value));
      var (s', writer', result) := WriteOn(locked, writer, name, pre, body, later, Completes);
      && (result == Some(Ok(Sha256(body))) <==> later < now + ttl)
      && (later < now + ttl ==>
            && name in s'.data && s'.data[name] == body
            && s'.log == s.log + [Record(name, body, fence.value)]
            && Accepted(writer', name) == fence.value)
      && (later >= now + ttl ==> s' == locked && result == Some(Stale(Some(Sha256(s.data[name])), Fence)))
  {
  }

  /** As long as a granted lock is in force nobody else is granted one, and then anybody is. */
  lemma LockExcludes(s: Shared, cache: map<Name, nat>, name: Name, token: Token, ttl: nat, now: Time,
                     other: map<Name, nat>, token': Token, ttl': nat, later: Time)
    requires LockOn(s, cache, name, token, ttl, now, false).1.Some?
    ensures var locked := LockOn(s, cache, name, token, ttl, now, false).0;
      && (LockOn(locked, other, name, token', ttl', later, false).1.Some? <==> later >= now + ttl)
      && (HoldsAdvisory(locked, name, token, later) <==> later < now + ttl)
  {
  }

  /**
    A renewal by the holder of both files is an extension of the register: the fence stays and both
    files are in force until the new time. Anybody else's changes nothing.
  */
  lemma RenewIsExtend(s: Shared, cache: map<Name, nat>, name: Name, token: Token, ttl: nat, now: Time, later: Time)
    ensures var s', r := RenewOn(s, name, token, ttl, now), RegisterAt(s, cache, name);
      if HoldsAdvisory(s, name, token, now) && r.owner == Some(token) then
        && RegisterAt(s', cache, name) == Register.Apply(r, Register.Extend(token, now + ttl))
        && (HoldsAdvisory(s', name, token, later) <==> later < now + ttl)
        && s'.log == s.log && s'.data == s.data
        && forall n :: n != name ==> RegisterAt(s', cache, n) == RegisterAt(s, cache, n)
      else s' == s
  {
  }

  /** Once the holder unlocked, the next lock is granted at once, with a larger fence; nobody else frees a key. */
  lemma UnlockFrees(s: Shared, cache: map<Name, nat>, name: Name, token: Token, now: Time, token': Token, ttl: nat,
                    later: Time)
    ensures var s' := UnlockOn(s, name, token, now);
      && (forall n :: RegisterAt(s', cache, n) == RegisterAt(s, cache, n))
      && (HoldsAdvisory(s, name, token, now) ==>
            && LockOn(s', cache, name, token', ttl, later, false).1.Some?
            && LockOn(s', cache, name, token', ttl, later, false).1.value > Allocated(s, name))
      && (!HoldsAdvisory(s, name, token, now) ==> s' == s)
  {
  }

  /** A write that completes is the register's operation for this instance; no write touches another key. */
  lemma WriteIsOneOperation(s: Shared, cache: map<Name, nat>, name: Name, pre: Precondition<Bytes>, body: Bytes,
                            now: Time)
    ensures var (s', cache', result) := WriteOn(s, cache, name, pre, body, now, Completes);
      match Register.Judge(Generations.Extract, RegisterAt(s, cache, name), pre, body, now)
      case Refuse(refused) => s' == s && cache' == cache && result == Some(refused)
      case Commit(op) =>
        && result == Some(Ok(Sha256(body)))
        && RegisterAt(s', cache', name) == Register.Apply(RegisterAt(s, cache, name), op)
        && forall n :: n != name ==> RegisterAt(s', cache', n) == RegisterAt(s, cache, n)
  {
  }

  // Resuming

  /** The last record per key wins. */
  function Latest(log: seq<Record>): map<Name, Record> {
    if log == [] then map[]
    else Latest(log[..|log| - 1])[log[|log| - 1].key := log[|log| - 1]]
  }

  function RecoveredData(log: seq<Record>, data: map<Name, Bytes>): map<Name, Bytes> {
    data + map k | k in Latest(log) :: Latest(log)[k].body
  }

  /** A rebuild that dies: some keys are done, and one that had no file may be reserved and still empty. */
  function RecoveredPartly(log: seq<Record>, data: map<Name, Bytes>, done: set<Name>, reserved: Option<Name>)
    : map<Name, Bytes>
  {
    var rebuilt := data + map k | k in Latest(log) && k in done :: Latest(log)[k].body;
    if reserved.Some? && reserved.value in Latest(log) && reserved.value !in rebuilt then rebuilt[reserved.value := []]
    else rebuilt
  }

  /** Rebuilding again finishes the work. */
  lemma RecoverAgain(log: seq<Record>, data: map<Name, Bytes>, done: set<Name>, reserved: Option<Name>)
    ensures RecoveredData(log, RecoveredPartly(log, data, done, reserved)) == RecoveredData(log, data)
  {
  }

  function RecoveredCache(log: seq<Record>): map<Name, nat> {
    map k | k in Latest(log) :: Latest(log)[k].fence
  }

  /** r is the last record of its key, and stands at i or later. */
  ghost predicate LastFrom(log: seq<Record>, r: Record, i: nat) {
    exists j :: i <= j < |log| && log[j] == r && forall m :: j < m < |log| ==> log[m].key != r.key
  }

  lemma {:induction false} LatestIsLast(log: seq<Record>, i: nat)
    requires i < |log|
    ensures log[i].key in Latest(log)
    ensures Latest(log)[log[i].key].key == log[i].key
    ensures LastFrom(log, Latest(log)[log[i].key], i)
  {
    var n := |log| - 1;
    var init := log[..n];
    if log[n].key == log[i].key {
      assert Latest(log)[log[i].key] == log[n];
    } else {
      LatestIsLast(init, i);
      var r := Latest(init)[log[i].key];
      assert init[i] == log[i];
      var j :| i <= j < n && init[j] == r && forall m :: j < m < n ==> init[m].key != r.key;
      assert log[j] == r;
      forall m | j < m < |log| ensures log[m].key != r.key {
        if m < n { assert init[m] == log[m]; }
      }
    }
  }

  lemma {:induction false} LatestIsARecord(log: seq<Record>, k: Name)
    requires k in Latest(log)
    ensures Latest(log)[k].key == k && Latest(log)[k] in log
  {
    var n := |log| - 1;
    if log[n].key != k {
      LatestIsARecord(log[..n], k);
    }
  }
}
