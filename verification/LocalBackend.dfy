/** The local backend itself: one directory, and instances that each keep a cache of accepted fences. */
module LocalBackend {
  import opened Types
  import opened Journal
  import opened LocalStore
  import CrashRecovery
  import Generations
  import Register

  class Directory {
    const platform: Platform
    var journal: Bytes
    var data: map<Name, Bytes>
    var owners: map<Name, Owner>
    var advisory: map<Name, (Token, Time)>
    ghost var entries: seq<Entry>

    constructor (platform: Platform)
      requires platform.Lawful()
      ensures Clean() && this.platform == platform && View() == Shared([], map[], map[], map[])
    {
      this.platform := platform;
      journal, data, owners, advisory := [], map[], map[], map[];
      entries := [];
    }

    /** The journal holds whole records and nothing else. */
    ghost predicate Clean()
      reads this
    {
      && platform.Lawful()
      && journal == platform.EncodeAll(entries)
      && CrashRecovery.AllWritable(platform, entries)
    }

    ghost function View(): Shared
      reads this
    {
      Shared(Records(entries), data, owners, advisory)
    }

    ghost function Files(): CrashRecovery.Disk
      reads this
    {
      CrashRecovery.Disk(journal, data)
    }
  }

  function Bodies(latest: map<Name, Record>, pending: set<Name>): map<Name, Bytes> {
    map k | k in latest && k !in pending :: latest[k].body
  }

  function Fences(latest: map<Name, Record>, pending: set<Name>): map<Name, nat> {
    map k | k in latest && k !in pending :: latest[k].fence
  }

  lemma OneMore(latest: map<Name, Record>, pending: set<Name>, k: Name)
    requires k in pending && k in latest
    ensures Bodies(latest, pending - {k}) == Bodies(latest, pending)[k := latest[k].body]
    ensures Fences(latest, pending - {k}) == Fences(latest, pending)[k := latest[k].fence]
  {
  }

  lemma MergeOne(data: map<Name, Bytes>, bodies: map<Name, Bytes>, k: Name, body: Bytes)
    ensures data + bodies[k := body] == (data + bodies)[k := body]
    ensures k in data + bodies && (data + bodies)[k] == body ==> data + bodies[k := body] == data + bodies
  {
  }

  class LocalBackend {
    const dir: Directory
    var lastAccepted: map<Name, nat>

    /** Opening a directory resumes it: see Resume. */
    constructor (dir: Directory)
      modifies dir
      ensures this.dir == dir
      ensures dir.Files() == CrashRecovery.Reopened(dir.platform, old(dir.Files()))
      ensures lastAccepted == CrashRecovery.CacheAfterReopen(dir.platform, old(dir.Files()))
      ensures dir.owners == old(dir.owners) && dir.advisory == old(dir.advisory) && dir.entries == old(dir.entries)
    {
      this.dir := dir;
      lastAccepted := map[];
      new;
      Resume();
    }

    /** `_resume`: the last record per key wins; files that differ are rebuilt, fences are cached. */
    method Resume()
      requires lastAccepted == map[]
      modifies this, dir`data
      ensures dir.Files() == CrashRecovery.Reopened(dir.platform, old(dir.Files()))
      ensures lastAccepted == CrashRecovery.CacheAfterReopen(dir.platform, old(dir.Files()))
    {
      var records := IterRecords(dir.platform, dir.journal);
      var latest := LatestOf(records);
      Rebuild(latest);
      assert Bodies(latest, {}) == map k | k in latest :: latest[k].body;
      assert dir.data == RecoveredData(records, old(dir.data));
    }

    static method LatestOf(records: seq<Record>) returns (latest: map<Name, Record>)
      ensures latest == Latest(records)
    {
      latest := map[];
      for i := 0 to |records|
        invariant latest == Latest(records[..i])
      {
        latest := latest[records[i].key := records[i]];
        assert records[..i + 1][..i] == records[..i];
      }
      assert records[..|records|] == records;
    }

    method Rebuild(latest: map<Name, Record>)
      requires lastAccepted == map[]
      modifies this, dir`data
      ensures dir.data == old(dir.data) + Bodies(latest, {})
      ensures lastAccepted == Fences(latest, {})
    {
      var pending := latest.Keys;
      while pending != {}
        invariant pending <= latest.Keys
        invariant dir.data == old(dir.data) + Bodies(latest, pending)
        invariant lastAccepted == Fences(latest, pending)
        decreases pending
      {
        var k :| k in pending;
        OneMore(latest, pending, k);
        MergeOne(old(dir.data), Bodies(latest, pending), k, latest[k].body);
        pending := pending - {k};
        if k !in dir.data || Sha256(dir.data[k]) != Sha256(latest[k].body) {
          dir.data := dir.data[k := latest[k].body];
        }
        lastAccepted := lastAccepted[k := latest[k].fence];
      }
    }

    /** `_journal_append`, up to the byte where the process may die. */
    method JournalAppend(w: Commit, stop: Stop) returns (whole: bool)
      requires dir.Clean() && dir.platform.Writable(CrashRecovery.EntryOf(w))
      modifies dir`journal, dir`entries
      ensures dir.journal == CrashRecovery.Written(dir.platform, old(dir.Files()), w, stop).journal
      ensures whole <==> !(stop.DiesInAppend? && stop.written < |dir.platform.Encode(CrashRecovery.EntryOf(w))|)
      ensures whole ==> dir.Clean() && dir.entries == old(dir.entries) + [CrashRecovery.EntryOf(w)]
    {
      var entry := CrashRecovery.EntryOf(w);
      var bytes := dir.platform.Encode(entry);
      if stop.DiesInAppend? && stop.written < |bytes| {
        dir.journal := dir.journal + bytes[..stop.written];
        return false;
      }
      EncodeAllAppend(dir.platform, dir.entries, entry);
      dir.journal := dir.journal + bytes;
      dir.entries := dir.entries + [entry];
      whole := true;
    }

    /** `_publish`: reserve the name on a create, then replace the file. */
    method Publish(w: Commit, stop: Stop) returns (done: bool)
      requires !stop.DiesInAppend?
      modifies dir`data
      ensures dir.data == Published(old(dir.data), w, stop)
      ensures done <==> stop == Completes
    {
      if stop == DiesAfterAppend {
        return false;
      }
      if w.create {
        dir.data := dir.data[w.name := []];
      }
      if stop == DiesAfterReserve || stop == ReplaceFails {
        return false;
      }
      dir.data := dir.data[w.name := w.body];
      done := stop == Completes;
    }

    /** `_commit`: append, publish, then remember the fence. `stop` is where it ends. */
    method Commit(w: Commit, stop: Stop) returns (done: bool)
      requires dir.Clean() && dir.platform.Writable(CrashRecovery.EntryOf(w))
      modifies this`lastAccepted, dir`journal, dir`data, dir`entries
      ensures dir.Files() == CrashRecovery.Written(dir.platform, old(dir.Files()), w, stop)
      ensures !stop.DiesInAppend? ==> dir.Clean() && dir.View() == CommitOn(old(dir.View()), w, stop)
      ensures done <==> stop == Completes
      ensures lastAccepted == if done then old(lastAccepted)[w.name := w.fence] else old(lastAccepted)
    {
      var whole := JournalAppend(w, stop);
      if !whole || stop.DiesInAppend? {
        return false;
      }
      assert Records(dir.entries) == Records(old(dir.entries)) + [RecordOf(w)];
      done := Publish(w, stop);
      if done {
        lastAccepted := lastAccepted[w.name := w.fence];
      }
    }

    /** `_fence_ok`: the owner file is read fresh, the accepted fence comes from this instance's cache. */
    predicate FenceOk(name: Name, lease: Lease, now: Time)
      reads this, dir
    {
      && name in dir.owners
      && dir.owners[name].token == lease.token
      && now < dir.owners[name].expiry
      && lease.fence == dir.owners[name].fence
      && Accepted(lastAccepted, name) <= lease.fence
    }

    /** The shared write rule, on the owner file and this instance's cache. */
    ghost predicate Allows(name: Name, body: Bytes, pre: Precondition<Bytes>, now: Time)
      reads this, dir
    {
      Register.Judge(Generations.Extract, RegisterAt(dir.View(), lastAccepted, name), pre, body, now).Commit?
    }

    /** The checks of the critical section; None when the write may commit. */
    method Refusal(name: Name, body: Bytes, pre: Precondition<Bytes>, now: Time) returns (r: Option<WriteResult<Bytes>>)
      ensures match Register.Judge(Generations.Extract, RegisterAt(dir.View(), lastAccepted, name), pre, body, now)
        case Refuse(result) => r == Some(result)
        case Commit(_) => r == None
    {
      var current := if name in dir.data then Some(dir.data[name]) else None;
      match pre {
        case CreateOnly =>
          if current.Some? {
            return Some(if current.value == body then Ok(Sha256(body)) else Exists(Sha256(current.value)));
          }
        case Overwrite(expected, lease) =>
          if !FenceOk(name, lease, now) {
            return Some(Stale(VersionOf(current), Fence));
          }
          if VersionOf(current) != Some(expected) {
            return Some(Stale(VersionOf(current), Unspecified));
          }
          var offered, stored := Generations.Extract(body), Generations.Extract(current.value);
          if offered.Some? && stored.Some? && offered.value <= stored.value {
            return Some(Stale(VersionOf(current), Unspecified));
          }
      }
      r := None;
    }

    /** `write()`; no result means the process died inside the commit, at any byte of the append or later. */
    method Write(name: Name, body: Bytes, pre: Precondition<Bytes>, now: Time, stop: Stop)
      returns (result: Option<WriteResult<Bytes>>)
      requires dir.Clean() && dir.platform.Writable(CrashRecovery.EntryOf(CommitFor(name, pre, body)))
      modifies this`lastAccepted, dir`journal, dir`data, dir`entries
      ensures dir.Files() == if old(Allows(name, body, pre, now))
        then CrashRecovery.Written(dir.platform, old(dir.Files()), CommitFor(name, pre, body), stop)
        else old(dir.Files())
      ensures (lastAccepted, result) ==
        (WriteOn(old(dir.View()), old(lastAccepted), name, pre, body, now, stop).1,
         WriteOn(old(dir.View()), old(lastAccepted), name, pre, body, now, stop).2)
      // Unless it dies inside the append the journal is whole, and the directory is as specified.
      ensures !stop.DiesInAppend? ==>
        dir.Clean() && dir.View() == WriteOn(old(dir.View()), old(lastAccepted), name, pre, body, now, stop).0
    {
      result := Refusal(name, body, pre, now);
      if result.Some? {
        return;
      }
      var done := Commit(CommitFor(name, pre, body), stop);
      if done {
        result := Some(Ok(Sha256(body)));
      } else if stop == ReplaceFails {
        result := Some(Error(Busy));
      }
    }

    /** `lock()`, with the crash between the two files. */
    method Lock(name: Name, token: Token, ttl: nat, now: Time, dies: bool) returns (fence: Option<nat>)
      modifies dir`owners, dir`advisory
      ensures dir.entries == old(dir.entries) && dir.journal == old(dir.journal)
      ensures (dir.View(), fence) == LockOn(old(dir.View()), lastAccepted, name, token, ttl, now, dies)
    {
      if name in dir.advisory && dir.advisory[name].1 > now {
        return None;
      }
      var durable := if name in dir.owners then dir.owners[name].fence else 0;
      var next := Max(durable, Accepted(lastAccepted, name)) + 1;
      dir.owners := dir.owners[name := Owner(token, now + ttl, next)];
      if dies {
        return None;
      }
      dir.advisory := dir.advisory[name := (token, now + ttl)];
      fence := Some(next);
    }

    method Unlock(name: Name, token: Token, now: Time) returns (released: bool)
      modifies dir`advisory
      ensures dir.View() == UnlockOn(old(dir.View()), name, token, now)
      ensures released == HoldsAdvisory(old(dir.View()), name, token, now)
    {
      if name !in dir.advisory {
        return false;
      }
      var (owner, expiry) := dir.advisory[name];
      if owner != token || expiry <= now {
        return false;
      }
      dir.advisory := dir.advisory - {name};
      released := true;
    }

    /** `renew()`: without the durable half nothing is extended. */
    method Renew(name: Name, token: Token, ttl: nat, now: Time) returns (renewed: bool)
      modifies dir`owners, dir`advisory
      ensures dir.View() == RenewOn(old(dir.View()), name, token, ttl, now)
      ensures renewed <==>
        && HoldsAdvisory(old(dir.View()), name, token, now)
        && name in old(dir.owners) && old(dir.owners)[name].token == token
    {
      if name !in dir.advisory {
        return false;
      }
      var (owner, expiry) := dir.advisory[name];
      if owner != token || expiry <= now {
        return false;
      }
      if name !in dir.owners || dir.owners[name].token != token {
        return false;
      }
      dir.owners := dir.owners[name := dir.owners[name].(expiry := now + ttl)];
      dir.advisory := dir.advisory[name := (token, now + ttl)];
      renewed := true;
    }
  }
}
