/**
  The migration itself: scan every source value, then copy create-only and read back each key, under
  a lease that is re-proved as time passes. Nothing is overwritten and nothing is deleted.
*/
module MigrationCopy {
  import opened Types
  import opened Store
  import Register
  import opened MigrationLease
  import opened Reruns

  datatype ScanResult = Clean | Hit | ScannerRaised

  datatype Reason =
    | LeaseUnavailable
    | ListingFailed
    | Aliased
    | ControlKeyHoldsData
    | LeaseLost
    | SecretInKey
    | SecretInBody
    | KeyScanFailed
    | ScanFailed
    | SourceUnreadable
    | SourceVanished
    | WriteUnresolved
    | Diverged(existing: Version<Bytes>)
    | WriteRefused
    | ReadBackFailed
    | ReadBackMismatch

  /** The key a report names; a key whose name tripped the scanner is named by its hash only. */
  datatype Blame = Nobody | Named(key: Key) | Hashed(hash: Version<Key>)

  datatype Report = Report(
    ok: bool,
    reason: Option<Reason>,
    sourceKeyCount: nat,
    scanned: nat,
    copied: nat,
    alreadyPresent: nat,
    verified: nat,
    abortedKey: Blame,
    unexpected: set<Key>)

  datatype SourceFault = Fine | Raises | Vanishes

  /** The frozen source: its values never change, but reading it may fail. */
  class Source {
    const blobs: map<Key, Bytes>
    const listing: seq<Key>  // `sorted(list(""))`
    const faults: nat -> SourceFault
    const scanKey: Key -> ScanResult
    const scanBody: Bytes -> ScanResult
    const elapsed: nat -> nat
    var tick: nat
    var clock: nat

    ghost predicate Valid() {
      && (forall k :: k in listing <==> k in blobs)
      && (forall i, j :: 0 <= i < j < |listing| ==> listing[i] != listing[j])
    }

    /** From here on nothing fails. */
    ghost predicate FineFrom(i: nat) {
      forall j :: i <= j ==> faults(j) == Fine
    }

    method List() returns (keys: Option<seq<Key>>)
      modifies this
      ensures keys.Some? ==> keys.value == listing
      ensures tick == old(tick) + 1 && (faults(old(tick)) == Fine ==> keys.Some?)
      ensures clock == old(clock) + elapsed(old(tick))
    {
      keys := if faults(tick) == Raises then None else Some(listing);
      tick, clock := tick + 1, clock + elapsed(tick);
    }

    method Read(key: Key) returns (reply: ReadReply<Bytes>)
      modifies this
      ensures reply.Got? && reply.value.Some? ==> key in blobs && reply.value.value == blobs[key]
      ensures tick == old(tick) + 1 && clock == old(clock) + elapsed(old(tick))
      ensures match faults(old(tick))
        case Fine => reply == Got(if key in blobs then Some(blobs[key]) else None)
        case Vanishes => reply == Got(None)
        case Raises => reply.ReadRaised?
    {
      var fault := faults(tick);
      tick, clock := tick + 1, clock + elapsed(tick);
      reply := if fault == Raises then ReadRaised
               else if fault == Vanishes || key !in blobs then Got(None)
               else Got(Some(blobs[key]));
    }
  }

  // The run

  /** `gate.reconcile` of a create whose outcome is unknown: only the intended body there now is a success. */
  method Reconcile(target: Store<Bytes>, key: Key, body: Bytes) returns (r: WriteResult<Bytes>)
    modifies target
    ensures target.Interfered() && target.landings == old(target.landings) && old(target.seen) <= target.seen
    ensures r == Ok(Sha256(body)) || r == Error(ConflictUnknown)
    ensures target.tick == old(target.tick) + 1 && old(target.clock) <= target.clock
    ensures r.Ok? ==> target.Value(key) == Some(body)
    // It is a success exactly when a read showed the body, so exactly when the key holds it and can be read.
    ensures r.Ok? <==>
      |target.seen| > |old(target.seen)| && target.seen[|target.seen| - 1] == Saw(key, Some(body))
    ensures r.Ok? <==> target.turns(old(target.tick)).fate.Normal? && target.Value(key) == Some(body)
    ensures target.seen == old(target.seen) || |target.seen| == |old(target.seen)| + 1
    ensures target.lost == old(target.lost) - {old(target.tick)}
    ensures target.Quiet(old(target.tick)) ==> target.Value(key) == old(target.Value(key))
  {
    var read := target.Read(key);
    r := if read.Got? && read.value == Some(body) then Ok(Sha256(body)) else Error(ConflictUnknown);
  }

  /** A key of the manifest, written create-only with the source's value. */
  predicate IsCopy(l: Landing<Bytes>, key: Key, body: Bytes) {
    l.key == key && l.op == Register.Create(body) && l.before.value.None?
  }

  /** Nothing stopped the copying of this value, unless the target holds another one. */
  predicate Resolved(reason: Option<Reason>, body: Bytes) {
    reason.None? || (reason.value.Diverged? && reason.value.existing != Sha256(body))
  }

  /** One key: create, resolve an unknown outcome, and judge the answer. */
  method WriteOne(target: Store<Bytes>, key: Key, body: Bytes) returns (reason: Option<Reason>)
    modifies target
    ensures old(target.landings) <= target.landings && |target.landings| <= |old(target.landings)| + 1
    ensures |target.landings| > |old(target.landings)| ==> IsCopy(target.landings[|old(target.landings)|], key, body)
    ensures forall k :: target.private(k) && k != key ==> target.Value(k) == old(target.Value(k))
    // The key keeps its value, takes the source's, or, when the create failed, may be left reserved and blank.
    ensures (target.private(key) && target.landings == old(target.landings)
             && target.Value(key) != old(target.Value(key))) ==>
      && old(target.Value(key)).None? && target.blank.Some? && target.Value(key) == target.blank
      && (reason.Some? ==> !MayGoOn(reason))
    ensures target.private(key) && target.landings != old(target.landings) ==> old(target.Value(key)).None?
    ensures reason.None? && target.private(key) ==> target.Value(key) == Some(body)
    ensures target.private(key) && target.landings != old(target.landings) ==> target.Value(key) == Some(body)
    ensures reason.Some? && reason.value.Diverged? ==>
      target.landings == old(target.landings) &&
        (target.private(key) ==> VersionOf(target.Value(key)) == Some(reason.value.existing))
    ensures old(target.seen) <= target.seen && |target.seen| > |old(target.seen)|
    ensures target.seen[|old(target.seen)|].Answered? && target.seen[|old(target.seen)|].key == key
    ensures reason.None? ==> target.Value(key) == Some(body)
    ensures old(target.tick) <= target.tick && old(target.clock) <= target.clock
    ensures target.HarmlessIn(old(target.tick), target.tick) ==> Resolved(reason, body)
    // An answer that was lost is made up for by one read: the key's value decides.
    ensures var n := old(target.tick);
      target.AnswerLost(target.turns(n).fate) ==>
        && (reason.None? || reason == Some(WriteUnresolved)) && target.tick == n + 2
        && (reason.None? <==> target.turns(n + 1).fate.Normal? && target.Value(key) == Some(body))
    // So a create that landed is not given up because its answer was lost.
    ensures var n := old(target.tick);
      (&& target.AnswerLost(target.turns(n).fate) && target.Lands(target.turns(n).fate)
       && target.turns(n).others == [] && old(target.Value(key)).None? && target.Quiet(n + 1)) ==> reason.None?
    ensures var fate := target.turns(old(target.tick)).fate;
      fate.Broken? && !target.AnswerLost(fate) ==> reason == Some(WriteRefused)
    ensures reason == Some(WriteUnresolved) ==> target.AnswerLost(target.turns(old(target.tick)).fate)
  {
    var reply := target.Persist(key, CreateOnly, body);
    var result: WriteResult<Bytes>;
    if reply.Raised? || reply.result == Error(TimeoutAfterCommit) {
      result := Reconcile(target, key, body);
      if !result.Ok? {
        return Some(WriteUnresolved);
      }
    } else {
      result := reply.result;
    }
    match result {
      case Ok(_) => reason := None;
      case Exists(v) => reason := Some(Diverged(v));
      case Stale(_, _) => reason := Some(WriteRefused);
      case Error(_) => reason := Some(WriteRefused);
    }
  }

  /** After a write of the key was answered a read returned this body. */
  ghost predicate Verified(seen: seq<Sighting<Bytes>>, from: nat, key: Key, body: Bytes) {
    exists a, b :: from <= a < b < |seen| && seen[a].Answered? && seen[a].key == key && seen[b] == Saw(key, Some(body))
  }

  lemma StillVerified(seen: seq<Sighting<Bytes>>, seen': seq<Sighting<Bytes>>, from: nat, from': nat, key: Key,
                      body: Bytes)
    requires Verified(seen, from, key, body) && seen <= seen' && from' <= from
    ensures Verified(seen', from', key, body)
  {
    var a, b :| from <= a < b < |seen| && seen[a].Answered? && seen[a].key == key && seen[b] == Saw(key, Some(body));
    assert seen'[a] == seen[a] && seen'[b] == seen[b];
  }

  /** One key, written and read back by content. */
  method CopyOne(target: Store<Bytes>, key: Key, body: Bytes) returns (reason: Option<Reason>, written: bool)
    modifies target
    ensures old(target.landings) <= target.landings && |target.landings| <= |old(target.landings)| + 1
    ensures |target.landings| > |old(target.landings)| ==> IsCopy(target.landings[|old(target.landings)|], key, body)
    ensures forall k :: target.private(k) && k != key ==> target.Value(k) == old(target.Value(k))
    // The key keeps its value, takes the source's, or, when the create failed, may be left reserved and blank.
    ensures (target.private(key) && target.landings == old(target.landings)
             && target.Value(key) != old(target.Value(key))) ==>
      && old(target.Value(key)).None? && target.blank.Some? && target.Value(key) == target.blank
      && (reason.Some? ==> !MayGoOn(reason))
    ensures target.private(key) && target.landings != old(target.landings) ==> old(target.Value(key)).None?
    ensures reason.None? && target.private(key) ==> target.Value(key) == Some(body)
    ensures target.private(key) && target.landings != old(target.landings) ==> target.Value(key) == Some(body)
    ensures reason.Some? && reason.value.Diverged? ==>
      target.landings == old(target.landings) &&
        (target.private(key) ==> VersionOf(target.Value(key)) == Some(reason.value.existing))
    ensures old(target.seen) <= target.seen
    ensures reason.None? ==> written && Verified(target.seen, |old(target.seen)|, key, body)
    ensures old(target.tick) <= target.tick && old(target.clock) <= target.clock
    ensures target.HarmlessIn(old(target.tick), target.tick) ==> Resolved(reason, body)
  {
    reason := WriteOne(target, key, body);
    if reason.Some? {
      return reason, false;
    }
    var back := target.Read(key);
    if back.ReadRaised? {
      return Some(ReadBackFailed), true;
    }
    if VersionOf(back.value) != Some(Sha256(body)) {
      return Some(ReadBackMismatch), true;
    }
    assert target.seen[|target.seen| - 1] == Saw(key, Some(body));
    return None, true;
  }

  /** The manifest: every listed key but the control key. */
  function Manifest(listing: seq<Key>): (keys: seq<Key>)
    ensures forall k :: k in keys <==> k in listing && k != CONTROL_KEY
    ensures CONTROL_KEY !in listing ==> keys == listing
  {
    if listing == [] then []
    else if listing[0] == CONTROL_KEY then Manifest(listing[1..])
    else [listing[0]] + Manifest(listing[1..])
  }

  /** How many of these keys were there before. */
  function Present(keys: seq<Key>, before: set<Key>): nat {
    if keys == [] then 0
    else Present(keys[..|keys| - 1], before) + if keys[|keys| - 1] in before then 1 else 0
  }

  lemma PresentStep(keys: seq<Key>, i: nat, before: set<Key>)
    requires i < |keys|
    ensures Present(keys[..i + 1], before) == Present(keys[..i], before) + if keys[i] in before then 1 else 0
  {
    assert keys[..i + 1][..i] == keys[..i];
  }

  /** Neither the name nor the value of a source key trips the scanner. */
  predicate CleanKey(source: Source, key: Key) {
    key in source.blobs && source.scanKey(key) == Clean && source.scanBody(source.blobs[key]) == Clean
  }

  predicate AllClean(source: Source, keys: seq<Key>) {
    forall i :: 0 <= i < |keys| ==> CleanKey(source, keys[i])
  }

  /** What the scanner said of a key's name, as the reason of an abort tells it. */
  predicate BlamesName(reason: Reason, inName: ScanResult) {
    && (reason == SecretInKey <==> inName == Hit)
    && (reason == KeyScanFailed <==> inName != Hit && inName != Clean)
  }

  /** One key of pass 1: the key name, then the value. */
  method ScanOne(source: Source, lease: MigrationLease, key: Key) returns (reason: Option<Reason>, body: Bytes)
    requires lease.Valid() && key in source.blobs
    modifies source, lease, lease.control
    ensures lease.Valid()
    ensures reason.None? ==> CleanKey(source, key) && body == source.blobs[key]
    ensures reason.Some? ==> !reason.value.Diverged?
    ensures reason.Some? && reason.value != LeaseLost ==> BlamesName(reason.value, source.scanKey(key))
    ensures old(source.tick) <= source.tick
    ensures old(lease.control.log) <= lease.control.log && (old(lease.Proven()) ==> lease.Proven())
    ensures old(lease.Calm()) ==>
      lease.Calm() && (source.FineFrom(old(source.tick)) && CleanKey(source, key) ==> reason.None?)
  {
    body := [];
    var lost := lease.HeartbeatIfDue();
    if lost.Some? {
      return Some(LeaseLost), body;
    }
    var inName := source.scanKey(key);
    if inName != Clean {
      return Some(if inName == Hit then SecretInKey else KeyScanFailed), body;
    }
    var before := source.clock;
    var read := source.Read(key);
    lease.Elapse(source.clock - before);
    if read.ReadRaised? {
      return Some(SourceUnreadable), body;
    }
    if read.value.None? {
      return Some(SourceVanished), body;
    }
    body := read.value.value;
    var inBody := source.scanBody(body);
    reason := if inBody == Clean then None else Some(if inBody == Hit then SecretInBody else ScanFailed);
  }

  /** The first i keys were scanned clean, and these are their values. */
  ghost predicate Scanned(source: Source, keys: seq<Key>, i: nat, blobs: map<Key, Bytes>) {
    && i <= |keys| && Covers(source.blobs, keys)
    && blobs == Restrict(source.blobs, keys[..i])
    && forall j :: 0 <= j < i ==> CleanKey(source, keys[j])
  }

  lemma ScannedExtends(source: Source, keys: seq<Key>, i: nat, blobs: map<Key, Bytes>)
    requires Scanned(source, keys, i, blobs) && i < |keys| && CleanKey(source, keys[i])
    ensures Scanned(source, keys, i + 1, blobs[keys[i] := source.blobs[keys[i]]])
  {
    RestrictExtends(source.blobs, keys, i);
  }

  /** Pass 1: every key name and every value scanned before anything is written. */
  method PassOne(source: Source, lease: MigrationLease, keys: seq<Key>)
    returns (reason: Option<Reason>, blobs: map<Key, Bytes>, scanned: nat)
    requires lease.Valid() && Covers(source.blobs, keys)
    modifies source, lease, lease.control
    ensures lease.Valid() && Scanned(source, keys, scanned, blobs)
    ensures reason.None? <==> scanned == |keys|
    ensures reason.Some? ==> !reason.value.Diverged?
    ensures reason.Some? && reason.value != LeaseLost ==> BlamesName(reason.value, source.scanKey(keys[scanned]))
    ensures old(lease.control.log) <= lease.control.log && (old(lease.Proven()) ==> lease.Proven())
    ensures old(lease.Calm()) ==>
      lease.Calm() && (source.FineFrom(old(source.tick)) && AllClean(source, keys) ==> reason.None?)
  {
    blobs, reason := map[], None;
    for i := 0 to |keys|
      invariant lease.Valid() && reason.None? && Scanned(source, keys, i, blobs)
      invariant old(source.tick) <= source.tick && (old(lease.Calm()) ==> lease.Calm())
      invariant old(lease.control.log) <= lease.control.log && (old(lease.Proven()) ==> lease.Proven())
    {
      var body;
      reason, body := ScanOne(source, lease, keys[i]);
      if reason.Some? {
        return reason, blobs, i;
      }
      ScannedExtends(source, keys, i, blobs);
      blobs := blobs[keys[i] := body];
    }
    scanned := |keys|;
  }

  /** What the target was when a run began copying. */
  datatype Start = Start(landings: seq<Landing<Bytes>>, seen: seq<Sighting<Bytes>>, data: map<Key, Bytes>)

  ghost function StartOf(target: Store<Bytes>): Start
    reads target
  {
    Start(target.landings, target.seen, target.Data())
  }

  /** From here on the landings are creates of these keys with the source's values. */
  ghost predicate OnlyCopies(ls: seq<Landing<Bytes>>, from: nat, blobs: map<Key, Bytes>, keys: seq<Key>) {
    forall j :: from <= j < |ls| ==>
      ls[j].key in keys && ls[j].key in blobs && IsCopy(ls[j], ls[j].key, blobs[ls[j].key])
  }

  lemma OnlyCopiesExtends(ls: seq<Landing<Bytes>>, ls': seq<Landing<Bytes>>, from: nat, blobs: map<Key, Bytes>,
                          keys: seq<Key>, i: nat)
    requires i < |keys| && keys[i] in blobs && OnlyCopies(ls, from, blobs, keys[..i])
    requires ls <= ls' && |ls'| <= |ls| + 1
    requires |ls'| > |ls| ==> IsCopy(ls'[|ls|], keys[i], blobs[keys[i]])
    ensures OnlyCopies(ls', from, blobs, keys[..i + 1])
    ensures ls' == ls ==> OnlyCopies(ls', from, blobs, keys[..i])
  {
    assert keys[..i + 1] == keys[..i] + [keys[i]];
    forall j | from <= j < |ls'|
      ensures ls'[j].key in keys[..i + 1] && ls'[j].key in blobs && IsCopy(ls'[j], ls'[j].key, blobs[ls'[j].key])
    {
      if j < |ls| { assert ls'[j] == ls[j]; }
    }
  }

  /** The data is what was there plus the first `reached` keys, none of which was there with another value. */
  ghost predicate DataCopied(data: map<Key, Bytes>, after: map<Key, Bytes>, blobs: map<Key, Bytes>, keys: seq<Key>,
                             reached: nat)
    requires Covers(blobs, keys) && reached <= |keys|
  {
    && after == Copied(data, blobs, keys[..reached])
    && (forall j :: 0 <= j < reached ==> !Diverges(data, blobs, keys[j]))
  }

  /** What a run that stopped has done: the first `reached` keys, and perhaps a name reserved for the next. */
  ghost predicate Stopped(target: Store<Bytes>, start: Start, blobs: map<Key, Bytes>, keys: seq<Key>, reached: nat)
    requires Covers(blobs, keys) && reached <= |keys|
    reads target
  {
    && start.landings <= target.landings && start.seen <= target.seen
    && OnlyCopies(target.landings, |start.landings|, blobs, keys[..reached])
    && (target.Alone() ==>
          && (forall j :: 0 <= j < reached ==> !Diverges(start.data, blobs, keys[j]))
          && (target.Data() == Copied(start.data, blobs, keys[..reached])
              || StubLeft(start.data, target.Data(), blobs, keys, reached, target.blank)))
  }

  /** Everything a run has done to the target once the first `reached` keys were written. */
  ghost predicate CopiedSoFar(target: Store<Bytes>, start: Start, blobs: map<Key, Bytes>, keys: seq<Key>, reached: nat)
    requires Covers(blobs, keys) && reached <= |keys|
    reads target
  {
    && start.landings <= target.landings && start.seen <= target.seen
    && OnlyCopies(target.landings, |start.landings|, blobs, keys[..reached])
    && (target.Alone() ==> DataCopied(start.data, target.Data(), blobs, keys, reached))
  }

  /** The first `verified` keys were read back with the source's content. */
  ghost predicate ReadBack(target: Store<Bytes>, start: Start, blobs: map<Key, Bytes>, keys: seq<Key>, verified: nat)
    requires Covers(blobs, keys) && verified <= |keys|
    reads target
  {
    && start.seen <= target.seen
    && (forall i :: 0 <= i < verified ==> Verified(target.seen, |start.seen|, keys[i], blobs[keys[i]]))
  }

  /** The data after one create, when nobody else writes. */
  lemma DataAfter(target: Store<Bytes>, data: map<Key, Bytes>, key: Key, value: Option<Bytes>)
    requires forall k :: k != key ==> target.Value(k) == if k in data then Some(data[k]) else None
    requires target.Value(key) == (if key in data then Some(data[key]) else None) ||
      (key !in data && value.Some? && target.Value(key) == value)
    ensures target.Data() == data || (key !in data && value.Some? && target.Data() == data[key := value.value])
  {
    if target.Value(key) == value && key !in data && value.Some? {
      assert target.Data() == data[key := value.value];
    } else {
      assert target.Data() == data;
    }
  }

  /** One more key of the manifest. */
  lemma CopyExtends(data: map<Key, Bytes>, after: map<Key, Bytes>, blobs: map<Key, Bytes>, keys: seq<Key>, i: nat,
                    after': map<Key, Bytes>)
    requires Covers(blobs, keys) && i < |keys| && DataCopied(data, after, blobs, keys, i)
    requires after' == after || (keys[i] !in after && after' == after[keys[i] := blobs[keys[i]]])
    requires keys[i] in after' && after'[keys[i]] == blobs[keys[i]]
    ensures DataCopied(data, after', blobs, keys, i + 1)
  {
    RestrictExtends(blobs, keys, i);
    CopiedAt(data, blobs, keys[..i], keys[i]);
  }

  /** A run stopped by a divergence stopped at a key the target holds, with the version reported. */
  ghost predicate StoppedAt(target: Store<Bytes>, keys: seq<Key>, reached: nat, reason: Option<Reason>)
    reads target
  {
    reason.Some? && reason.value.Diverged? ==>
      && reached < |keys|
      && (target.Alone() ==>
            && keys[reached] in target.Data()
            && Sha256(target.Data()[keys[reached]]) == reason.value.existing)
  }

  /** Copying ended with the manifest, or at a key the target holds with another value. */
  predicate Completed(reason: Option<Reason>, blobs: map<Key, Bytes>, keys: seq<Key>, reached: nat)
    requires Covers(blobs, keys)
  {
    reason.Some? ==> reason.value.Diverged? && reached < |keys| && reason.value.existing != Sha256(blobs[keys[reached]])
  }

  /** If nothing worse happened on the target since then than lost answers, copying ended as it should. */
  ghost predicate Unharmed(target: Store<Bytes>, from: nat, reason: Option<Reason>, blobs: map<Key, Bytes>,
                           keys: seq<Key>, reached: nat)
    requires Covers(blobs, keys)
    reads target
  {
    target.HarmlessIn(from, target.tick) ==> Completed(reason, blobs, keys, reached)
  }

  lemma UnharmedBefore(target: Store<Bytes>, from: nat, later: nat, reason: Option<Reason>, blobs: map<Key, Bytes>,
                       keys: seq<Key>, reached: nat)
    requires Covers(blobs, keys) && from <= later && Unharmed(target, later, reason, blobs, keys, reached)
    ensures Unharmed(target, from, reason, blobs, keys, reached)
  {
  }

  /** The next key of the manifest; `reached` tells whether it was written. */
  method CopyNext(target: Store<Bytes>, ghost start: Start, keys: seq<Key>, blobs: map<Key, Bytes>, i: nat)
    returns (reason: Option<Reason>, written: bool, ghost reached: nat)
    requires Covers(blobs, keys) && i < |keys|
    requires CopiedSoFar(target, start, blobs, keys, i) && ReadBack(target, start, blobs, keys, i)
    modifies target
    ensures i <= reached <= i + 1 && (reason.None? ==> written && reached == i + 1)
    ensures Stopped(target, start, blobs, keys, reached)
    ensures MayGoOn(reason) ==> CopiedSoFar(target, start, blobs, keys, reached)
    ensures ReadBack(target, start, blobs, keys, if reason.None? then i + 1 else i)
    ensures StoppedAt(target, keys, reached, reason)
    ensures old(target.tick) <= target.tick && old(target.clock) <= target.clock
    ensures Unharmed(target, old(target.tick), reason, blobs, keys, reached)
  {
    var key, body := keys[i], blobs[keys[i]];
    ghost var data, value := target.Data(), target.Value(keys[i]);
    reason, written := CopyOne(target, key, body);
    reached := if reason.None? || target.landings != old(target.landings) then i + 1 else i;
    OnlyCopiesExtends(old(target.landings), target.landings, |start.landings|, blobs, keys, i);
    ReadBackExtends(old(target.seen), target.seen, |start.seen|, blobs, keys, i, reason.None?);
    if target.Alone() {
      DataAfter(target, data, key, if target.Value(key) == value then None else target.Value(key));
      if reached == i + 1 {
        CopyExtends(start.data, data, blobs, keys, i, target.Data());
      }
    }
  }

  /** A copy that went well, or met another value, leaves no name half made. */
  predicate MayGoOn(reason: Option<Reason>) {
    reason.Some? ==> reason.value !in {WriteUnresolved, WriteRefused, ReadBackFailed, ReadBackMismatch}
  }

  lemma ReadBackExtends(seen: seq<Sighting<Bytes>>, seen': seq<Sighting<Bytes>>, from: nat, blobs: map<Key, Bytes>,
                        keys: seq<Key>, i: nat, more: bool)
    requires Covers(blobs, keys) && i < |keys| && from <= |seen| && seen <= seen'
    requires forall j :: 0 <= j < i ==> Verified(seen, from, keys[j], blobs[keys[j]])
    requires more ==> Verified(seen', |seen|, keys[i], blobs[keys[i]])
    ensures forall j :: 0 <= j < (if more then i + 1 else i) ==> Verified(seen', from, keys[j], blobs[keys[j]])
  {
    forall j | 0 <= j < i
      ensures Verified(seen', from, keys[j], blobs[keys[j]])
    {
      StillVerified(seen, seen', from, from, keys[j], blobs[keys[j]]);
    }
    if more {
      StillVerified(seen', seen', |seen|, from, keys[i], blobs[keys[i]]);
    }
  }

  datatype Tally = Tally(copied: nat, present: nat, verified: nat)

  /** The two counters split the keys written by whether the target listed them before the run. */
  predicate Counted(t: Tally, keys: seq<Key>, before: set<Key>) {
    && t.verified <= t.copied + t.present <= t.verified + 1
    && t.copied + t.present <= |keys|
    && t.present == Present(keys[..t.copied + t.present], before)
  }

  function Count(t: Tally, key: Key, before: set<Key>, verified: bool): Tally {
    var t' := if key in before then t.(present := t.present + 1) else t.(copied := t.copied + 1);
    if verified then t'.(verified := t.verified + 1) else t'
  }

  lemma CountKeeps(t: Tally, keys: seq<Key>, before: set<Key>, i: nat, verified: bool)
    requires i < |keys| && Counted(t, keys, before) && t.verified == t.copied + t.present == i
    ensures var t' := Count(t, keys[i], before, verified);
      Counted(t', keys, before) && t'.copied + t'.present == i + 1 && t'.verified == if verified then i + 1 else i
  {
    PresentStep(keys, i, before);
  }

  /** One key of pass 2, counted. */
  method CopyCounted(target: Store<Bytes>, ghost start: Start, keys: seq<Key>, blobs: map<Key, Bytes>, before: set<Key>,
                     i: nat, t: Tally)
    returns (reason: Option<Reason>, t': Tally, ghost reached: nat)
    requires Covers(blobs, keys) && i < |keys|
    requires CopiedSoFar(target, start, blobs, keys, i) && ReadBack(target, start, blobs, keys, i)
    requires Counted(t, keys, before) && t.verified == t.copied + t.present == i
    modifies target
    ensures Counted(t', keys, before) && t'.verified <= reached <= t'.verified + 1 && reached <= |keys|
    ensures Stopped(target, start, blobs, keys, reached) && ReadBack(target, start, blobs, keys, t'.verified)
    ensures MayGoOn(reason) ==> CopiedSoFar(target, start, blobs, keys, reached)
    ensures reached <= i + 1 && i <= t'.verified <= i + 1 && (t'.verified == i + 1 <==> reason.None?)
    ensures StoppedAt(target, keys, reached, reason)
    ensures reason.None? ==> t'.verified == t'.copied + t'.present == reached == i + 1
    ensures old(target.tick) <= target.tick && old(target.clock) <= target.clock
    ensures Unharmed(target, old(target.tick), reason, blobs, keys, reached)
  {
    var written;
    reason, written, reached := CopyNext(target, start, keys, blobs, i);
    CountKeeps(t, keys, before, i, reason.None?);
    t' := if written then Count(t, keys[i], before, reason.None?) else t;
  }

  /** A write of a data key: when it was issued, and when and how far ownership had been proven by then. */
  datatype Issue = Issue(key: Key, at: nat, provenAt: nat, provenLog: nat, proof: Proof)

  /** Less than a heartbeat after ownership was proven, from the lease's first document up to then. */
  ghost predicate InTime(c: Codec, log: seq<Entry>, from: nat, issue: Issue) {
    && issue.proof.at <= issue.provenAt <= issue.at < issue.provenAt + HEARTBEAT_INTERVAL
    && OwnedTo(log, from, issue.provenLog) && Proves(c, log, issue.provenLog, issue.proof)
  }

  /**
    If clocks advance together and proving ownership took less than what the lease's time leaves beyond
    a heartbeat, then whoever took the key over afterwards found it free only after this write was issued.
    `at` is when the other run looked, on the clock of this one.
  */
  lemma TakeoverComesLater(c: Codec, gen: Bytes -> Option<nat>, log: seq<Entry>, from: nat, issue: Issue, m: nat,
                           checkedAt: Time, at: nat)
    requires Chained(gen, log) && InTime(c, log, from, issue) && issue.provenLog <= m < |log|
    requires forall i :: issue.provenLog <= i < m ==> !Writes(log[i])
    requires Available(c, log[m].before.value, checkedAt)
    requires checkedAt - issue.proof.wall <= at - issue.proof.at
    requires issue.provenAt - issue.proof.at <= TTL - HEARTBEAT_INTERVAL
    ensures issue.at < at
  {
    TakeoverWaits(c, gen, log, issue.provenLog, issue.proof, m, checkedAt);
  }

  /** How far a run got, the writes it issued, and what had happened to the control key by its verdict. */
  datatype Trace = Trace(reached: nat, issues: seq<Issue>, codec: Codec, log: seq<Entry>, from: nat)

  /** Every key written was issued in its turn, and in time. */
  ghost predicate Timely(keys: seq<Key>, trace: Trace) {
    && trace.reached <= |trace.issues| <= |keys|
    && forall i :: 0 <= i < |trace.issues| ==>
         trace.issues[i].key == keys[i] && InTime(trace.codec, trace.log, trace.from, trace.issues[i])
  }

  lemma StillInTime(c: Codec, log: seq<Entry>, log': seq<Entry>, from: nat, issue: Issue)
    requires log <= log' && InTime(c, log, from, issue)
    ensures InTime(c, log', from, issue)
  {
    assert log'[issue.provenLog - 1] == log[issue.provenLog - 1];
    forall i | from <= i < issue.provenLog && Writes(log'[i])
      ensures log'[i].mine
    {
      assert log[i] == log'[i];
    }
  }

  lemma StillTimely(keys: seq<Key>, trace: Trace, log: seq<Entry>)
    requires Timely(keys, trace) && trace.log <= log
    ensures Timely(keys, trace.(log := log))
  {
    forall i | 0 <= i < |trace.issues|
      ensures InTime(trace.codec, log, trace.from, trace.issues[i])
    {
      StillInTime(trace.codec, trace.log, log, trace.from, trace.issues[i]);
    }
  }

  /** The trace after one more key. */
  lemma OneMoreIssue(keys: seq<Key>, trace: Trace, log: seq<Entry>, reached: nat, issue: Option<Issue>)
    returns (next: Trace)
    requires Timely(keys, trace) && trace.log <= log && trace.reached == |trace.issues| < |keys|
    requires if issue.None? then reached == trace.reached else
      && reached <= trace.reached + 1
      && issue.value.key == keys[trace.reached] && InTime(trace.codec, log, trace.from, issue.value)
    ensures Timely(keys, next) && next.log == log && next.codec == trace.codec && next.from == trace.from
    ensures next.reached == reached && |next.issues| == |trace.issues| + if issue.Some? then 1 else 0
  {
    next := Trace(reached, trace.issues + if issue.Some? then [issue.value] else [], trace.codec, log, trace.from);
    StillTimely(keys, trace, log);
  }

  /** Under a lease whose ownership was just proven, or recently enough, the next write is in time. */
  method BeginStep(lease: MigrationLease, key: Key) returns (lost: Option<Loss>, ghost issue: Issue)
    requires lease.Valid() && lease.Proven()
    modifies lease, lease.control
    ensures lease.Valid() && lease.Proven() && old(lease.control.log) <= lease.control.log
    ensures issue == Issue(key, lease.control.clock, lease.lastHeartbeat, lease.provenLog, lease.proof)
    ensures lost.None? ==> InTime(lease.control.codec, lease.control.log, lease.acquiredAt, issue)
    ensures lost.Some? ==> issue.at >= issue.provenAt + HEARTBEAT_INTERVAL
    ensures old(lease.Calm()) ==> lost.None? && lease.Calm()
  {
    lost := lease.HeartbeatIfDue();
    issue := Issue(key, lease.control.clock, lease.lastHeartbeat, lease.provenLog, lease.proof);
  }

  /** One key of pass 2, with the lease re-proved before and after it; no issue means nothing was written. */
  method StepTwo(target: Store<Bytes>, ghost start: Start, lease: MigrationLease, keys: seq<Key>,
                 blobs: map<Key, Bytes>, before: set<Key>, i: nat, t: Tally)
    returns (reason: Option<Reason>, t': Tally, ghost reached: nat, ghost issue: Option<Issue>)
    requires lease.Valid() && lease.Proven() && Covers(blobs, keys) && i < |keys|
    requires CopiedSoFar(target, start, blobs, keys, i) && ReadBack(target, start, blobs, keys, i)
    requires Counted(t, keys, before) && t.verified == t.copied + t.present == i
    modifies target, lease, lease.control
    ensures lease.Valid() && lease.Proven() && old(lease.control.log) <= lease.control.log
    ensures Counted(t', keys, before) && t'.verified <= reached <= t'.verified + 1 && reached <= |keys|
    ensures Stopped(target, start, blobs, keys, reached) && ReadBack(target, start, blobs, keys, t'.verified)
    ensures MayGoOn(reason) ==> CopiedSoFar(target, start, blobs, keys, reached)
    ensures reached <= i + 1
    ensures StoppedAt(target, keys, reached, reason)
    ensures reason.None? ==> t'.verified == t'.copied + t'.present == reached == i + 1
    ensures i <= t'.verified <= i + 1 && (t'.verified == i + 1 ==> reason.None? || reason == Some(LeaseLost))
    ensures if issue.None? then reached == i && target.landings == old(target.landings) && reason == Some(LeaseLost)
            else && issue.value.key == keys[i]
                 && InTime(lease.control.codec, lease.control.log, lease.acquiredAt, issue.value)
    ensures old(target.tick) <= target.tick
    ensures old(lease.Calm()) ==>
      lease.Calm() && (Unharmed(target, old(target.tick), reason, blobs, keys, reached))
  {
    t', reached, issue := t, i, None;
    ghost var issued;
    var lost;
    lost, issued := BeginStep(lease, keys[i]);
    if lost.Some? {
      return Some(LeaseLost), t, i, None;
    }
    issue := Some(issued);
    reason, t', reached := CopyTimed(target, start, lease, keys, blobs, before, i, t);
    if reason.None? {
      reason := EndStep(lease, issued);
    }
  }

  /** One key of pass 2, and the time it took. */
  method CopyTimed(target: Store<Bytes>, ghost start: Start, lease: MigrationLease, keys: seq<Key>,
                   blobs: map<Key, Bytes>, before: set<Key>, i: nat, t: Tally)
    returns (reason: Option<Reason>, t': Tally, ghost reached: nat)
    requires lease.Valid() && lease.Proven() && Covers(blobs, keys) && i < |keys|
    requires CopiedSoFar(target, start, blobs, keys, i) && ReadBack(target, start, blobs, keys, i)
    requires Counted(t, keys, before) && t.verified == t.copied + t.present == i
    modifies target, lease.control`clock
    ensures lease.Valid() && lease.Proven() && (old(lease.Calm()) ==> lease.Calm())
    ensures Counted(t', keys, before) && t'.verified <= reached <= t'.verified + 1 && reached <= |keys|
    ensures Stopped(target, start, blobs, keys, reached) && ReadBack(target, start, blobs, keys, t'.verified)
    ensures MayGoOn(reason) ==> CopiedSoFar(target, start, blobs, keys, reached)
    ensures reached <= i + 1 && i <= t'.verified <= i + 1 && (t'.verified == i + 1 <==> reason.None?)
    ensures StoppedAt(target, keys, reached, reason)
    ensures reason.None? ==> t'.verified == t'.copied + t'.present == reached == i + 1
    ensures old(target.tick) <= target.tick
    ensures Unharmed(target, old(target.tick), reason, blobs, keys, reached)
  {
    var began := target.clock;
    reason, t', reached := CopyCounted(target, start, keys, blobs, before, i, t);
    lease.Elapse(target.clock - began);
  }

  /** The lease re-proved after a key; what was issued in time stays so. */
  method EndStep(lease: MigrationLease, ghost issue: Issue) returns (reason: Option<Reason>)
    requires lease.Valid() && lease.Proven() && InTime(lease.control.codec, lease.control.log, lease.acquiredAt, issue)
    modifies lease, lease.control
    ensures lease.Valid() && lease.Proven() && old(lease.control.log) <= lease.control.log
    ensures InTime(lease.control.codec, lease.control.log, lease.acquiredAt, issue)
    ensures reason.None? || reason == Some(LeaseLost)
    ensures old(lease.Calm()) ==> reason.None? && lease.Calm()
  {
    ghost var log := lease.control.log;
    var lost := lease.HeartbeatIfDue();
    StillInTime(lease.control.codec, log, lease.control.log, lease.acquiredAt, issue);
    reason := if lost.Some? then Some(LeaseLost) else None;
  }

  /** Pass 2: create-only, read back each key; `at` is the key a failure is blamed on. */
  method PassTwo(target: Store<Bytes>, lease: MigrationLease, keys: seq<Key>, blobs: map<Key, Bytes>, before: set<Key>)
    returns (reason: Option<Reason>, t: Tally, at: nat, ghost trace: Trace)
    requires lease.Valid() && lease.Proven() && Covers(blobs, keys)
    modifies target, lease, lease.control
    ensures lease.Valid() && lease.Proven()
    ensures Counted(t, keys, before) && t.verified <= trace.reached <= t.verified + 1 && trace.reached <= |keys|
    ensures Stopped(target, old(StartOf(target)), blobs, keys, trace.reached)
    ensures MayGoOn(reason) ==> CopiedSoFar(target, old(StartOf(target)), blobs, keys, trace.reached)
    ensures ReadBack(target, old(StartOf(target)), blobs, keys, t.verified)
    ensures StoppedAt(target, keys, trace.reached, reason)
    ensures reason.None? ==> t.verified == t.copied + t.present == |keys|
    ensures reason.Some? ==>
      at < |keys| && at <= t.verified <= at + 1 && (t.verified == at + 1 ==> reason == Some(LeaseLost))
    ensures Timely(keys, trace) && trace.log == lease.control.log
    ensures trace.from == lease.acquiredAt && trace.codec == lease.control.codec
    ensures old(lease.control.log) <= lease.control.log
    ensures old(lease.Calm()) ==>
      lease.Calm() && (Unharmed(target, old(target.tick), reason, blobs, keys, trace.reached))
  {
    t, reason, at := Tally(0, 0, 0), None, 0;
    trace := Trace(0, [], lease.control.codec, lease.control.log, lease.acquiredAt);
    ghost var start := StartOf(target);
    for i := 0 to |keys|
      invariant lease.Valid() && lease.Proven() && reason.None?
      invariant Counted(t, keys, before) && t.verified == t.copied + t.present == i
      invariant trace.reached == |trace.issues| == i
      invariant CopiedSoFar(target, start, blobs, keys, i) && ReadBack(target, start, blobs, keys, i)
      invariant Timely(keys, trace) && trace.log == lease.control.log
      invariant trace.from == lease.acquiredAt && trace.codec == lease.control.codec
      invariant old(lease.control.log) <= lease.control.log
      invariant old(target.tick) <= target.tick && (old(lease.Calm()) ==> lease.Calm())
    {
      ghost var reached, issue, tick := 0, None, target.tick;
      reason, t, reached, issue := StepTwo(target, start, lease, keys, blobs, before, i, t);
      if old(lease.Calm()) {
        UnharmedBefore(target, old(target.tick), tick, reason, blobs, keys, reached);
      }
      trace := OneMoreIssue(keys, trace, lease.control.log, reached, issue);
      if reason.Some? {
        at := i;
        return;
      }
    }
  }

  function Aborted(reason: Reason, count: nat, scanned: nat, t: Tally, key: Blame, unexpected: set<Key>): Report {
    Report(false, Some(reason), count, scanned, t.copied, t.present, t.verified, key, unexpected)
  }

  /** A scanned key is named by its hash if its name was the trouble. */
  function BlameScan(reason: Reason, key: Key): Blame {
    if reason.SecretInKey? || reason.KeyScanFailed? then Hashed(Sha256(key)) else Named(key)
  }

  /** Before pass 2 a report names the key it was at; in pass 2 every key before the named one was verified. */
  predicate Blamed(report: Report, keys: seq<Key>) {
    if report.scanned < |keys| then
      report.abortedKey in {Nobody, Named(CONTROL_KEY), Named(keys[report.scanned]),
        Hashed(Sha256(keys[report.scanned]))}
    else
      match report.abortedKey
      case Nobody => report.ok || report.verified == |keys|
      case Hashed(_) => false
      case Named(k) =>
        || k == CONTROL_KEY
        || (report.verified < |keys| && k == keys[report.verified])
        || (report.reason == Some(LeaseLost) && 0 < report.verified <= |keys| && k == keys[report.verified - 1])
  }

  /** What a report says about the target, whether the run succeeded or aborted. */
  ghost predicate Truthful(report: Report, target: Store<Bytes>, start: Start, blobs: map<Key, Bytes>, keys: seq<Key>,
                           before: set<Key>, reached: nat)
    requires Covers(blobs, keys)
    reads target
  {
    && report.verified <= reached <= report.verified + 1 && reached <= |keys|
    && Counted(Tally(report.copied, report.alreadyPresent, report.verified), keys, before)
    && Stopped(target, start, blobs, keys, reached) && ReadBack(target, start, blobs, keys, report.verified)
    && (MayGoOn(report.reason) ==> CopiedSoFar(target, start, blobs, keys, reached))
    && StoppedAt(target, keys, reached, report.reason)
    && (report.ok <==> report.reason.None?) && Blamed(report, keys)
    && (report.ok ==> report.sourceKeyCount == report.scanned == report.verified == |keys|)
  }

  /** Nobody else is at work and nothing fails, on the source and the control key. */
  ghost predicate Smooth(source: Source, lease: MigrationLease)
    reads source, lease, lease.control
  {
    lease.Calm() && source.FineFrom(source.tick)
  }

  /** Both passes over a manifest, and the last look at the lease. */
  method CopyAll(source: Source, target: Store<Bytes>, lease: MigrationLease, keys: seq<Key>, before: set<Key>)
    returns (report: Report, ghost trace: Trace)
    requires source.Valid() && lease.Valid() && lease.Proven() && keys == Manifest(source.listing)
    modifies source, target, lease, lease.control
    ensures lease.Valid() && old(lease.control.log) <= trace.log == lease.control.log
    ensures trace.from == lease.acquiredAt && trace.codec == lease.control.codec
    ensures Reported(source, target, old(StartOf(target)), report, before, trace)
    ensures report.scanned < |keys| ==> target.landings == old(target.landings) && trace.reached == 0
    ensures (old(Smooth(source, lease)) && target.HarmlessIn(old(target.tick), target.tick)
             && AllClean(source, keys)) ==> RanThrough(source, report, trace)
    ensures old(lease.Calm()) ==> lease.Calm()
    ensures report.unexpected == before - (set k | k in keys) - {CONTROL_KEY}
  {
    var unexpected := before - (set k | k in keys) - {CONTROL_KEY};
    var reason, blobs, scanned := PassOne(source, lease, keys);
    if reason.Some? {
      ScanReported(source, target, reason.value, keys, scanned, before, lease.control.codec, lease.control.log,
                   lease.acquiredAt, unexpected);
      return Aborted(reason.value, |keys|, scanned, Tally(0, 0, 0), BlameScan(reason.value, keys[scanned]), unexpected),
             Trace(0, [], lease.control.codec, lease.control.log, lease.acquiredAt);
    }
    assert keys[..|keys|] == keys;
    report, trace := CopyScanned(target, lease, keys, blobs, before, unexpected);
  }

  /** Pass 2, the last look at the lease, and the report. */
  method CopyScanned(target: Store<Bytes>, lease: MigrationLease, keys: seq<Key>, blobs: map<Key, Bytes>,
                     before: set<Key>, unexpected: set<Key>)
    returns (report: Report, ghost trace: Trace)
    requires lease.Valid() && lease.Proven() && Covers(blobs, keys)
    modifies target, lease, lease.control
    ensures lease.Valid() && old(lease.control.log) <= trace.log == lease.control.log
    ensures trace.from == lease.acquiredAt && trace.codec == lease.control.codec
    ensures Truthful(report, target, old(StartOf(target)), blobs, keys, before, trace.reached)
    ensures Timely(keys, trace)
    ensures report.ok ==> OwnedTo(trace.log, trace.from, |trace.log|)
    ensures report.scanned == |keys| && report.unexpected == unexpected
    ensures report.abortedKey == Nobody || (report.abortedKey.Named? && report.abortedKey.key in keys)
    ensures old(lease.Calm()) ==>
      lease.Calm() && Unharmed(target, old(target.tick), report.reason, blobs, keys, trace.reached)
  {
    var reason, t, at;
    reason, t, at, trace := PassTwo(target, lease, keys, blobs, before);
    if reason.Some? {
      report := Aborted(reason.value, |keys|, |keys|, t, Named(keys[at]), unexpected);
      return;
    }
    report, trace := Verdict(lease, keys, t, trace, unexpected);
  }

  /** The last look at the lease decides whether a run that got through succeeded. */
  method Verdict(lease: MigrationLease, keys: seq<Key>, t: Tally, ghost done: Trace, unexpected: set<Key>)
    returns (report: Report, ghost trace: Trace)
    requires lease.Valid() && lease.Proven() && Timely(keys, done) && done.log == lease.control.log
    requires done.from == lease.acquiredAt && done.codec == lease.control.codec
    modifies lease.control
    ensures lease.Valid() && done.log <= trace.log == lease.control.log && trace == done.(log := lease.control.log)
    ensures Timely(keys, trace) && (report.ok ==> OwnedTo(trace.log, trace.from, |trace.log|))
    ensures report.reason.None? || report.reason == Some(LeaseLost)
    ensures report == Report(report.reason.None?, report.reason, |keys|, |keys|, t.copied, t.present, t.verified,
                             Nobody, unexpected)
    ensures old(lease.Calm()) ==> lease.Calm() && report.ok
  {
    var lost := lease.VerifyOwnership();
    StillTimely(keys, done, lease.control.log);
    trace := done.(log := lease.control.log);
    var reason := if lost.Some? then Some(LeaseLost) else None;
    report := Report(reason.None?, reason, |keys|, |keys|, t.copied, t.present, t.verified, Nobody, unexpected);
  }

  lemma ScanReported(source: Source, target: Store<Bytes>, reason: Reason, keys: seq<Key>, scanned: nat,
                     before: set<Key>, c: Codec, log: seq<Entry>, from: nat, unexpected: set<Key>)
    requires source.Valid() && keys == Manifest(source.listing) && scanned < |keys| && !reason.Diverged?
    requires reason != LeaseLost ==> BlamesName(reason, source.scanKey(keys[scanned]))
    ensures Reported(source, target, StartOf(target),
                     Aborted(reason, |keys|, scanned, Tally(0, 0, 0), BlameScan(reason, keys[scanned]), unexpected),
                     before, Trace(0, [], c, log, from))
  {
    NothingCopied(target, Restrict(source.blobs, keys), keys);
  }

  lemma NothingCopied(target: Store<Bytes>, blobs: map<Key, Bytes>, keys: seq<Key>)
    requires Covers(blobs, keys)
    ensures CopiedSoFar(target, StartOf(target), blobs, keys, 0) && ReadBack(target, StartOf(target), blobs, keys, 0)
  {
    assert Copied(target.Data(), blobs, keys[..0]) == target.Data();
  }

  /** The control key is bookkeeping only if it holds a control document. */
  method CheckControlKey(source: Source, codec: Codec, listing: seq<Key>) returns (reason: Option<Reason>)
    modifies source
    ensures CONTROL_KEY in listing && CONTROL_KEY in source.blobs && source.faults(old(source.tick)) == Fine ==>
      reason == if codec.parse(source.blobs[CONTROL_KEY]).Some? then None else Some(ControlKeyHoldsData)
    ensures reason.None? || reason == Some(SourceUnreadable) || reason == Some(ControlKeyHoldsData)
    ensures old(source.tick) <= source.tick && (CONTROL_KEY !in listing ==> reason.None?)
    ensures old(source.clock) <= source.clock
  {
    if CONTROL_KEY !in listing {
      return None;
    }
    var control := source.Read(CONTROL_KEY);
    if control.ReadRaised? {
      return Some(SourceUnreadable);
    }
    reason := if control.value.Some? && codec.parse(control.value.value).None? then Some(ControlKeyHoldsData) else None;
  }

  /** What a source must be like to be migrated: no secrets, and only a control document under the control key. */
  predicate Migratable(source: Source, codec: Codec) {
    AllClean(source, Manifest(source.listing)) && ControlKeyFree(source, codec)
  }

  /** No user data under the source's control key. */
  predicate ControlKeyFree(source: Source, codec: Codec) {
    CONTROL_KEY in source.blobs ==> codec.parse(source.blobs[CONTROL_KEY]).Some?
  }

  /**
    `_migrate_body`. Success: every source key but the control key was scanned clean and read back
    from the target with the source's content, and no other migration's document landed since the
    lease was acquired. Abort: nothing but a first part of the manifest was written, create-only.
  */
  method MigrateBody(source: Source, target: Store<Bytes>, lease: MigrationLease, before: set<Key>)
    returns (report: Report, ghost trace: Trace)
    requires source.Valid() && lease.Valid() && lease.Proven()
    modifies source, target, lease, lease.control
    ensures lease.Valid() && old(lease.control.log) <= trace.log == lease.control.log
    ensures trace.from == lease.acquiredAt && trace.codec == lease.control.codec
    ensures Reported(source, target, old(StartOf(target)), report, before, trace)
    ensures report.scanned < |Manifest(source.listing)| ==>
      target.landings == old(target.landings) && trace.reached == 0
    // With nobody in the way it gets through the manifest, or to the first key the target holds otherwise.
    ensures (old(Smooth(source, lease)) && target.HarmlessIn(old(target.tick), target.tick)
             && Migratable(source, lease.control.codec)) ==> RanThrough(source, report, trace)
    // User data under the control key is never left behind in silence.
    ensures report.ok && source.FineFrom(old(source.tick)) ==> Migratable(source, lease.control.codec)
    ensures old(lease.Calm()) ==> lease.Calm()
  {
    var reason, manifest := ReadManifest(source, lease);
    if reason.Some? {
      ghost var blame := if reason.value.ListingFailed? then Nobody else Named(CONTROL_KEY);
      NothingReported(source, target, reason.value, |manifest|, blame, before, lease.control.codec, lease.control.log,
                      lease.acquiredAt);
      return Aborted(reason.value, |manifest|, 0, Tally(0, 0, 0),
        if reason.value.ListingFailed? then Nobody else Named(CONTROL_KEY), {}),
             Trace(0, [], lease.control.codec, lease.control.log, lease.acquiredAt);
    }
    report, trace := CopyAll(source, target, lease, manifest, before);
  }

  /** The source's listing without the control key, if that key may be left out. */
  method ReadManifest(source: Source, lease: MigrationLease) returns (reason: Option<Reason>, manifest: seq<Key>)
    requires source.Valid() && lease.Valid() && lease.Proven()
    modifies source, lease.control`clock
    ensures lease.Valid() && lease.Proven() && (old(lease.Calm()) ==> lease.Calm())
    ensures reason.None? ==> manifest == Manifest(source.listing)
    ensures reason.Some? ==> reason.value in {ListingFailed, SourceUnreadable, ControlKeyHoldsData}
    ensures old(source.tick) <= source.tick
    // Everything readable, only real data under the control key stands in the way.
    ensures source.FineFrom(old(source.tick)) ==> (reason.None? <==> ControlKeyFree(source, lease.control.codec))
  {
    var began := source.clock;
    var listing := source.List();
    if listing.None? {
      return Some(ListingFailed), [];
    }
    manifest := Manifest(listing.value);
    reason := CheckControlKey(source, lease.control.codec, listing.value);
    lease.Elapse(source.clock - began);
  }

  /**
    What a report and a run say about source and target. Success: the control key was the run's own
    from its first document to the verdict, and every key was scanned clean and read back.
  */
  ghost predicate Reported(source: Source, target: Store<Bytes>, start: Start, report: Report, before: set<Key>,
                           trace: Trace)
    reads target
  {
    var keys := Manifest(source.listing);
    && Covers(source.blobs, keys)
    && Truthful(report, target, start, Restrict(source.blobs, keys), keys, before, trace.reached)
    && Timely(keys, trace)
    && NamesClean(source, report)
    && (report.ok ==> OwnedTo(trace.log, trace.from, |trace.log|) && AllClean(source, keys))
    && (report.ok ==> report.unexpected == before - (set k | k in keys) - {CONTROL_KEY})
  }

  /** A data key is named in clear only if its name was scanned clean, unless the lease was lost before. */
  predicate NamesClean(source: Source, report: Report) {
    match report.abortedKey
    case Named(k) => k == CONTROL_KEY || source.scanKey(k) == Clean || report.reason == Some(LeaseLost)
    case Hashed(_) => report.reason in {Some(SecretInKey), Some(KeyScanFailed)}
    case Nobody => true
  }

  ghost predicate RanThrough(source: Source, report: Report, trace: Trace) {
    var keys := Manifest(source.listing);
    Covers(source.blobs, keys) && Completed(report.reason, Restrict(source.blobs, keys), keys, trace.reached)
  }

  /** The key a report names: every key before it was verified, in the order of the manifest. */
  lemma BlamedAfterVerified(target: Store<Bytes>, start: Start, report: Report, blobs: map<Key, Bytes>, keys: seq<Key>,
                            before: set<Key>, reached: nat, i: nat)
    requires Covers(blobs, keys) && Truthful(report, target, start, blobs, keys, before, reached)
    requires CONTROL_KEY !in keys && forall a, b :: 0 <= a < b < |keys| ==> keys[a] != keys[b]
    requires i < |keys| && report.abortedKey == Named(keys[i])
    ensures report.scanned == |keys| ==> i <= report.verified <= i + 1 && ReadBack(target, start, blobs, keys, i)
    ensures report.scanned < |keys| ==> i == report.scanned
  {
  }

  /** Success, key by key: after the key's create was answered, each value the source holds was read on the target. */
  lemma EveryKeyReadBack(source: Source, target: Store<Bytes>, start: Start, report: Report, before: set<Key>,
                         reached: nat, k: Key)
    requires source.Valid() && k in source.blobs && k != CONTROL_KEY && report.ok
    requires Truthful(report, target, start, Restrict(source.blobs, Manifest(source.listing)),
      Manifest(source.listing), before, reached)
    ensures Verified(target.seen, |start.seen|, k, source.blobs[k])
    ensures report.verified == report.copied + report.alreadyPresent == report.sourceKeyCount
    ensures target.Alone() ==> k in target.Data() && target.Data()[k] == source.blobs[k]
  {
    var keys := Manifest(source.listing);
    var i :| 0 <= i < |keys| && keys[i] == k;
    KeyReadBack(target, start, report, Restrict(source.blobs, keys), keys, before, reached, i);
  }

  lemma KeyReadBack(target: Store<Bytes>, start: Start, report: Report, blobs: map<Key, Bytes>, keys: seq<Key>,
                    before: set<Key>, reached: nat, i: nat)
    requires Covers(blobs, keys) && i < |keys| && report.ok
    requires Truthful(report, target, start, blobs, keys, before, reached)
    ensures Verified(target.seen, |start.seen|, keys[i], blobs[keys[i]])
    ensures report.verified == report.copied + report.alreadyPresent
    ensures target.Alone() ==> keys[i] in target.Data() && target.Data()[keys[i]] == blobs[keys[i]]
  {
    assert keys[..|keys|] == keys;
    CopiedAt(start.data, blobs, keys, keys[i]);
    assert target.Alone() ==> !Diverges(start.data, blobs, keys[i]);
  }

  /**
    Success or abort: what the target held before is as it was, what is new is the source's or, at the
    one key a create failed on, blank, and every verified key holds the source's value.
  */
  lemma ExistingDataUntouched(target: Store<Bytes>, start: Start, report: Report, blobs: map<Key, Bytes>,
                              keys: seq<Key>, before: set<Key>, reached: nat, k: Key)
    requires Covers(blobs, keys) && Truthful(report, target, start, blobs, keys, before, reached)
    requires target.Alone()
    ensures k in start.data ==> k in target.Data() && target.Data()[k] == start.data[k]
    ensures k !in start.data && k in target.Data() ==>
      || (k in keys[..reached] && target.Data()[k] == blobs[k])
      || (reached < |keys| && k == keys[reached] && !MayGoOn(report.reason) && target.blank == Some(target.Data()[k]))
    ensures k in keys[..report.verified] ==> k in target.Data() && target.Data()[k] == blobs[k]
  {
    CopiedAt(start.data, blobs, keys[..reached], k);
    if reached < |keys| {
      CopiedAt(start.data, blobs, keys[..reached], keys[reached]);
    }
    if k in keys[..report.verified] {
      var i :| 0 <= i < report.verified && keys[i] == k;
      assert keys[i] == keys[..reached][i];
      assert !Diverges(start.data, blobs, keys[i]);
    }
  }

  /**
    Resumability: an uninterrupted run from where a run stopped ends as one from the start would have,
    exactly when no create left a name reserved with a value other than the source's.
  */
  lemma RunIsResumable(target: Store<Bytes>, start: Start, report: Report, blobs: map<Key, Bytes>, keys: seq<Key>,
                       before: set<Key>, reached: nat)
    requires Covers(blobs, keys) && Truthful(report, target, start, blobs, keys, before, reached)
    requires target.Alone()
    ensures Uninterrupted(target.Data(), blobs, keys) == Uninterrupted(start.data, blobs, keys) <==>
      (StubLeft(start.data, target.Data(), blobs, keys, reached, target.blank) ==>
         blobs[keys[reached]] == target.blank.value)
    ensures StubLeft(start.data, target.Data(), blobs, keys, reached, target.blank) ==>
      !MayGoOn(report.reason)
      && Uninterrupted(target.Data()[keys[reached] := blobs[keys[reached]]], blobs, keys) ==
           Uninterrupted(start.data, blobs, keys)
  {
    AgreeingAtLeast(start.data, blobs, keys, reached);
    LeftResumable(start.data, target.Data(), blobs, keys, reached, target.blank);
  }

  /** Every run is one step of the reruns that `RerunsConverge` is about. */
  lemma RunIsStep(target: Store<Bytes>, start: Start, report: Report, blobs: map<Key, Bytes>, keys: seq<Key>,
                  before: set<Key>, reached: nat, pending: Option<nat>, blank: Bytes)
    requires Covers(blobs, keys) && Truthful(report, target, start, blobs, keys, before, reached)
    requires target.Alone() && (target.blank.Some? ==> target.blank.value == blank)
    ensures var stub := StubLeft(start.data, target.Data(), blobs, keys, reached, target.blank);
      var pending' := if stub && blobs[keys[reached]] != blank then Some(reached) else pending;
      Step(Progress(start.data, pending), Ran(reached, stub), Progress(target.Data(), pending'), blobs, keys, blank)
  {
    AgreeingAtLeast(start.data, blobs, keys, reached);
  }

  /** A successful run is one uninterrupted run. */
  lemma SuccessIsUninterrupted(target: Store<Bytes>, start: Start, report: Report, blobs: map<Key, Bytes>,
                               keys: seq<Key>, before: set<Key>, reached: nat)
    requires Covers(blobs, keys) && Truthful(report, target, start, blobs, keys, before, reached)
    requires target.Alone() && report.ok
    ensures Uninterrupted(start.data, blobs, keys) == (target.Data(), true)
  {
    var n := Agreeing(start.data, blobs, keys);
    assert n == |keys| by { AgreeingAtLeast(start.data, blobs, keys, reached); }
    assert reached == n;
  }

  /** So is a run that met a real divergence: what it leaves is what any uninterrupted run leaves. */
  lemma DivergenceIsUninterrupted(target: Store<Bytes>, start: Start, report: Report, blobs: map<Key, Bytes>,
                                  keys: seq<Key>, before: set<Key>, reached: nat)
    requires Covers(blobs, keys) && Truthful(report, target, start, blobs, keys, before, reached)
    requires target.Alone() && report.reason.Some? && report.reason.value.Diverged?
    requires report.reason.value.existing != Sha256(blobs[keys[reached]])
    ensures Uninterrupted(start.data, blobs, keys) == (target.Data(), false)
  {
    CopiedAt(start.data, blobs, keys[..reached], keys[reached]);
    assert Diverges(start.data, blobs, keys[reached]);
    AgreeingUnique(start.data, blobs, keys, reached);
  }

  /** What a run does that nothing troubles is what `Uninterrupted` says: the same data, the same verdict. */
  lemma SmoothRunIsUninterrupted(target: Store<Bytes>, start: Start, report: Report, blobs: map<Key, Bytes>,
                                 keys: seq<Key>, before: set<Key>, reached: nat)
    requires Covers(blobs, keys) && Truthful(report, target, start, blobs, keys, before, reached)
    requires target.Alone() && Completed(report.reason, blobs, keys, reached)
    ensures Uninterrupted(start.data, blobs, keys) == (target.Data(), report.ok)
  {
    if report.ok {
      SuccessIsUninterrupted(target, start, report, blobs, keys, before, reached);
    } else {
      DivergenceIsUninterrupted(target, start, report, blobs, keys, before, reached);
    }
  }

  /** When and where a run copied. */
  datatype Run = Run(start: Start, before: set<Key>, trace: Trace)

  /** Migratable, and its control key, if it has one, does not name this run. */
  predicate MigratableBy(source: Source, control: Control) {
    && Migratable(source, control.codec)
    && (CONTROL_KEY in source.blobs ==> control.codec.OwnerOf(Some(source.blobs[CONTROL_KEY])) != Some(control.me))
  }

  /** Read then, the source shows this run's control document, or nothing at all. */
  predicate Aliases(source: Source, at: nat, control: Control) {
    match source.faults(at)
    case Raises => true
    case Vanishes => false
    case Fine =>
      CONTROL_KEY in source.blobs && control.codec.OwnerOf(Some(source.blobs[CONTROL_KEY])) == Some(control.me)
  }

  /** Our own control document, seen through the source, means the two are one store. */
  method ProbeAlias(source: Source, lease: MigrationLease) returns (aliased: bool)
    requires lease.Valid() && lease.Proven()
    modifies source, lease.control`clock
    ensures lease.Valid() && lease.Proven() && old(source.tick) <= source.tick
    ensures old(lease.Calm()) ==> lease.Calm()
    ensures aliased <==> Aliases(source, old(source.tick), lease.control)
  {
    var began := source.clock;
    var alias := source.Read(CONTROL_KEY);
    lease.Elapse(source.clock - began);
    aliased := alias.ReadRaised? || lease.control.codec.OwnerOf(alias.value) == Some(lease.control.me);
  }

  /** What runs between acquiring the lease and releasing it. */
  method MigrateUnderLease(source: Source, target: Store<Bytes>, lease: MigrationLease, before: set<Key>)
    returns (report: Report, ghost trace: Trace)
    requires source.Valid() && lease.Valid() && lease.Proven()
    modifies source, target, lease, lease.control
    ensures lease.Valid() && old(lease.control.log) <= trace.log == lease.control.log
    ensures trace.from == lease.acquiredAt && trace.codec == lease.control.codec
    ensures Reported(source, target, old(StartOf(target)), report, before, trace)
    ensures report.scanned < |Manifest(source.listing)| ==>
      target.landings == old(target.landings) && trace.reached == 0
    // A store is never migrated onto itself.
    ensures Aliases(source, old(source.tick), lease.control) ==>
      report.reason == Some(Aliased) && target.landings == old(target.landings)
    ensures (old(Smooth(source, lease)) && target.HarmlessIn(old(target.tick), target.tick)
             && MigratableBy(source, lease.control)) ==> RanThrough(source, report, trace)
    ensures report.ok && source.FineFrom(old(source.tick)) ==> MigratableBy(source, lease.control)
    ensures old(lease.Calm()) ==> lease.Calm()
  {
    var aliased := ProbeAlias(source, lease);
    if aliased {
      NothingReported(source, target, Aliased, 0, Nobody, before, lease.control.codec, lease.control.log,
                      lease.acquiredAt);
      trace := Trace(0, [], lease.control.codec, lease.control.log, lease.acquiredAt);
      return Aborted(Aliased, 0, 0, Tally(0, 0, 0), Nobody, {}), trace;
    }
    report, trace := MigrateBody(source, target, lease, before);
  }

  lemma NothingReported(source: Source, target: Store<Bytes>, reason: Reason, count: nat, blame: Blame,
                        before: set<Key>, c: Codec, log: seq<Entry>, from: nat)
    requires source.Valid() && !reason.Diverged? && blame in {Nobody, Named(CONTROL_KEY)}
    ensures Reported(source, target, StartOf(target), Aborted(reason, count, 0, Tally(0, 0, 0), blame, {}), before,
      Trace(0, [], c, log, from))
  {
    var keys := Manifest(source.listing);
    NothingCopied(target, Restrict(source.blobs, keys), keys);
  }

  /** Nobody else is at work, nothing fails, and the control key is there to be taken. */
  ghost predicate Clear(source: Source, control: Control)
    reads source, control
  {
    && source.FineFrom(source.tick) && control.CalmFrom(control.tick)
    && forall now: Time :: Available(control.codec, control.reg.value, now)
  }

  /** The lease, the run, and the release whatever happened. */
  method LeaseAndRun(source: Source, target: Store<Bytes>, control: Control, writeId: string, startedAt: Time,
                     before: set<Key>)
    returns (report: Report, ghost trace: Trace)
    requires source.Valid() && control.Valid() && control.Owner() != Some(control.me) && NoneMine(control)
    modifies source, target, control
    ensures old(control.log) <= trace.log <= control.log && trace.codec == control.codec
    ensures report.ok ==>
      |old(control.log)| <= trace.from < |trace.log| && WritesFor(control.codec, trace.log[trace.from], control.me)
    ensures Reported(source, target, old(StartOf(target)), report, before, trace)
    ensures report.scanned < |Manifest(source.listing)| ==>
      target.landings == old(target.landings) && trace.reached == 0
    ensures report.ok && source.FineFrom(old(source.tick)) ==> MigratableBy(source, control)
    ensures old(Clear(source, control)) ==> forall now: Time :: Available(control.codec, control.reg.value, now)
    ensures (old(Clear(source, control)) && target.HarmlessIn(old(target.tick), target.tick)
             && MigratableBy(source, control)) ==> RanThrough(source, report, trace)
  {
    var outcome, checkedAt, lockTick := Acquire(control, writeId, startedAt);
    if outcome.Refused? {
      NothingReported(source, target, LeaseUnavailable, 0, Nobody, before, control.codec, control.log, 0);
      return Aborted(LeaseUnavailable, 0, 0, Tally(0, 0, 0), Nobody, {}), Trace(0, [], control.codec, control.log, 0);
    }
    report, trace := MigrateUnderLease(source, target, outcome.lease, before);
    outcome.lease.Release();
  }

  /** `migrate`: snapshot the target's keys, then run under a lease. */
  method Migrate(source: Source, target: Store<Bytes>, control: Control, writeId: string, startedAt: Time)
    returns (report: Report, ghost run: Run)
    requires source.Valid() && control.Valid() && control.Owner() != Some(control.me) && NoneMine(control)
    modifies source, target, control
    ensures run.start.landings == old(target.landings)
    ensures Reported(source, target, run.start, report, run.before, run.trace)
    // A success: from its first document to the verdict nobody else's landed on the control key.
    ensures run.trace.log <= control.log && run.trace.codec == control.codec
    ensures report.ok ==>
      run.trace.from < |run.trace.log| && WritesFor(control.codec, run.trace.log[run.trace.from], control.me)
    ensures report.scanned < |Manifest(source.listing)| ==>
      target.landings == old(target.landings) && run.trace.reached == 0
    // A readable source is reported as migrated only if it may be: no secret, no user data under the
    // control key, and not the target itself.
    ensures report.ok && source.FineFrom(old(source.tick)) ==> MigratableBy(source, control)
    // However it ends, with nobody else at the control key the next run finds it free.
    ensures old(Clear(source, control)) ==> forall now: Time :: Available(control.codec, control.reg.value, now)
    // Answers to landed writes may get lost on the target: it gets through, or stops at a divergence.
    ensures (old(Clear(source, control)) && target.HarmlessIn(old(target.tick), target.tick)
             && MigratableBy(source, control)) ==> RanThrough(source, report, run.trace)
  {
    var before := target.List();
    ghost var start := StartOf(target);
    if before.None? {
      NothingReported(source, target, ListingFailed, 0, Nobody, {}, control.codec, control.log, 0);
      return Aborted(ListingFailed, 0, 0, Tally(0, 0, 0), Nobody, {}),
             Run(start, {}, Trace(0, [], control.codec, control.log, 0));
    }
    ghost var trace;
    report, trace := LeaseAndRun(source, target, control, writeId, startedAt, before.value);
    run := Run(start, before.value, trace);
  }
}
