/** The in-memory backend: one mutex, so every call is one atomic step of the register of its key. */
module FakeBackend {
  import opened Types
  import Register

  datatype FenceRecord = FenceRecord(owner: Option<Token>, expiry: Time, fence: nat, accepted: nat)

  datatype LockReply = Busy | Locked(lease: Lease)

  datatype WriteReply<+B> = ConnectionError | Replied(result: WriteResult<B>)

  class FakeBackend<B(==, !new)> {
    var store: map<Key, B>
    var locks: map<Key, (Token, Time)>
    var fences: map<Key, FenceRecord>
    var networkFaults: nat
    var timeoutFaults: nat
    var conflictFaults: nat

    constructor ()
      ensures forall k :: At(k) == Register.Fresh()
      ensures locks == map[] && networkFaults == timeoutFaults == conflictFaults == 0
    {
      store, locks, fences := map[], map[], map[];
      networkFaults, timeoutFaults, conflictFaults := 0, 0, 0;
    }

    function FenceOf(k: Key): FenceRecord
      reads this
    {
      if k in fences then fences[k] else FenceRecord(None, 0, 0, 0)
    }

    /** The register of one key, as the three dictionaries spell it. */
    function At(k: Key): Register.Register<B>
      reads this
    {
      var f := FenceOf(k);
      Register.Register(if k in store then Some(store[k]) else None, f.owner, f.expiry, f.fence, f.accepted)
    }

    /** No generation guard in this backend. */
    static function Unnumbered(b: B): Option<nat> {
      None
    }

    function Judged(k: Key, pre: Precondition<B>, body: B, now: Time): Register.Verdict<B>
      reads this
    {
      Register.Judge(Unnumbered, At(k), pre, body, now)
    }

    method Write(k: Key, body: B, pre: Precondition<B>, now: Time) returns (reply: WriteReply<B>)
      modifies this
      ensures forall j :: j != k ==> At(j) == old(At(j))
      ensures locks == old(locks)
      // A pre-send failure touches nothing.
      ensures reply.ConnectionError? <==> old(networkFaults) > 0
      ensures reply.ConnectionError? ==> At(k) == old(At(k))
      // A refusal reports the shared rule's result and changes nothing.
      ensures reply.Replied? && old(Judged(k, pre, body, now)).Refuse? ==>
        At(k) == old(At(k)) && reply.result == old(Judged(k, pre, body, now)).result
      // An injected fault strikes at the commit: one kind lands, the other does not.
      ensures reply.Replied? && old(Judged(k, pre, body, now)).Commit? ==>
        var after := Register.Apply(old(At(k)), old(Judged(k, pre, body, now)).op);
        if old(timeoutFaults) > 0 then At(k) == after && reply.result == Error(TimeoutAfterCommit)
        else if old(conflictFaults) > 0 then At(k) == old(At(k)) && reply.result == Error(ConflictUnknown)
        else At(k) == after && reply.result == Ok(Sha256(body))
      // A call uses up the one fault it reports, and a refused write leaves every fault armed.
      ensures old(networkFaults + timeoutFaults + conflictFaults) - (networkFaults + timeoutFaults + conflictFaults) ==
        if reply.ConnectionError? || reply.result in {Error(TimeoutAfterCommit), Error(ConflictUnknown)} then 1 else 0
    {
      if networkFaults > 0 {
        networkFaults := networkFaults - 1;
        return ConnectionError;
      }
      match pre {
        case CreateOnly =>
          if k in store {
            return Replied(if store[k] == body then Ok(Sha256(body)) else Exists(Sha256(store[k])));
          }
          var lands, result := TakeFault(body);
          if lands {
            store := store[k := body];
            fences := fences[k := FenceOf(k).(accepted := 0)];
          }
          return Replied(result);
        case Overwrite(expected, lease) =>
          var current := if k in store then Some(Sha256(store[k])) else None;
          if !FenceOk(k, lease, now) {
            return Replied(Stale(current, Fence));
          }
          if current != Some(expected) {
            return Replied(Stale(current, Unspecified));
          }
          var lands, result := TakeFault(body);
          if lands {
            store := store[k := body];
            fences := fences[k := FenceOf(k).(accepted := lease.fence)];
          }
          return Replied(result);
      }
    }

    /** `_apply_injected_fault`, reached only once every precondition has passed. */
    method TakeFault(body: B) returns (lands: bool, result: WriteResult<B>)
      modifies this`timeoutFaults, this`conflictFaults
      ensures lands == (old(timeoutFaults) > 0 || old(conflictFaults) == 0)
      ensures result ==
        if old(timeoutFaults) > 0 then Error(TimeoutAfterCommit)
        else if old(conflictFaults) > 0 then Error(ConflictUnknown)
        else Ok(Sha256(body))
      // A fault that fires is used up, and never both kinds at once.
      ensures timeoutFaults == old(timeoutFaults) - if old(timeoutFaults) > 0 then 1 else 0
      ensures conflictFaults ==
        old(conflictFaults) - if old(timeoutFaults) == 0 && old(conflictFaults) > 0 then 1 else 0
    {
      if timeoutFaults > 0 {
        timeoutFaults := timeoutFaults - 1;
        return true, Error(TimeoutAfterCommit);
      }
      if conflictFaults > 0 {
        conflictFaults := conflictFaults - 1;
        return false, Error(ConflictUnknown);
      }
      return true, Ok(Sha256(body));
    }

    predicate FenceOk(k: Key, lease: Lease, now: Time)
      reads this
    {
      var f := FenceOf(k);
      && f.owner == Some(lease.token)
      && now < f.expiry
      && lease.fence == f.fence
      && f.accepted <= lease.fence
    }

    method Lock(k: Key, ttl: nat, token: Token, now: Time) returns (reply: LockReply)
      modifies this
      ensures store == old(store)
      ensures forall j :: j != k ==> At(j) == old(At(j))
      ensures reply.Busy? <==> k in old(locks) && old(locks)[k].1 > now
      ensures reply.Busy? ==> At(k) == old(At(k)) && locks == old(locks)
      ensures reply.Locked? ==>
        && At(k) == Register.Apply(old(At(k)), Register.Acquire(token, now + ttl))
        && reply.lease == Lease(k, token, At(k).fence)
        && Register.Owns(At(k), reply.lease)
        && locks == old(locks)[k := (token, now + ttl)]
    {
      if k in locks && locks[k].1 > now {
        return LockReply.Busy;
      }
      var expiry := now + ttl;
      locks := locks[k := (token, expiry)];
      var f := FenceOf(k);
      var fence := Max(f.fence, f.accepted) + 1;
      fences := fences[k := FenceRecord(Some(token), expiry, fence, f.accepted)];
      reply := Locked(Lease(k, token, fence));
    }

    method Unlock(lease: Lease, now: Time) returns (released: bool)
      modifies this`locks
      ensures released <==>
        && lease.key in old(locks)
        && old(locks)[lease.key].0 == lease.token && old(locks)[lease.key].1 > now
      ensures locks == if released then old(locks) - {lease.key} else old(locks)
      // The fence owner survives the release.
      ensures forall j :: At(j) == old(At(j))
    {
      if lease.key !in locks {
        return false;
      }
      var (token, expiry) := locks[lease.key];
      if token != lease.token || expiry <= now {
        return false;
      }
      locks := locks - {lease.key};
      released := true;
    }

    method Renew(lease: Lease, ttl: nat, now: Time) returns (renewed: bool)
      modifies this
      ensures store == old(store)
      ensures forall j :: j != lease.key ==> At(j) == old(At(j))
      ensures renewed <==>
        && lease.key in old(locks)
        && old(locks)[lease.key].0 == lease.token && old(locks)[lease.key].1 > now
      ensures locks == if renewed then old(locks)[lease.key := (lease.token, now + ttl)] else old(locks)
      ensures At(lease.key) ==
        if renewed && old(At(lease.key)).owner == Some(lease.token)
        then Register.Apply(old(At(lease.key)), Register.Extend(lease.token, now + ttl))
        else old(At(lease.key))
    {
      var k := lease.key;
      if k !in locks {
        return false;
      }
      var (token, expiry) := locks[k];
      if token != lease.token || expiry <= now {
        return false;
      }
      locks := locks[k := (token, now + ttl)];
      if FenceOf(k).owner == Some(token) {
        fences := fences[k := FenceOf(k).(expiry := now + ttl)];
      }
      renewed := true;
    }
  }
}
