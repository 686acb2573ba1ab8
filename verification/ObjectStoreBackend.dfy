/**
  The adapter's retry loops against a bucket that other clients keep changing. Every request comes
  with a turn chosen by an adversary: what the others did first, and how this request ends.
*/
module ObjectStoreBackend {
  import opened Types
  import opened Envelopes
  import opened ObjectStore
  import Register
  import Generations

  const FENCE_RETRY_ATTEMPTS: nat := 50
  const SETTLE_MAX_MS: nat := 5000
  const SETTLE_POLL_MS: nat := 10

  /** A status of its own: anything but the four told apart elsewhere. */
  function OwnCode(code: nat): nat {
    if code in {200, 201, 403, 412} then 500 else code
  }

  /** What a write makes of a PUT that did not end by the server's rules. */
  function FaultOf(fate: Fate): ErrorKind
    requires !fate.Normal?
  {
    match fate
    case PreSendFailure => Network
    case AckLost(_) => TimeoutAfterCommit
    case Refused => Permission
    case Unusual(code, _) => if 500 <= OwnCode(code) < 600 then TimeoutAfterCommit else ConflictUnknown
  }

  datatype Change = Stores(key: Key, raw: Bytes, meta: Option<string>) | Removes(key: Key)

  /** How one request ends. `applied` only matters when the precondition holds. */
  datatype Fate =
    | Normal                            // 200 when the precondition holds, else 412
    | PreSendFailure                    // nothing reached the server
    | AckLost(applied: bool)            // sent, no answer
    | Refused                           // 403, never applied
    | Unusual(code: nat, applied: bool) // any other status

  datatype Turn = Turn(others: seq<Change>, fate: Fate, wall: Time, elapsed: nat)

  datatype GetReply = ReadFailed | NotFound | Found(stored: Stored)

  datatype PutReply = PreSend | NoAck | Status(code: nat)

  /** One PUT of this client that took effect. */
  datatype Landing = Landing(key: Key, header: Header, body: Bytes, before: Option<Stored>, after: Stored)

  datatype Sighting = Sighting(key: Key, stored: Stored)

  /** A PUT answered 412: its condition, and what was current at that instant. */
  datatype Rejection = Rejection(key: Key, cond: Condition, current: Option<Stored>)

  class Bucket {
    var objects: map<Key, Stored>
    var nextEtag: nat
    var tick: nat
    var clock: nat
    const turns: nat -> Turn
    const codec: Codec
    ghost var landings: seq<Landing>
    ghost var seen: seq<Sighting>
    ghost var rejections: seq<Rejection>

    /** ETags are fresh: every stored object carries one issued before. */
    ghost predicate Valid()
      reads this
    {
      forall k :: k in objects ==> objects[k].etag < nextEtag
    }

    /** Nobody else writes before this request, and it is answered as the server's rules say. */
    predicate Quiet(i: nat) {
      turns(i).others == [] && turns(i).fate.Normal?
    }

    ghost predicate QuietFrom(i: nat) {
      forall j :: i <= j ==> Quiet(j)
    }

    /** Some request since then ended otherwise than by the server's rules. */
    ghost predicate FaultySince(i: nat)
      reads this`tick
    {
      exists j :: i <= j < tick && !turns(j).fate.Normal?
    }

    /** An ETag names one version only: if it is still current, nothing changed. */
    twostate predicate EtagsFresh()
      reads this
    {
      && old(nextEtag) <= nextEtag
      && forall k :: k in objects && objects[k].etag < old(nextEtag) ==>
        k in old(objects) && objects[k] == old(objects)[k]
    }

    method Interfere() returns (turn: Turn)
      requires Valid()
      modifies this`objects, this`nextEtag, this`tick, this`clock
      ensures Valid() && EtagsFresh() && turn == turns(old(tick)) && tick == old(tick) + 1 &&
        clock == old(clock) + turn.elapsed
      ensures turn.others == [] ==> objects == old(objects) && nextEtag == old(nextEtag)
    {
      turn := turns(tick);
      for i := 0 to |turn.others|
        invariant Valid() && EtagsFresh() && tick == old(tick) && clock == old(clock)
        invariant i == 0 ==> objects == old(objects) && nextEtag == old(nextEtag)
      {
        match turn.others[i] {
          case Stores(key, raw, meta) =>
            objects := objects[key := Stored(nextEtag, raw, meta)];
            nextEtag := nextEtag + 1;
          case Removes(key) =>
            objects := objects - {key};
        }
      }
      tick, clock := tick + 1, clock + turn.elapsed;
    }

    method Get(key: Key) returns (reply: GetReply)
      requires Valid()
      modifies this`objects, this`nextEtag, this`tick, this`clock, this`seen
      ensures Valid() && EtagsFresh() && clock == old(clock) + turns(old(tick)).elapsed
      ensures reply.Found? ==> key in objects && objects[key] == reply.stored
      ensures reply.NotFound? ==> key !in objects
      ensures reply.ReadFailed? <==> !turns(old(tick)).fate.Normal?
      ensures seen == if reply.Found? then old(seen) + [Sighting(key, reply.stored)] else old(seen)
      ensures tick == old(tick) + 1
      ensures Quiet(old(tick)) ==>
        objects == old(objects) && reply == if key in objects then Found(objects[key]) else NotFound
    {
      var turn := Interfere();
      if turn.fate != Normal {
        return ReadFailed;
      }
      if key !in objects {
        return NotFound;
      }
      seen := seen + [Sighting(key, objects[key])];
      reply := Found(objects[key]);
    }

    /** One conditional PUT. An answered 200 landed; 412, 403 and a pre-send failure did not. */
    method Put(key: Key, h: Header, body: Bytes, cond: Condition) returns (reply: PutReply)
      requires Valid()
      modifies this`objects, this`nextEtag, this`tick, this`clock, this`landings, this`rejections
      ensures Valid() && clock >= old(clock)
      ensures landings == old(landings) || (
        && |landings| == |old(landings)| + 1
        && landings[..|old(landings)|] == old(landings)
        && var l := landings[|old(landings)|];
           && l.key == key && l.header == h && l.body == body && Passes(cond, l.before)
           && l.after == Written(codec, l.after.etag, h, body)
           && (l.before.Some? && l.before.value.etag < old(nextEtag) ==>
                 key in old(objects) && l.before.value == old(objects)[key]))
      ensures reply == PreSend || reply == Status(412) || reply == Status(403) ==> landings == old(landings)
      ensures reply == Status(200) ==> |landings| == |old(landings)| + 1
      ensures reply != Status(201)
      ensures if reply == Status(412) then
          && rejections == old(rejections) + [Rejection(key, cond, Lookup(objects, key))]
          && !Passes(cond, Lookup(objects, key))
        else rejections == old(rejections)
      ensures tick == old(tick) + 1
      ensures match turns(old(tick)).fate
        case Normal => reply == Status(200) || reply == Status(412)
        case PreSendFailure => reply == PreSend
        case AckLost(_) => reply == NoAck
        case Refused => reply == Status(403)
        case Unusual(code, _) => reply == Status(OwnCode(code))
      ensures Quiet(old(tick)) ==>
        reply == Status(if Passes(cond, Lookup(old(objects), key)) then 200 else 412) &&
        (reply == Status(412) ==> objects == old(objects))
    {
      var turn := Interfere();
      var before := Lookup(objects, key);
      var lands := Passes(cond, before) &&
        match turn.fate
        case Normal => true
        case AckLost(applied) => applied
        case Unusual(_, applied) => applied
        case PreSendFailure => false
        case Refused => false;
      if lands {
        var after := Written(codec, nextEtag, h, body);
        objects := objects[key := after];
        nextEtag := nextEtag + 1;
        landings := landings + [Landing(key, h, body, before, after)];
      }
      match turn.fate {
        case Normal =>
          reply := if lands then Status(200) else Status(412);
          rejections := rejections + if lands then [] else [Rejection(key, cond, before)];
        case PreSendFailure => reply := PreSend;
        case AckLost(_) => reply := NoAck;
        case Refused => reply := Status(403);
        case Unusual(code, _) => reply := Status(OwnCode(code));
      }
    }

    method Sleep(ms: nat)
      modifies this`clock
      ensures clock == old(clock) + ms
    {
      clock := clock + ms;
    }
  }

  /** A landing is exactly the call's own register operation on the object it replaced. */
  ghost predicate Faithful(c: Codec, call: Call, l: Landing) {
    var m := Meaning(c, l.before);
    && m.Some?
    && (Register.Inv(m.value) ==>
          && Register.Enabled(Generations.Extract, m.value, OpOf(call))
          && Meaning(c, Some(l.after)) == Some(Register.Apply(m.value, OpOf(call))))
  }

  /** The PUT of a move, landing on the version its GET saw. */
  lemma LandingIsFaithful(c: Codec, call: Call, got: Option<Stored>, now: Time, l: Landing)
    requires c.Lawful() && NextMove(c, call, got, now).Put?
    requires l.before == got
    requires l.after == Written(c, l.after.etag, NextMove(c, call, got, now).header, NextMove(c, call, got, now).body)
    ensures c.Fits(NextMove(c, call, got, now).header) ==> Faithful(c, call, l)
  {
    if c.Fits(NextMove(c, call, got, now).header) && (Meaning(c, got).Some? ==> Register.Inv(Meaning(c, got).value)) {
      PutIsOneOperation(c, call, got, now, l.after.etag);
    }
  }

  /** At this sighting the key held the body: as its logical value, or as a foreign object's raw bytes. */
  predicate Held(c: Codec, s: Sighting, key: Key, body: Bytes) {
    && s.key == key
    && (s.stored.raw == body ||
        var reading := c.Interpret(s.stored.raw, s.stored.meta);
        reading.Envelope? && reading.header.version.Some? && reading.body == body)
  }

  class ObjectStoreBackend {
    const bucket: Bucket
    var locks: map<Key, (Token, Time)>

    constructor (bucket: Bucket)
      ensures this.bucket == bucket && locks == map[]
    {
      this.bucket := bucket;
      locks := map[];
    }

    /** This call's PUTs that landed: at most one, each exactly the call's own operation. */
    twostate predicate LandedAsCall(key: Key, call: Call)
      reads bucket
    {
      var n := |old(bucket.landings)|;
      && (bucket.landings == old(bucket.landings) || (
            && |bucket.landings| == n + 1
            && bucket.landings[..n] == old(bucket.landings)
            && LandedBy(key, call, bucket.landings[n])))
    }

    ghost predicate LandedBy(key: Key, call: Call, l: Landing) {
      && l.key == key
      && (bucket.codec.Fits(l.header) ==> Faithful(bucket.codec, call, l))
    }

    /** What the two write paths promise about their result. */
    twostate predicate Sound(key: Key, call: Call, body: Bytes, new r: WriteResult<Bytes>)
      reads bucket
    {
      && LandedAsCall(key, call)
      && (CommitClassOf(r) == DefinitelyNotCommitted ==> bucket.landings == old(bucket.landings))
      && (r.Ok? ==> r.newVersion == Sha256(body))
      && (r.Ok? && bucket.landings == old(bucket.landings) ==>
            exists i :: |old(bucket.seen)| <= i < |bucket.seen| && Held(bucket.codec, bucket.seen[i], key, body))
    }

    /** At this sighting a create found another value: the logical one, or a foreign object's bytes. */
    predicate ExistsAt(s: Sighting, key: Key, body: Bytes, existing: Version<Bytes>) {
      && s.key == key
      && (existing == Sha256(s.stored.raw) ||
          var m := Meaning(bucket.codec, Some(s.stored));
          m.Some? && Register.Judge(Generations.Extract, m.value, CreateOnly, body, 0) ==
            Register.Refuse(Exists(existing)))
    }

    /** At this sighting the write rule refused the update for this reason. */
    predicate StaleAt(s: Sighting, key: Key, expected: Version<Bytes>, lease: Lease, body: Bytes, now: Time,
                      reason: StaleReason) {
      && s.key == key
      && var m := Meaning(bucket.codec, Some(s.stored));
         && m.Some?
         && match Register.Judge(Generations.Extract, m.value, Overwrite(expected, lease), body, now)
            case Commit(_) => false
            case Refuse(result) => result.Stale? && result.reason == reason
    }

    predicate AllowedAt(s: Sighting, key: Key, expected: Version<Bytes>, lease: Lease, body: Bytes, now: Time) {
      && s.key == key
      && var m := Meaning(bucket.codec, Some(s.stored));
         m.Some? && Register.Judge(Generations.Extract, m.value, Overwrite(expected, lease), body, now).Commit?
    }

    /** This call's PUT was turned away because another version, or none, was current by then. */
    twostate predicate RejectedSince(key: Key, new got: Option<Stored>)
      reads bucket
    {
      && |bucket.rejections| > |old(bucket.rejections)|
      && var x := bucket.rejections[|old(bucket.rejections)|];
         x.key == key && x.current != got
    }

    /** Whatever others do, a create that reports another value saw it during the call. */
    twostate predicate ExistsSeen(key: Key, body: Bytes, new r: WriteResult<Bytes>)
      reads bucket
    {
      r.Exists? ==> exists i ::
        |old(bucket.seen)| <= i < |bucket.seen| && ExistsAt(bucket.seen[i], key, body, r.existing)
    }

    /** The answer of an undisturbed write, on what the object was when it began. */
    predicate Undisturbed(got: Option<Stored>, pre: Precondition<Bytes>, body: Bytes, now: Time,
                          r: WriteResult<Bytes>) {
      var meaning := Meaning(bucket.codec, got);
      if meaning.Some? then
        match Register.Judge(Generations.Extract, meaning.value, pre, body, now)
        case Commit(_) => r == Ok(Sha256(body))
        case Refuse(result) => r == if pre.Overwrite? && got.None? then Stale(None, Unspecified) else result
      else if bucket.codec.Interpret(got.value.raw, got.value.meta).Corrupt? then r == Error(Corruption)
      // a foreign object: an update has nothing to compare, a create compares the raw bytes
      else if pre.Overwrite? then r == Error(ConflictUnknown)
      else r == if got.value.raw == body then Ok(Sha256(body)) else Exists(Sha256(got.value.raw))
    }

    method WriteCreateOnly(key: Key, body: Bytes) returns (r: WriteResult<Bytes>)
      requires bucket.Valid() && bucket.codec.Lawful()
      modifies bucket
      ensures bucket.Valid() && old(bucket.seen) <= bucket.seen
      ensures Sound(key, CreateCall(body), body, r) && ExistsSeen(key, body, r)
      // A PUT that went wrong is reported as what went wrong; contention alone exhausts it only after all rounds.
      ensures !bucket.turns(old(bucket.tick)).fate.Normal? ==>
        r == Error(FaultOf(bucket.turns(old(bucket.tick)).fate)) && bucket.tick == old(bucket.tick) + 1
      ensures bucket.turns(old(bucket.tick)).fate.Normal? && r == Error(ConflictUnknown) ==>
        || bucket.FaultySince(old(bucket.tick)) || Lookup(bucket.objects, key).None?
        || |bucket.rejections| > |old(bucket.rejections)| + FENCE_RETRY_ATTEMPTS
      ensures bucket.QuietFrom(old(bucket.tick)) ==>
        Undisturbed(Lookup(old(bucket.objects), key), CreateOnly, body, 0, r)
    {
      var reply := bucket.Put(key, NewHeader(body), body, IfNoneMatch);
      if bucket.landings != old(bucket.landings) {
        LandingIsFaithful(bucket.codec, CreateCall(body), None, 0, bucket.landings[|old(bucket.landings)|]);
      }
      match reply {
        case PreSend => r := Error(Network);
        case NoAck => r := Error(TimeoutAfterCommit);
        case Status(code) =>
          if code == 200 || code == 201 {
            r := Ok(Sha256(body));
          } else if code == 412 {
            r := ResolveCreateConflict(key, body);
          } else if code == 403 {
            r := Error(Permission);
          } else if 500 <= code < 600 {
            r := Error(TimeoutAfterCommit);
          } else {
            r := Error(ConflictUnknown);
          }
      }
    }

    /** The conditional PUT of a create that found nothing, or a phantom. */
    method FillIn(key: Key, body: Bytes, got: Option<Stored>) returns (done: Option<WriteResult<Bytes>>)
      requires bucket.Valid() && bucket.codec.Lawful() && NextMove(bucket.codec, CreateCall(body), got, 0).Put?
      requires got.Some? ==> got.value.etag < bucket.nextEtag
      requires got.Some? && Lookup(bucket.objects, key).Some? && bucket.objects[key].etag == got.value.etag ==>
        bucket.objects[key] == got.value
      modifies bucket
      ensures bucket.Valid() && old(bucket.seen) <= bucket.seen
      ensures LandedAsCall(key, CreateCall(body))
      ensures done.None? ==> bucket.landings == old(bucket.landings)
      ensures done.None? ==> |bucket.rejections| == |old(bucket.rejections)| + 1
      ensures done.Some? ==>
        bucket.rejections == old(bucket.rejections) && (done.value.Ok? || bucket.FaultySince(old(bucket.tick)))
      ensures old(bucket.tick) <= bucket.tick
      ensures done.Some? ==> !done.value.Exists?
      ensures done.Some? ==>
        (done.value.Ok? ==> done.value == Ok(Sha256(body)) && bucket.landings != old(bucket.landings))
      ensures done.Some? && CommitClassOf(done.value) == DefinitelyNotCommitted ==>
        bucket.landings == old(bucket.landings)
      ensures bucket.QuietFrom(old(bucket.tick)) && Lookup(old(bucket.objects), key) == got ==>
        done == Some(Ok(Sha256(body)))
    {
      var move := NextMove(bucket.codec, CreateCall(body), got, 0);
      var answer := bucket.Put(key, move.header, move.body, move.cond);
      if bucket.landings != old(bucket.landings) {
        LandingIsFaithful(bucket.codec, CreateCall(body), got, 0, bucket.landings[|old(bucket.landings)|]);
      }
      if answer == PreSend || answer == NoAck {
        return Some(Error(ConflictUnknown));
      }
      if answer.code == 412 {
        return None;
      }
      done := Some(if answer.code == 200 || answer.code == 201 then Ok(Sha256(body)) else Error(ConflictUnknown));
    }

    /** One round of the conflict loop; None asks for another one, and then nothing landed. */
    method CreateRound(key: Key, body: Bytes) returns (done: Option<WriteResult<Bytes>>)
      requires bucket.Valid() && bucket.codec.Lawful()
      modifies bucket
      ensures bucket.Valid() && old(bucket.seen) <= bucket.seen
      ensures done.None? ==> bucket.landings == old(bucket.landings)
      ensures done.None? ==> |bucket.rejections| == |old(bucket.rejections)| + 1
      ensures done == Some(Error(ConflictUnknown)) ==>
        bucket.FaultySince(old(bucket.tick)) || Lookup(bucket.objects, key).None?
      ensures old(bucket.tick) <= bucket.tick
      ensures done.Some? ==> Sound(key, CreateCall(body), body, done.value) && ExistsSeen(key, body, done.value)
      ensures bucket.QuietFrom(old(bucket.tick)) ==>
        done.Some? && Undisturbed(Lookup(old(bucket.objects), key), CreateOnly, body, 0, done.value)
    {
      var reply := bucket.Get(key);
      if reply.ReadFailed? {
        return Some(Error(ConflictUnknown));
      }
      var got := if reply.Found? then Some(reply.stored) else None;
      if Meaning(bucket.codec, got).Some? {
        DecisionIsVerdict(bucket.codec, got, CreateOnly, body, 0);
      }
      match NextMove(bucket.codec, CreateCall(body), got, 0) {
        case Answer(result) =>
          if result.Ok? { InterpretIsHonest(bucket.codec, got.value.raw, got.value.meta); }
          assert result.Ok? ==> Held(bucket.codec, bucket.seen[|bucket.seen| - 1], key, body);
          assert result.Exists? ==> ExistsAt(bucket.seen[|bucket.seen| - 1], key, body, result.existing);
          return Some(result);
        case CompareRaw =>
          var again := bucket.Get(key);
          if !again.Found? {
            return Some(Error(ConflictUnknown));
          }
          assert again.stored.raw == body ==> Held(bucket.codec, bucket.seen[|bucket.seen| - 1], key, body);
          assert ExistsAt(bucket.seen[|bucket.seen| - 1], key, body, Sha256(again.stored.raw));
          return Some(if again.stored.raw == body then Ok(Sha256(body)) else Exists(Sha256(again.stored.raw)));
        case Put(_, _, _) =>
          done := FillIn(key, body, got);
        case _ =>
          assert false;
      }
    }

    method ResolveCreateConflict(key: Key, body: Bytes) returns (r: WriteResult<Bytes>)
      requires bucket.Valid() && bucket.codec.Lawful()
      modifies bucket
      ensures bucket.Valid() && old(bucket.seen) <= bucket.seen
      ensures Sound(key, CreateCall(body), body, r) && ExistsSeen(key, body, r)
      // It gives up after a fault, on an object that went away, or after as many rejections as there are rounds.
      ensures r == Error(ConflictUnknown) ==>
        || bucket.FaultySince(old(bucket.tick)) || Lookup(bucket.objects, key).None?
        || |bucket.rejections| >= |old(bucket.rejections)| + FENCE_RETRY_ATTEMPTS
      ensures bucket.QuietFrom(old(bucket.tick)) ==>
        Undisturbed(Lookup(old(bucket.objects), key), CreateOnly, body, 0, r)
    {
      for attempt := 0 to FENCE_RETRY_ATTEMPTS
        invariant bucket.Valid() && bucket.landings == old(bucket.landings)
        invariant old(bucket.seen) <= bucket.seen && old(bucket.tick) <= bucket.tick
        invariant |bucket.rejections| == |old(bucket.rejections)| + attempt
        invariant attempt > 0 ==> !bucket.QuietFrom(old(bucket.tick))
        invariant attempt == 0 ==> bucket.tick == old(bucket.tick) && bucket.objects == old(bucket.objects)
      {
        var done := CreateRound(key, body);
        if done.Some? {
          return done.value;
        }
      }
      r := Error(ConflictUnknown);
    }

    /** The conditional PUT of an update, and what its answer means. */
    method PutUpdate(key: Key, body: Bytes, expected: Version<Bytes>, lease: Lease, got: Option<Stored>, now: Time)
      returns (r: WriteResult<Bytes>)
      requires bucket.Valid() && bucket.codec.Lawful()
      requires NextMove(bucket.codec, UpdateCall(lease, expected, body), got, now).Put?
      requires got.Some? ==> got.value.etag < bucket.nextEtag
      requires got.Some? && Lookup(bucket.objects, key).Some? && bucket.objects[key].etag == got.value.etag ==>
        bucket.objects[key] == got.value
      modifies bucket
      ensures bucket.Valid() && old(bucket.seen) <= bucket.seen
      ensures LandedAsCall(key, UpdateCall(lease, expected, body))
      ensures r.Stale? ==> r.reason == Unspecified && RejectedSince(key, got)
      ensures CommitClassOf(r) == DefinitelyNotCommitted ==> bucket.landings == old(bucket.landings)
      ensures r.Ok? ==> r == Ok(Sha256(body)) && bucket.landings != old(bucket.landings)
      ensures var fate := bucket.turns(old(bucket.tick)).fate;
        if fate.Normal? then r.Ok? || r.Stale? else r == Error(FaultOf(fate))
      ensures bucket.QuietFrom(old(bucket.tick)) && Lookup(old(bucket.objects), key) == got ==> r == Ok(Sha256(body))
    {
      var call := UpdateCall(lease, expected, body);
      var move := NextMove(bucket.codec, call, got, now);
      var answer := bucket.Put(key, move.header, move.body, move.cond);
      if bucket.landings != old(bucket.landings) {
        LandingIsFaithful(bucket.codec, call, got, now, bucket.landings[|old(bucket.landings)|]);
      }
      if answer == PreSend {
        return Error(Network);
      }
      if answer == NoAck {
        return Error(TimeoutAfterCommit);
      }
      if answer.code == 412 {
        var settled, _ := Settle(key, expected);
        return Stale(settled, Unspecified);
      }
      r := if answer.code == 200 || answer.code == 201 then Ok(Sha256(body))
           else if answer.code == 403 then Error(Permission)
           else if 500 <= answer.code < 600 then Error(TimeoutAfterCommit)
           else Error(ConflictUnknown);
    }

    lemma MoveAtSighting(s: Sighting, key: Key, expected: Version<Bytes>, lease: Lease, body: Bytes, now: Time)
      requires s.key == key
      ensures match NextMove(bucket.codec, UpdateCall(lease, expected, body), Some(s.stored), now)
        case Answer(result) => result.Stale? ==> StaleAt(s, key, expected, lease, body, now, result.reason)
        case SettleFence => StaleAt(s, key, expected, lease, body, now, Fence)
        case Put(_, _, _) => AllowedAt(s, key, expected, lease, body, now)
        case _ => false
    {
      if Meaning(bucket.codec, Some(s.stored)).Some? {
        DecisionIsVerdict(bucket.codec, Some(s.stored), Overwrite(expected, lease), body, now);
      }
    }

    method WriteCasUpdate(key: Key, body: Bytes, expected: Version<Bytes>, lease: Lease)
      returns (r: WriteResult<Bytes>, ghost now: Time)
      requires bucket.Valid() && bucket.codec.Lawful()
      modifies bucket
      ensures bucket.Valid() && old(bucket.seen) <= bucket.seen
      ensures Sound(key, UpdateCall(lease, expected, body), body, r)
      // Leases are judged by the clock as it was once the object was read.
      ensures now == bucket.turns(old(bucket.tick) + 1).wall
      // A refusal was the write rule's on the object seen, or the object it allowed was replaced before the PUT.
      ensures r.Stale? && |bucket.seen| > |old(bucket.seen)| ==>
        var s := bucket.seen[|old(bucket.seen)|];
        || StaleAt(s, key, expected, lease, body, now, r.reason)
        || (&& r.reason == Unspecified && AllowedAt(s, key, expected, lease, body, now)
            && RejectedSince(key, Some(s.stored)))
      // An update never succeeds without landing itself.
      ensures r.Ok? ==> bucket.landings != old(bucket.landings)
      // A read that went wrong is all that happened.
      ensures !bucket.turns(old(bucket.tick)).fate.Normal? ==>
        r == Error(Network) && bucket.landings == old(bucket.landings)
      ensures bucket.QuietFrom(old(bucket.tick)) ==>
        Undisturbed(Lookup(old(bucket.objects), key), Overwrite(expected, lease), body, now, r)
    {
      var reply := bucket.Get(key);
      var wall := bucket.turns(bucket.tick).wall;
      now := wall;
      if reply.ReadFailed? {
        return Error(Network), now;
      }
      var got := if reply.Found? then Some(reply.stored) else None;
      if Meaning(bucket.codec, got).Some? {
        DecisionIsVerdict(bucket.codec, got, Overwrite(expected, lease), body, wall);
      }
      if got.Some? {
        MoveAtSighting(Sighting(key, got.value), key, expected, lease, body, wall);
        assert bucket.seen == old(bucket.seen) + [Sighting(key, got.value)];
      }
      match NextMove(bucket.codec, UpdateCall(lease, expected, body), got, wall) {
        case Answer(result) => r := result;
        case SettleFence =>
          var settled, _ := Settle(key, expected);
          r := Stale(settled, Fence);
        case Put(_, _, _) =>
          r := PutUpdate(key, body, expected, lease, got, wall);
        case _ => assert false;
      }
    }

    /** What a settling read concludes. */
    function SettledBy(fate: Fate, got: Option<Stored>, expected: Version<Bytes>): Option<Version<Bytes>> {
      if !fate.Normal? then Some(expected)
      else if got.None? then None
      else match bucket.codec.Interpret(got.value.raw, got.value.meta)
        case Envelope(h, _) => h.version
        case _ => Some(expected)
    }

    /** The owner's lease is in force and its fence not used yet. */
    predicate Pending(got: Option<Stored>, now: Time) {
      && got.Some?
      && var reading := bucket.codec.Interpret(got.value.raw, got.value.meta);
         reading.Envelope? && reading.header.accepted < reading.header.fence && now < reading.header.expiry
    }

    /**
      `_settle_current_hash_after_fence_loss`: the answer is the version of the last object read, or
      the expected one when no read succeeded; the loop ends within one poll of its deadline.
    */
    method Settle(key: Key, expected: Version<Bytes>) returns (settled: Option<Version<Bytes>>, ghost began: nat)
      requires bucket.Valid()
      modifies bucket
      ensures bucket.Valid() && bucket.landings == old(bucket.landings) && old(bucket.seen) <= bucket.seen
      ensures bucket.rejections == old(bucket.rejections)
      ensures old(bucket.tick) < bucket.tick
      // The last read decides; without one, or on an object of no version, the answer is the expected version.
      ensures settled == SettledBy(bucket.turns(bucket.tick - 1).fate, Lookup(bucket.objects, key), expected)
      // As long as the owner's write is awaited and nothing has changed, it polls up to the deadline.
      ensures forall i :: |old(bucket.seen)| <= i < |bucket.seen| - 1 ==>
        Pending(Some(bucket.seen[i].stored), bucket.turns(old(bucket.tick) + i - |old(bucket.seen)| + 1).wall)
      ensures (bucket.turns(bucket.tick - 1).fate.Normal? && settled == Some(expected)
               && Pending(Lookup(bucket.objects, key), bucket.turns(bucket.tick).wall)) ==>
        bucket.clock >= old(bucket.clock) + SETTLE_MAX_MS
      ensures bucket.QuietFrom(old(bucket.tick)) && Meaning(bucket.codec, Lookup(old(bucket.objects), key)).Some? ==>
        settled == VersionOf(Meaning(bucket.codec, Lookup(old(bucket.objects), key)).value.value)
      // The last read began by the deadline, give or take a poll, and only its own time passed since.
      ensures began <= old(bucket.clock) + SETTLE_MAX_MS + SETTLE_POLL_MS
      ensures bucket.clock == began + bucket.turns(bucket.tick - 1).elapsed
    {
      began := bucket.clock;
      var deadline := bucket.clock + SETTLE_MAX_MS;
      settled := Some(expected);
      while true
        invariant bucket.Valid() && bucket.landings == old(bucket.landings)
        invariant old(bucket.seen) <= bucket.seen && old(bucket.tick) <= bucket.tick
        invariant settled == Some(expected) && bucket.rejections == old(bucket.rejections)
        invariant bucket.tick - old(bucket.tick) == |bucket.seen| - |old(bucket.seen)|
        invariant forall i :: |old(bucket.seen)| <= i < |bucket.seen| ==>
          Pending(Some(bucket.seen[i].stored), bucket.turns(old(bucket.tick) + i - |old(bucket.seen)| + 1).wall)
        invariant bucket.QuietFrom(old(bucket.tick)) ==> bucket.objects == old(bucket.objects)
        invariant bucket.clock <= deadline + SETTLE_POLL_MS
        decreases deadline + SETTLE_POLL_MS - bucket.clock
      {
        began := bucket.clock;
        var reply := bucket.Get(key);
        if reply.ReadFailed? {
          return;
        }
        if reply.NotFound? {
          settled := None;
          return;
        }
        var reading := bucket.codec.Interpret(reply.stored.raw, reply.stored.meta);
        if !reading.Envelope? {
          return;
        }
        InterpretIsHonest(bucket.codec, reply.stored.raw, reply.stored.meta);
        settled := reading.header.version;
        var h := reading.header;
        var pending := h.accepted < h.fence && bucket.turns(bucket.tick).wall < h.expiry;
        if settled != Some(expected) || !pending || bucket.clock >= deadline {
          return;
        }
        bucket.Sleep(SETTLE_POLL_MS);
      }
    }

    /** `_advance_durable_fence`; None stands for BackendBusyError. */
    method AdvanceDurableFence(key: Key, token: Token, until: Time) returns (fence: Option<nat>)
      requires bucket.Valid() && bucket.codec.Lawful()
      modifies bucket
      ensures bucket.Valid()
      ensures LandedAsCall(key, LockCall(token, until))
      // A fence is handed out exactly for the header that landed.
      ensures fence.Some? ==>
        && bucket.landings != old(bucket.landings)
        && var h := bucket.landings[|old(bucket.landings)|].header;
           h.fence == fence.value && h.owner == Some(token) && h.expiry == until && h.accepted < h.fence
      // It gives up after a fault, on a foreign or corrupt object, or after all its attempts were overtaken.
      ensures fence.None? ==>
        || bucket.FaultySince(old(bucket.tick)) || Meaning(bucket.codec, Lookup(bucket.objects, key)).None?
        || |bucket.rejections| >= |old(bucket.rejections)| + FENCE_RETRY_ATTEMPTS
      // Undisturbed, only a foreign or corrupt object stands in its way.
      ensures bucket.QuietFrom(old(bucket.tick)) ==>
        (fence.Some? <==> Meaning(bucket.codec, Lookup(old(bucket.objects), key)).Some?)
    {
      for attempt := 0 to FENCE_RETRY_ATTEMPTS
        invariant bucket.Valid() && bucket.landings == old(bucket.landings) && old(bucket.tick) <= bucket.tick
        invariant |bucket.rejections| == |old(bucket.rejections)| + attempt
        invariant attempt > 0 ==> !bucket.QuietFrom(old(bucket.tick))
        invariant attempt == 0 ==> bucket.tick == old(bucket.tick) && bucket.objects == old(bucket.objects)
      {
        var reply := bucket.Get(key);
        if reply.ReadFailed? {
          return None;
        }
        var got := if reply.Found? then Some(reply.stored) else None;
        var move := NextMove(bucket.codec, LockCall(token, until), got, 0);
        if move == GiveUp {
          return None;
        }
        var answer := bucket.Put(key, move.header, move.body, move.cond);
        if bucket.landings != old(bucket.landings) {
          LandingIsFaithful(bucket.codec, LockCall(token, until), got, 0, bucket.landings[|old(bucket.landings)|]);
        }
        if answer == PreSend || answer == NoAck {
          return None;
        }
        if answer.code == 200 || answer.code == 201 {
          return Some(move.header.fence);
        }
        if answer.code != 412 {
          return None;
        }
      }
      fence := None;
    }

    /** The object names this token as the owner. */
    predicate Owned(got: Option<Stored>, token: Token) {
      Meaning(bucket.codec, got).Some? && Meaning(bucket.codec, got).value.owner == Some(token)
    }

    /** `_renew_durable_fence`: true only once the extension is confirmed landed. */
    method RenewDurableFence(key: Key, token: Token, until: Time) returns (renewed: bool)
      requires bucket.Valid() && bucket.codec.Lawful()
      modifies bucket
      ensures bucket.Valid()
      ensures LandedAsCall(key, RenewCall(token, until))
      ensures renewed ==>
        && bucket.landings != old(bucket.landings)
        && var h := bucket.landings[|old(bucket.landings)|].header;
           h.owner == Some(token) && h.expiry == until
      // It gives up after a fault, when another owns the key, or after all its attempts were overtaken.
      ensures !renewed ==>
        || bucket.FaultySince(old(bucket.tick)) || !Owned(Lookup(bucket.objects, key), token)
        || |bucket.rejections| >= |old(bucket.rejections)| + FENCE_RETRY_ATTEMPTS
      ensures bucket.QuietFrom(old(bucket.tick)) ==> (renewed <==> Owned(Lookup(old(bucket.objects), key), token))
    {
      for attempt := 0 to FENCE_RETRY_ATTEMPTS
        invariant bucket.Valid() && bucket.landings == old(bucket.landings) && old(bucket.tick) <= bucket.tick
        invariant |bucket.rejections| == |old(bucket.rejections)| + attempt
        invariant attempt > 0 ==> !bucket.QuietFrom(old(bucket.tick))
        invariant attempt == 0 ==> bucket.tick == old(bucket.tick) && bucket.objects == old(bucket.objects)
      {
        var reply := bucket.Get(key);
        if reply.ReadFailed? {
          return false;
        }
        var got := if reply.Found? then Some(reply.stored) else None;
        var move := NextMove(bucket.codec, RenewCall(token, until), got, 0);
        if move == GiveUp {
          return false;
        }
        var answer := bucket.Put(key, move.header, move.body, move.cond);
        if bucket.landings != old(bucket.landings) {
          LandingIsFaithful(bucket.codec, RenewCall(token, until), got, 0, bucket.landings[|old(bucket.landings)|]);
        }
        if answer == PreSend || answer == NoAck {
          return false;
        }
        if answer.code == 200 || answer.code == 201 {
          return true;
        }
        if answer.code != 412 {
          return false;
        }
      }
      renewed := false;
    }

    /** The registry entry of a key that is in force. */
    predicate InForce(key: Key, now: Time)
      reads this`locks
    {
      key in locks && locks[key].1 > now
    }

    method Lock(key: Key, ttl: nat, token: Token, now: Time) returns (lease: Option<Lease>)
      requires bucket.Valid() && bucket.codec.Lawful()
      modifies this, bucket
      ensures bucket.Valid()
      // Undisturbed, it is granted unless this process holds the key or the object is foreign or corrupt.
      ensures bucket.QuietFrom(old(bucket.tick)) ==>
        (lease.Some? <==> !old(InForce(key, now)) && Meaning(bucket.codec, Lookup(old(bucket.objects), key)).Some?)
      ensures LandedAsCall(key, LockCall(token, now + ttl))
      ensures key in old(locks) && old(locks)[key].1 > now ==> lease.None? && bucket.landings == old(bucket.landings)
      ensures locks == if lease.Some? then old(locks)[key := (token, now + ttl)] else old(locks)
      ensures lease.Some? ==>
        && bucket.landings != old(bucket.landings)
        && lease == Some(Lease(key, token, bucket.landings[|old(bucket.landings)|].header.fence))
    {
      if key in locks && locks[key].1 > now {
        return None;
      }
      var fence := AdvanceDurableFence(key, token, now + ttl);
      if fence.None? {
        return None;
      }
      locks := locks[key := (token, now + ttl)];
      lease := Some(Lease(key, token, fence.value));
    }

    method Unlock(lease: Lease, now: Time) returns (released: bool)
      modifies this
      ensures released <==>
        && lease.key in old(locks)
        && old(locks)[lease.key].0 == lease.token && old(locks)[lease.key].1 > now
      ensures locks == if released then old(locks) - {lease.key} else old(locks)
    {
      if lease.key !in locks {
        return false;
      }
      var (token, expiry) := locks[lease.key];
      if token != lease.token || expiry <= now {
        return false;
      }
      locks := locks - {lease.key};
      released := true;
    }

    /** The durable half decides: without it the in-memory entry stays as it was. */
    method Renew(lease: Lease, ttl: nat, now: Time) returns (renewed: bool)
      requires bucket.Valid() && bucket.codec.Lawful()
      modifies this, bucket
      ensures bucket.Valid()
      // Undisturbed, it is extended exactly for the holder of both halves.
      ensures bucket.QuietFrom(old(bucket.tick)) ==>
        (renewed <==>
           && old(InForce(lease.key, now)) && old(locks)[lease.key].0 == lease.token
           && Owned(Lookup(old(bucket.objects), lease.key), lease.token))
      ensures LandedAsCall(lease.key, RenewCall(lease.token, now + ttl))
      ensures locks == if renewed then old(locks)[lease.key := (lease.token, now + ttl)] else old(locks)
      ensures renewed ==> bucket.landings != old(bucket.landings)
      ensures renewed ==>
        && lease.key in old(locks)
        && old(locks)[lease.key].0 == lease.token && old(locks)[lease.key].1 > now
    {
      if lease.key !in locks {
        return false;
      }
      var (token, expiry) := locks[lease.key];
      if token != lease.token || expiry <= now {
        return false;
      }
      var durable := RenewDurableFence(lease.key, token, now + ttl);
      if !durable {
        return false;
      }
      locks := locks[lease.key := (token, now + ttl)];
      renewed := true;
    }
  }
}
