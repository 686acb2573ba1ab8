/**
  Settling after a lost fence on the local backend, while other threads and other instances keep
  committing between any two reads. cas.lock lets one commit at a time run from its publish to the
  moment it records its fence; the settling caller holds no lock.
*/
module LocalSettle {
  import opened Types
  import opened LocalStore

  const SETTLE_MAX_MS: nat := 5000
  const SETTLE_POLL_MS: nat := 10

  datatype Publication = Publication(body: Bytes, fence: nat)

  /** One key at one instant; `published` is its history of data files. */
  datatype State = State(
    owner: Option<Owner>,
    accepted: nat,             // this instance's cache
    unrecorded: Option<nat>,   // the fence of a commit that has published but not recorded yet
    published: seq<Publication>)
  {
    function Data(): Option<Bytes> {
      if published == [] then None else Some(published[|published| - 1].body)
    }

    ghost predicate Valid() {
      && (unrecorded.Some? ==> published != [] && published[|published| - 1].fence == unrecorded.value)
      && (accepted > 0 ==> exists j :: 0 <= j < |published| && published[j].fence == accepted)
    }
  }

  datatype Move =
    | Publishes(p: Publication)           // a commit of this instance replaces the data file
    | Records                             // and then records the fence it consumed
    | PublishesElsewhere(p: Publication)  // a commit of another instance; our cache does not learn of it
    | Reassigns(owner: Owner)             // lock() or renew() rewrites the owner file

  function Moved(s: State, m: Move): State {
    match m
    case Publishes(p) =>
      if s.unrecorded.Some? then s else s.(published := s.published + [p], unrecorded := Some(p.fence))
    case Records =>
      if s.unrecorded.None? then s else s.(accepted := s.unrecorded.value, unrecorded := None)
    case PublishesElsewhere(p) =>
      if s.unrecorded.Some? then s else s.(published := s.published + [p])
    case Reassigns(owner) => s.(owner := Some(owner))
  }

  lemma MovedKeepsValid(s: State, m: Move)
    requires s.Valid()
    ensures Moved(s, m).Valid()
    ensures s.published <= Moved(s, m).published
  {
    var s' := Moved(s, m);
    if s'.accepted > 0 {
      var j := if s'.accepted == s.accepted then
        (var j :| 0 <= j < |s.published| && s.published[j].fence == s.accepted; j) else |s.published| - 1;
      assert s'.published[j].fence == s'.accepted;
    }
  }

  datatype Turn = Turn(moves: seq<Move>, elapsed: nat, wall: Time, unreadable: bool)

  /** What the last round of a settle saw. */
  datatype Round = Round(
    owner: Option<Owner>, accepted: nat, wall: Time, readable: bool, published: seq<Publication>, at: nat)
  {
    /** The owner's lease was in force and its fence not used yet. */
    predicate Pending() {
      owner.Some? && accepted < owner.value.fence && wall < owner.value.expiry
    }

    /** The owner's fence was observed as used up by a committed write. */
    predicate Consumed() {
      owner.Some? && owner.value.fence <= accepted
    }
  }

  class Scene {
    var state: State
    var clock: nat
    var tick: nat
    const turns: nat -> Turn

    /** Whatever the others do before the next read. */
    method Interlude() returns (turn: Turn)
      requires state.Valid()
      modifies this
      ensures state.Valid() && clock >= old(clock) && old(state).published <= state.published
    {
      turn := turns(tick);
      for i := 0 to |turn.moves|
        invariant state.Valid() && clock == old(clock) && old(state).published <= state.published
      {
        MovedKeepsValid(state, turn.moves[i]);
        state := Moved(state, turn.moves[i]);
      }
      tick, clock := tick + 1, clock + turn.elapsed;
    }

    /**
      `_settle_current_hash_after_fence_loss`. A settle that observed the owner's fence as consumed,
      and could read the data file, returns the version published last at that read, and the commit
      that consumed the fence had already published by then.
    */
    method Settle(expected: Version<Bytes>)
      returns (settled: Option<Version<Bytes>>, ghost last: Round, ghost rounds: seq<Round>)
      requires state.Valid()
      modifies this
      ensures last.readable ==> settled == VersionOf(State(None, 0, None, last.published).Data())
      ensures last.Consumed() && last.accepted > 0 && last.readable ==>
        exists j :: 0 <= j < |last.published| && last.published[j].fence == last.accepted
          && last.owner.value.fence <= last.published[j].fence
          && settled == Some(Sha256(last.published[|last.published| - 1].body))
      ensures !last.readable ==> settled == Some(expected)
      // As long as the owner's write is awaited and nothing has changed, it polls up to the deadline.
      ensures settled == Some(expected) && last.Pending() ==> last.at >= old(clock) + SETTLE_MAX_MS
      ensures old(state).published <= last.published <= state.published
      ensures 0 < |rounds| <= SETTLE_MAX_MS / SETTLE_POLL_MS + 1 && last == rounds[|rounds| - 1]
      ensures forall i :: 0 <= i < |rounds| - 1 ==> rounds[i].Pending()
    {
      var start := clock;
      var deadline := start + SETTLE_MAX_MS;
      settled := Some(expected);
      rounds := [];
      while true
        invariant state.Valid() && settled == Some(expected) && old(state).published <= state.published
        invariant start + |rounds| * SETTLE_POLL_MS <= clock
        invariant |rounds| <= SETTLE_MAX_MS / SETTLE_POLL_MS
        invariant forall i :: 0 <= i < |rounds| ==> rounds[i].Pending()
        decreases SETTLE_MAX_MS / SETTLE_POLL_MS + 1 - |rounds|
      {
        // fence state first
        var _ := Interlude();
        var owner := state.owner;
        var turn := Interlude();
        var accepted := state.accepted;
        assert accepted > 0 ==> exists j :: 0 <= j < |state.published| && state.published[j].fence == accepted;
        ghost var seen := state.published;
        ghost var wall := turn.wall;
        var pending := owner.Some? && accepted < owner.value.fence && turn.wall < owner.value.expiry;
        // published version second
        turn := Interlude();
        assert forall j :: 0 <= j < |seen| ==> state.published[j] == seen[j];
        if !turn.unreadable {
          settled := VersionOf(state.Data());
        }
        last := Round(owner, accepted, wall, !turn.unreadable, state.published, clock);
        rounds := rounds + [last];
        if settled != Some(expected) || !pending || clock >= deadline {
          return;
        }
        clock := clock + SETTLE_POLL_MS;
      }
    }
  }

  /**
    Why the order of the two reads matters: with the version read first, one commit in between makes
    the fence look consumed while the version in hand is the one from before the race.
  */
  lemma VersionFirstIsStale(before: Publication, race: Publication, owner: Owner)
    requires owner.fence == race.fence && before.body != race.body
    ensures exists s: State, moves: seq<Move> ::
      && s.Valid() && s.owner == Some(owner) && |moves| == 2
      && var s' := Moved(Moved(s, moves[0]), moves[1]);
         && s.Data() == Some(before.body)           // version read
         && s'.owner.value.fence <= s'.accepted     // then the fence: consumed
         && s'.Data() == Some(race.body)
  {
    var s := State(Some(owner), 0, None, [before]);
    var moves := [Publishes(race), Records];
    var s' := Moved(Moved(s, moves[0]), moves[1]);
    assert s.Valid() && s.Data() == Some(before.body) && s'.Data() == Some(race.body);
  }
}
