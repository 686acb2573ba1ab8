/**
  A store as its callers meet it: one register per key, changed between any two of the caller's
  requests by others, and answering each request as an adversary chooses within the backends'
  contract. Two ghost lists record what this caller's requests did and what they saw.
*/
module Store {
  import opened Types
  import opened Register

  /**
    What others do to a key: an operation, or a write that was answered with an error, by whomever and
    however long ago, becoming visible only now.
  */
  datatype Move<+B> = Move(key: Key, op: Op<B>) | Late(key: Key, body: B)

  /**
    What a request that fails has done all the same: nothing, all of it, or, for a create, the name
    alone, which then holds the backend's blank value.
  */
  datatype Effect = InVain | InFull | InName

  /** How a request ends. The effect matters only when the register enables the operation. */
  datatype Fate =
    | Normal
    | Refused                                 // turned down without a reason in this key
    | Broken(kind: ErrorKind, effect: Effect) // an ERROR result
    | Thrown(effect: Effect)                  // an exception

  /** A backend reports its own idea of the current version and of why a write was stale. */
  datatype Turn<+B> = Turn(
    others: seq<Move<B>>, fate: Fate, wall: Time, elapsed: nat, reported: Option<Version<B>>, reason: StaleReason)

  /** One operation of this caller that took effect. */
  datatype Landing<+B> = Landing(key: Key, op: Op<B>, before: Register<B>)

  /** What this caller learned, in order: what a read returned, and whether a write was answered as stored. */
  datatype Sighting<+B> = Saw(key: Key, value: Option<B>) | Answered(key: Key, stored: Option<B>)

  datatype Reply<+B> = Raised | Replied(result: WriteResult<B>)

  /** LockBusy is BackendBusyError: another writer is inside its critical section. */
  datatype LockReply = LockBusy | LockRaised | Locked(lease: Lease)

  datatype ReadReply<+B> = ReadRaised | Got(value: Option<B>)

  function OpFor<B>(pre: Precondition<B>, body: B): Op<B> {
    match pre
    case CreateOnly => Create(body)
    case Overwrite(expected, lease) => Update(lease, expected, body)
  }

  class Store<B(==, !new)> {
    var regs: map<Key, Register<B>>
    var tick: nat
    var clock: nat
    const gen: B -> Option<nat>
    const turns: nat -> Turn<B>
    const private: Key -> bool  // keys no other client touches
    const blank: Option<B>      // what a name holds that was reserved and never filled; None if that cannot be
    ghost var landings: seq<Landing<B>>
    ghost var seen: seq<Sighting<B>>
    ghost var doubtful: set<Key>  // where a write of this caller may yet become visible
    ghost var lost: set<nat>      // the requests that landed a write and whose answer was lost

    function At(k: Key): Register<B>
      reads this`regs
    {
      if k in regs then regs[k] else Fresh()
    }

    function Value(k: Key): Option<B>
      reads this`regs
    {
      At(k).value
    }

    /** Nobody else acts before this request, and it is answered by the write rule alone. */
    predicate Quiet(i: nat) {
      turns(i).others == [] && turns(i).fate.Normal?
    }

    ghost predicate QuietFrom(i: nat) {
      forall j :: i <= j ==> Quiet(j)
    }

    /** Between these requests nobody else acted, and nothing went wrong but that answers to landed writes were lost. */
    ghost predicate HarmlessIn(i: nat, j: nat)
      reads this`lost
    {
      forall m :: i <= m < j ==> turns(m).others == [] && (turns(m).fate.Normal? || m in lost)
    }

    /** From here on no others, no faults, no numbered bodies, and less than this time between any two readings. */
    ghost predicate CalmFrom(i: nat, span: nat) {
      && (forall j :: i <= j ==> Quiet(j))
      && (forall j, k :: i <= j && i <= k ==> turns(j).wall < turns(k).wall + span)
      && (forall b :: gen(b).None?)
    }

    /** What the other clients can have done: anything enabled, away from the private keys. */
    twostate predicate Interfered()
      reads this
    {
      && (forall k :: private(k) ==> At(k) == old(At(k)))
      && (forall k :: old(Value(k)).Some? ==> Value(k).Some?)
      && old(clock) <= clock
    }

    /** Every landing of the last call: none, or this one operation on the state its key was in. */
    twostate predicate LandedAtMost(k: Key, op: Op<B>)
      reads this
    {
      landings == old(landings) || Landed(k, op)
    }

    twostate predicate Landed(k: Key, op: Op<B>)
      reads this
    {
      && |landings| == |old(landings)| + 1
      && landings[..|old(landings)|] == old(landings)
      && var l := landings[|old(landings)|];
         && l.key == k && l.op == op
         && Enabled(gen, l.before, op) && At(k) == Apply(l.before, op)
         && (private(k) ==> l.before == old(At(k)))
         && (old(Value(k)).Some? ==> l.before.value.Some?)
    }

    /** Keys the call did not address changed only through others. */
    twostate predicate InterferedBut(k: Key)
      reads this
    {
      && (forall j :: private(j) && j != k ==> At(j) == old(At(j)))
      && (forall j :: old(Value(j)).Some? ==> Value(j).Some?)
      && old(clock) <= clock
    }

    /** A private key nothing of the last call landed on is as it was. */
    twostate predicate Kept(k: Key)
      reads this
    {
      landings == old(landings) && private(k) ==> At(k) == old(At(k))
    }

    /** A create took the name and no more. */
    twostate predicate Reserved(k: Key)
      reads this
    {
      && landings == old(landings) && blank.Some?
      && (private(k) ==> old(Value(k)).None? && At(k) == old(At(k)).(value := blank))
    }

    method Interfere() returns (turn: Turn<B>)
      modifies this`regs, this`tick, this`clock
      ensures Interfered() && turn == turns(old(tick)) && tick == old(tick) + 1
      ensures turn.others == [] ==> regs == old(regs)
    {
      turn := turns(tick);
      for i := 0 to |turn.others|
        invariant Interfered() && tick == old(tick) && clock == old(clock)
        invariant i == 0 ==> regs == old(regs)
      {
        var move := turn.others[i];
        if !private(move.key) {
          if move.Late? {
            regs := regs[move.key := At(move.key).(value := Some(move.body))];
          } else if Enabled(gen, At(move.key), move.op) {
            regs := regs[move.key := Apply(At(move.key), move.op)];
          }
        }
      }
      tick, clock := tick + 1, clock + turn.elapsed;
    }

    method Read(k: Key) returns (reply: ReadReply<B>)
      modifies this
      ensures Interfered() && landings == old(landings) && doubtful == old(doubtful)
      ensures reply.Got? ==> reply.value == Value(k)
      ensures seen == if reply.Got? then old(seen) + [Saw(k, reply.value)] else old(seen)
      ensures tick == old(tick) + 1 && lost == old(lost) - {old(tick)}
      ensures reply.Got? <==> turns(old(tick)).fate.Normal?
      ensures Quiet(old(tick)) ==> reply == Got(old(Value(k))) && regs == old(regs)
    {
      var turn := Interfere();
      lost := lost - {tick - 1};
      if turn.fate != Normal {
        return ReadRaised;
      }
      seen := seen + [Saw(k, Value(k))];
      reply := Got(Value(k));
    }

    /** Nobody else writes anything. */
    ghost predicate Alone() {
      forall k :: private(k)
    }

    /** What `list` and `read` show of the store when nobody else interferes. */
    function Data(): map<Key, B>
      reads this`regs
    {
      map k | k in regs && regs[k].value.Some? :: regs[k].value.value
    }

    /** `list("")`; None stands for an exception. */
    method List() returns (keys: Option<set<Key>>)
      modifies this
      ensures Interfered() && landings == old(landings) && seen == old(seen) && doubtful == old(doubtful)
      ensures keys.Some? ==> keys.value == Data().Keys
      ensures tick == old(tick) + 1 && (Quiet(old(tick)) ==> keys.Some? && regs == old(regs))
      ensures lost == old(lost) - {old(tick)}
    {
      var turn := Interfere();
      lost := lost - {tick - 1};
      keys := if turn.fate.Normal? then Some(Data().Keys) else None;
    }

    method Lock(k: Key, token: Token, ttl: nat) returns (reply: LockReply)
      modifies this
      ensures InterferedBut(k) && Kept(k) && seen == old(seen) && doubtful == old(doubtful)
      ensures landings == old(landings) || exists until :: Landed(k, Acquire(token, until))
      ensures reply.Locked? ==> reply.lease == Lease(k, token, At(k).fence) && At(k).owner == Some(token)
      ensures tick == old(tick) + 1 && lost == old(lost) - {old(tick)}
      ensures Quiet(old(tick)) ==>
        reply.Locked? && At(k) == Apply(old(At(k)), Acquire(token, turns(old(tick)).wall + ttl))
    {
      var turn := Interfere();
      lost := lost - {tick - 1};
      if turn.fate.Normal? || turn.fate == Thrown(InFull) {
        var op := Acquire(token, turn.wall + ttl);
        landings := landings + [Landing(k, op, At(k))];
        regs := regs[k := Apply(At(k), op)];
        assert Landed(k, op);
      }
      reply := match turn.fate
        case Normal => Locked(Lease(k, token, At(k).fence))
        case Thrown(_) => LockRaised
        case _ => LockBusy;
    }

    /**
      One call of the write door. OK means the body is there, and that an update landed; STALE and
      EXISTS mean nothing of this call landed; an ERROR or an exception leaves it open whether it
      landed, whether it lands after the call, and whether a create left a blank value.
    */
    method Persist(k: Key, pre: Precondition<B>, body: B) returns (reply: Reply<B>)
      modifies this
      ensures InterferedBut(k) && LandedAtMost(k, OpFor(pre, body))
      ensures Kept(k) || (Reserved(k) && pre.CreateOnly? && (reply.Raised? || reply.result.Error?))
      ensures doubtful == old(doubtful) + if reply.Raised? || reply.result.Error? then {k} else {}
      ensures reply.Replied? && reply.result.Ok? ==>
        && reply.result == Ok(Sha256(body)) && Value(k) == Some(body)
        && (pre.CreateOnly? || landings != old(landings))
      ensures reply.Replied? && (reply.result.Stale? || reply.result.Exists?) ==> landings == old(landings)
      ensures reply.Replied? && reply.result.Stale? ==> pre.Overwrite?
      ensures reply.Replied? && reply.result.Exists? ==>
        pre.CreateOnly? && VersionOf(Value(k)) == Some(reply.result.existing)
      ensures seen == old(seen) + [Answered(k, if reply.Replied? && reply.result.Ok? then Some(body) else None)]
      ensures tick == old(tick) + 1
      ensures Quiet(old(tick)) && landings == old(landings) ==> regs == old(regs)
      // An answer is lost to an exception or a timeout; the write may have landed all the same.
      ensures reply.Raised? || reply == Replied(Error(TimeoutAfterCommit)) <==> AnswerLost(turns(old(tick)).fate)
      ensures reply.Raised? <==> turns(old(tick)).fate.Thrown?
      ensures turns(old(tick)).fate.Broken? ==> reply == Replied(Error(turns(old(tick)).fate.kind))
      ensures lost == old(lost) - {old(tick)} +
        if landings != old(landings) && AnswerLost(turns(old(tick)).fate) then {old(tick)} else {}
      ensures pre.CreateOnly? && old(Value(k)).None? ==>
        turns(old(tick)).others == [] && Lands(turns(old(tick)).fate) ==> landings != old(landings)
      ensures Quiet(old(tick)) ==>
        match Judge(gen, old(At(k)), pre, body, turns(old(tick)).wall)
        case Commit(_) => reply == Replied(Ok(Sha256(body)))
        case Refuse(result) =>
          if pre.CreateOnly? then reply == Replied(result)
          else reply.Replied? && reply.result.Stale? && reply.result.reason == result.reason
    {
      var turn := Interfere();
      var verdict, lands := TryWrite(k, pre, body, turn);
      lost := lost - {tick - 1} + if lands && AnswerLost(turn.fate) then {tick - 1} else {};
      reply := Answer(turn, lands, pre, body, Value(k), JudgedReason(verdict));
      seen := seen + [Answered(k, if reply.Replied? && reply.result.Ok? then Some(body) else None)];
      doubtful := doubtful + if reply.Raised? || reply.result.Error? then {k} else {};
    }

    twostate predicate Blanked(k: Key, pre: Precondition<B>, fate: Fate)
      reads this
    {
      && pre.CreateOnly? && (fate.Broken? || fate.Thrown?)
      && old(Value(k)).None? && blank.Some? && At(k) == old(At(k)).(value := blank)
    }

    /** The write rule on the state there is, and its operation unless the fate prevents it. */
    method TryWrite(k: Key, pre: Precondition<B>, body: B, turn: Turn<B>) returns (verdict: Verdict<B>, lands: bool)
      modifies this`regs, this`landings
      ensures verdict == Judge(gen, old(At(k)), pre, body, turn.wall) && lands == (verdict.Commit? && Lands(turn.fate))
      ensures forall j :: j != k ==> At(j) == old(At(j))
      ensures lands ==> Landed(k, OpFor(pre, body)) && Value(k) == Some(body)
      ensures lands ==> landings[|old(landings)|].before == old(At(k))
      ensures !lands ==> landings == old(landings) && (regs == old(regs) || Blanked(k, pre, turn.fate))
    {
      verdict := Judge(gen, At(k), pre, body, turn.wall);
      lands := verdict.Commit? && Lands(turn.fate);
      if lands {
        JudgeCommits(gen, At(k), pre, body, turn.wall);
        landings := landings + [Landing(k, OpFor(pre, body), At(k))];
        regs := regs[k := Apply(At(k), OpFor(pre, body))];
      } else if verdict.Commit? && pre.CreateOnly? && Reserves(turn.fate) && blank.Some? {
        regs := regs[k := At(k).(value := blank)];
      }
    }

    method Sleep(ms: nat)
      modifies this`clock
      ensures clock == old(clock) + ms
    {
      clock := clock + ms;
    }

    static predicate Lands(fate: Fate) {
      match fate
      case Normal => true
      case Refused => false
      case Broken(_, effect) => effect.InFull?
      case Thrown(effect) => effect.InFull?
    }

    /** The caller cannot tell from the answer whether the write was done. */
    static predicate AnswerLost(fate: Fate) {
      match fate
      case Broken(kind, _) => kind == TimeoutAfterCommit
      case Thrown(_) => true
      case _ => false
    }

    static predicate Reserves(fate: Fate) {
      match fate
      case Broken(_, effect) => effect.InName?
      case Thrown(effect) => effect.InName?
      case _ => false
    }

    static function JudgedReason(verdict: Verdict<B>): StaleReason {
      if verdict.Refuse? && verdict.result.Stale? then verdict.result.reason else Unspecified
    }

    static function Answer(turn: Turn<B>, landed: bool, pre: Precondition<B>, body: B, value: Option<B>,
                           judged: StaleReason)
      : Reply<B>
    {
      match turn.fate
      case Thrown(_) => Raised
      case Broken(kind, _) => Replied(Error(kind))
      case _ =>
        if landed then Replied(Ok(Sha256(body)))
        else if pre.Overwrite? then Replied(Stale(turn.reported, if turn.fate.Normal? then judged else turn.reason))
        else if value.None? then Replied(Error(ConflictUnknown))
        else if value == Some(body) && turn.fate.Normal? then Replied(Ok(Sha256(body)))
        else Replied(Exists(Sha256(value.value)))
    }
  }
}
