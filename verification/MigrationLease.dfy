/**
  The migration mutex: a control document created once, taken over only when expired or released,
  and rewritten by its holder against the version the holder wrote last. Other runs, and anything
  else that writes the control key, may act between any two requests.
*/
module MigrationLease {
  import opened Types
  import opened Register
  import opened Store

  // Milliseconds, as every time here.
  const TTL: nat := 120_000
  const HEARTBEAT_INTERVAL: nat := TTL / 3

  const FENCE_REACQUIRE_ATTEMPTS: nat := 3
  const CONTROL_KEY: Key := "knokeep-migration-control/lease"

  datatype Status = Held | Released

  datatype LeaseDoc = LeaseDoc(
    owner: string,
    writeId: string,
    startedAt: Time,
    status: Status,
    expiresAt: Option<Time>,
    heartbeatAt: Option<Time>,
    priorOwner: Option<string>,
    tookOverFrom: Option<string>,
    releasedAt: Option<Time>)

  /** The JSON text of a control document, and the schema check that recognises one. */
  datatype Codec = Codec(encode: LeaseDoc -> Bytes, parse: Bytes -> Option<LeaseDoc>)
  {
    ghost predicate Lawful() {
      forall d :: parse(encode(d)) == Some(d)
    }

    /** Whose control document this is, if it is one. */
    function OwnerOf(value: Option<Bytes>): Option<string> {
      if value.None? || parse(value.value).None? then None else Some(parse(value.value).value.owner)
    }

    /** A document that refuses every newcomer. */
    predicate Live(value: Option<Bytes>, now: Time) {
      && value.Some? && parse(value.value).Some?
      && var d := parse(value.value).value;
         d.status.Held? && (if d.expiresAt.Some? then d.expiresAt.value else 0) > now
    }
  }

  /** One operation on the control key's register, in the order they took effect. */
  datatype Entry = Entry(op: Op<Bytes>, before: Register<Bytes>, after: Register<Bytes>, mine: bool)

  predicate Writes(e: Entry) {
    e.op.Create? || e.op.Update?
  }

  ghost predicate Chained(gen: Bytes -> Option<nat>, log: seq<Entry>) {
    && (forall i :: 0 <= i < |log| ==>
          Enabled(gen, log[i].before, log[i].op) && log[i].after == Apply(log[i].before, log[i].op))
    && (forall i :: 0 <= i < |log| - 1 ==> log[i].after == log[i + 1].before)
  }

  // The mutual exclusion argument, on any log of any number of runs

  ghost predicate WritesFor(c: Codec, e: Entry, owner: string) {
    Writes(e) && c.OwnerOf(e.after.value) == Some(owner)
  }

  /** After its first write a run replaces only documents of its own. */
  ghost predicate Disciplined(c: Codec, log: seq<Entry>, owner: string, first: nat) {
    forall i :: first < i < |log| && WritesFor(c, log[i], owner) ==> c.OwnerOf(log[i].before.value) == Some(owner)
  }

  /** If the current document is the run's own, every write since the run's first was its own. */
  lemma {:induction false} Unbroken(c: Codec, gen: Bytes -> Option<nat>, log: seq<Entry>, owner: string, first: nat)
    requires Chained(gen, log) && Disciplined(c, log, owner, first) && first < |log|
    requires c.OwnerOf(log[|log| - 1].after.value) == Some(owner)
    ensures forall i :: first < i < |log| && Writes(log[i]) ==> WritesFor(c, log[i], owner)
  {
    var n := |log| - 1;
    if first < n {
      assert c.OwnerOf(log[n].before.value) == Some(owner) by {
        if Writes(log[n]) {
          assert WritesFor(c, log[n], owner);
        }
      }
      assert log[n - 1].after == log[n - 1 + 1].before;
      Unbroken(c, gen, log[..n], owner, first);
      forall i | first < i < |log| && Writes(log[i])
        ensures WritesFor(c, log[i], owner)
      {
        if i < n { assert log[..n][i] == log[i]; }
      }
    }
  }

  /**
    Mutual exclusion over any interleaving: once another run's document has landed after a run's
    first, that run never writes the control document again.
  */
  lemma TakenOverForever(c: Codec, gen: Bytes -> Option<nat>, log: seq<Entry>, owner: string, first: nat, m: nat,
                         j: nat)
    requires Chained(gen, log) && first < m < j < |log|
    requires Disciplined(c, log, owner, first)
    requires Writes(log[m]) && !WritesFor(c, log[m], owner)
    ensures !WritesFor(c, log[j], owner)
  {
    if WritesFor(c, log[j], owner) {
      assert c.OwnerOf(log[j].before.value) == Some(owner);
      assert log[j - 1].after == log[j - 1 + 1].before;
      assert Disciplined(c, log[..j], owner, first);
      assert log[..j][m] == log[m];
      Unbroken(c, gen, log[..j], owner, first);
    }
  }

  /** Of two runs that both wrote, the one that wrote first has been shut out for good. */
  lemma OneOfTwoIsShutOut(c: Codec, gen: Bytes -> Option<nat>, log: seq<Entry>, a: string, firstA: nat, b: string,
                          firstB: nat)
    requires Chained(gen, log) && a != b && firstA < firstB < |log|
    requires WritesFor(c, log[firstA], a) && WritesFor(c, log[firstB], b)
    requires Disciplined(c, log, a, firstA) && Disciplined(c, log, b, firstB)
    ensures c.OwnerOf(log[|log| - 1].after.value) != Some(a)
    ensures forall j :: firstB < j < |log| ==> !WritesFor(c, log[j], a)
  {
    forall j | firstB < j < |log|
      ensures !WritesFor(c, log[j], a)
    {
      TakenOverForever(c, gen, log, a, firstA, firstB, j);
    }
    if c.OwnerOf(log[|log| - 1].after.value) == Some(a) {
      Unbroken(c, gen, log, a, firstA);
    }
  }

  /** The control key of the target, and what every run did to it. */
  class Control {
    var reg: Register<Bytes>
    var tick: nat
    var clock: nat
    const me: string
    const codec: Codec
    const gen: Bytes -> Option<nat>
    const turns: nat -> Turn<Bytes>
    const tokens: nat -> Token
    const blank: Option<Bytes>  // what a reserved name holds, as for any store
    ghost var log: seq<Entry>

    constructor (me: string, codec: Codec, gen: Bytes -> Option<nat>, turns: nat -> Turn<Bytes>, tokens: nat -> Token,
                 blank: Option<Bytes>)
      requires codec.Lawful()
      ensures Valid() && reg == Fresh() && tick == 0 && clock == 0 && log == []
      ensures this.me == me && this.codec == codec && this.gen == gen && this.turns == turns && this.tokens == tokens
      ensures this.blank == blank
    {
      this.me, this.codec, this.gen, this.turns, this.tokens, this.blank := me, codec, gen, turns, tokens, blank;
      reg, tick, clock, log := Fresh(), 0, 0, [];
    }

    function Owner(): Option<string>
      reads this
    {
      codec.OwnerOf(reg.value)
    }

    /** A failed create may leave this value, which names no run. */
    predicate Names(value: Option<Bytes>) {
      value.Some? && codec.OwnerOf(value).None?
    }

    /** This run did nothing to the key from this entry on. */
    ghost predicate NoneSince(from: nat)
      reads this
    {
      forall i :: from <= i < |log| ==> !log[i].mine
    }

    /** Owner ids are fresh per run: a document naming this run was written by it. */
    ghost predicate Valid()
      reads this
    {
      && codec.Lawful()
      && Chained(gen, log)
      && (log != [] ==> log[|log| - 1].after == reg)
      && (forall i :: 0 <= i < |log| && Writes(log[i]) ==> log[i].mine == WritesFor(codec, log[i], me))
    }

    /** Nobody else acts before this request, and it is answered by the write rule alone. */
    predicate Silent(i: nat) {
      turns(i).others == [] && turns(i).fate.Normal?
    }

    /** From here on no others, no faults, no numbered bodies, and less than a lease's life between any two readings. */
    ghost predicate CalmFrom(i: nat) {
      && (forall j :: i <= j ==> Silent(j))
      && (forall j, k :: i <= j && i <= k ==> turns(j).wall < turns(k).wall + TTL)
      && (forall b :: gen(b).None?)
    }

    /** Others may have acted; this run's own document can only have stayed. */
    twostate predicate Quiet()
      reads this
    {
      && old(log) <= log && old(clock) <= clock
      && (forall i :: |old(log)| <= i < |log| ==> !log[i].mine)
      && (Owner() == Some(me) ==> reg.value == old(reg.value))
      && (log == old(log) ==> reg == old(reg))
    }

    twostate predicate Landed(op: Op<Bytes>)
      reads this
    {
      && |old(log)| < |log| && old(log) <= log && old(clock) <= clock
      && (forall i :: |old(log)| <= i < |log| - 1 ==> !log[i].mine)
      && log[|log| - 1].mine && log[|log| - 1].op == op
    }

    method Land(op: Op<Bytes>, mine: bool)
      requires Valid() && Enabled(gen, reg, op)
      requires Writes(Entry(op, reg, Apply(reg, op), mine)) ==>
        mine == (codec.OwnerOf(Apply(reg, op).value) == Some(me))
      modifies this`reg, this`log
      ensures Valid() && reg == Apply(old(reg), op)
      ensures log == old(log) + [Entry(op, old(reg), reg, mine)]
    {
      log := log + [Entry(op, reg, Apply(reg, op), mine)];
      reg := Apply(reg, op);
    }

    method Interfere() returns (turn: Turn<Bytes>)
      requires Valid()
      modifies this
      ensures Valid() && Quiet()
      ensures turn == turns(old(tick)) && tick == old(tick) + 1
      ensures turn.others == [] ==> reg == old(reg)
    {
      turn := turns(tick);
      for i := 0 to |turn.others|
        invariant Valid() && Quiet() && clock == old(clock) && tick == old(tick)
        invariant i == 0 ==> reg == old(reg)
      {
        if turn.others[i].Move? && Enabled(gen, reg, turn.others[i].op) {
          var op := turn.others[i].op;
          var after := Apply(reg, op);
          if op.Acquire? || op.Extend? || codec.OwnerOf(after.value) != Some(me) {
            Land(op, false);
          }
        }
      }
      tick, clock := tick + 1, clock + turn.elapsed;
    }

    method Wall() returns (now: Time)
      modifies this`tick
      ensures now == turns(old(tick)).wall && tick == old(tick) + 1
    {
      now := turns(tick).wall;
      tick := tick + 1;
    }

    method Read() returns (reply: ReadReply<Bytes>)
      requires Valid()
      modifies this
      ensures Valid() && Quiet()
      ensures reply.Got? ==> reply.value == reg.value
      ensures tick == old(tick) + 1 && (Silent(old(tick)) ==> reply.Got? && reg == old(reg))
    {
      var turn := Interfere();
      reply := if turn.fate.Normal? then Got(reg.value) else ReadRaised;
    }

    method Lock() returns (lease: Option<Lease>)
      requires Valid()
      modifies this
      ensures Valid() && old(log) <= log
      ensures old(clock) <= clock
      ensures forall i :: |old(log)| <= i < |log| ==> !(log[i].mine && Writes(log[i]))
      ensures Owner() == Some(me) ==> reg.value == old(reg.value)
      ensures tick == old(tick) + 1
      ensures lease.Some? <==> turns(old(tick)).fate.Normal?
      ensures NoneSince(|old(log)|) <==> !Allocates(turns(old(tick)).fate)
      ensures turns(old(tick)).others == [] && Allocates(turns(old(tick)).fate) ==>
        reg == Apply(old(reg), Op.Acquire(tokens(old(tick)), turns(old(tick)).wall + TTL))
      ensures Silent(old(tick)) ==>
        && lease.Some? && Owns(reg, lease.value) && reg.value == old(reg.value)
        && reg.expiry == turns(old(tick)).wall + TTL
    {
      var token := tokens(tick);
      var turn := Interfere();
      if Allocates(turn.fate) {
        Land(Op.Acquire(token, turn.wall + TTL), true);
        assert log[|log| - 1].mine;
      }
      lease := if turn.fate.Normal? then Some(Lease(CONTROL_KEY, token, reg.fence)) else None;
    }

    /** None stands for an exception. */
    method Renew(lease: Lease) returns (renewed: Option<bool>)
      requires Valid()
      modifies this
      ensures Valid() && old(log) <= log && old(clock) <= clock
      ensures forall i :: |old(log)| <= i < |log| ==> !(log[i].mine && Writes(log[i]))
      ensures Owner() == Some(me) ==> reg.value == old(reg.value)
      ensures tick == old(tick) + 1 && (Silent(old(tick)) ==> renewed.Some? && reg.value == old(reg.value))
      ensures turns(old(tick)).fate.Thrown? <==> renewed.None?
      ensures var op := Extend(lease.token, turns(old(tick)).wall + TTL);
        Silent(old(tick)) && Enabled(gen, old(reg), op) ==> reg == Apply(old(reg), op)
    {
      var turn := Interfere();
      var op := Extend(lease.token, turn.wall + TTL);
      var lands := Enabled(gen, reg, op) && Allocates(turn.fate);
      if lands {
        Land(op, true);
      }
      renewed := if turn.fate.Thrown? then None else Some(lands);
    }

    method Persist(pre: Precondition<Bytes>, body: Bytes) returns (reply: Reply<Bytes>)
      requires Valid() && codec.OwnerOf(Some(body)) == Some(me)
      modifies this
      ensures Valid()
      ensures Quiet() || Landed(OpFor(pre, body))
      ensures reply.Replied? && reply.result.Ok? ==>
        && reply.result == Ok(Sha256(body)) && reg.value == Some(body)
        && (Landed(OpFor(pre, body)) || (pre.CreateOnly? && old(Owner()) == Some(me)))
      ensures reply.Replied? && (reply.result.Stale? || reply.result.Exists?) ==> Quiet()
      ensures tick == old(tick) + 1
      ensures Silent(old(tick)) ==>
        match Judge(gen, old(reg), pre, body, turns(old(tick)).wall)
        case Commit(_) => reply == Replied(Ok(Sha256(body)))
        case Refuse(result) =>
          && reg == old(reg)
          && (result.Stale? ==> reply.Replied? && reply.result.Stale? && reply.result.reason == result.reason)
    {
      var turn := Interfere();
      var verdict := Judge(gen, reg, pre, body, turn.wall);
      var lands := verdict.Commit? && Store<Bytes>.Lands(turn.fate);
      if lands {
        JudgeCommits(gen, reg, pre, body, turn.wall);
        Land(OpFor(pre, body), true);
      } else if verdict.Commit? && pre.CreateOnly? && Store<Bytes>.Reserves(turn.fate) && Names(blank) {
        Land(Op.Create(blank.value), false);
      }
      reply := Store<Bytes>.Answer(turn, lands, pre, body, reg.value, Store<Bytes>.JudgedReason(verdict));
    }
  }

  /** Whether an enabled lock or renew request takes effect: when it is granted, and when it raises only after that. */
  predicate Allocates(fate: Fate) {
    fate.Normal? || fate == Thrown(InFull)
  }

  /** A request nobody came before, which takes effect and raises all the same. */
  predicate LostAnswer(turn: Turn<Bytes>) {
    turn.others == [] && turn.fate == Thrown(InFull)
  }

  /** Every document from this entry up to that one was this run's own. */
  ghost predicate OwnedTo(log: seq<Entry>, from: nat, to: nat) {
    to <= |log| && forall i :: from <= i < to && Writes(log[i]) ==> log[i].mine
  }

  /** A document that was written with this clock reading, the request it came from, at this moment. */
  datatype Proof = Proof(doc: Bytes, wall: Time, reading: nat, at: nat)

  /** The reading is what the clock showed. */
  predicate ReadOff(turns: nat -> Turn<Bytes>, proof: Proof) {
    turns(proof.reading).wall == proof.wall
  }

  /** The document is what the key held at that point of the log, and it holds the key until its time is up. */
  ghost predicate Proves(c: Codec, log: seq<Entry>, to: nat, proof: Proof) {
    && 0 < to <= |log| && log[to - 1].after.value == Some(proof.doc)
    && c.parse(proof.doc).Some?
    && c.parse(proof.doc).value.status.Held? && c.parse(proof.doc).value.expiresAt == Some(proof.wall + TTL)
  }

  /** Until somebody writes, the key holds the document. */
  lemma {:induction false} ProofStays(c: Codec, gen: Bytes -> Option<nat>, log: seq<Entry>, to: nat, proof: Proof,
                                      m: nat)
    requires Chained(gen, log) && Proves(c, log, to, proof) && to <= m < |log|
    requires forall i :: to <= i < m ==> !Writes(log[i])
    ensures log[m].before.value == Some(proof.doc)
    decreases m - to
  {
    assert log[m - 1].after == log[m - 1 + 1].before;
    if to < m {
      ProofStays(c, gen, log, to, proof, m - 1);
      assert log[m - 1].after == Apply(log[m - 1].before, log[m - 1].op) && !Writes(log[m - 1]);
    }
  }

  /**
    Whoever next replaces a document that proved ownership, having found it free to take, looked at it
    no earlier than its time was up.
  */
  lemma TakeoverWaits(c: Codec, gen: Bytes -> Option<nat>, log: seq<Entry>, to: nat, proof: Proof, m: nat,
                      checkedAt: Time)
    requires Chained(gen, log) && Proves(c, log, to, proof) && to <= m < |log|
    requires forall i :: to <= i < m ==> !Writes(log[i])
    requires Available(c, log[m].before.value, checkedAt)
    ensures checkedAt >= proof.wall + TTL
  {
    ProofStays(c, gen, log, to, proof, m);
    ProofHoldsTheKey(c, log, to, proof, checkedAt);
  }

  /** Whoever reads such a document before its time is up finds the key taken. */
  lemma ProofHoldsTheKey(c: Codec, log: seq<Entry>, to: nat, proof: Proof, now: Time)
    requires Proves(c, log, to, proof)
    ensures Available(c, Some(proof.doc), now) <==> now >= proof.wall + TTL
  {
  }

  datatype Loss =
    | RenewRaised
    | WriteRaised
    | WriteFailed(kind: ErrorKind)
    | Moved
    | RereadRaised
    | NotReacquired
    | Exhausted

  datatype Refusal = Unreadable | RealData | LiveHolder | LockRefused | NotRecorded | NotConfirmed

  datatype Outcome = Refused(why: Refusal) | Acquired(lease: MigrationLease)

  class MigrationLease {
    const control: Control
    const doc: LeaseDoc  // what stays the same in every document this run writes
    var lock: Lease
    var docHash: Version<Bytes>
    var lastHeartbeat: nat
    ghost const acquiredAt: nat
    ghost var provenLog: nat  // how much had happened to the key when ownership was last proven
    ghost var proof: Proof    // the document that proved it

    ghost predicate Valid()
      reads this, control
    {
      && control.Valid()
      && acquiredAt < |control.log| && WritesFor(control.codec, control.log[acquiredAt], control.me)
      && Disciplined(control.codec, control.log, control.me, acquiredAt)
      && control.codec.OwnerOf(Some(docHash.body)) == Some(control.me)
    }

    /** No other run's document, and no other value, landed since this run acquired the lease. */
    ghost predicate Undisturbed()
      reads control
    {
      forall i :: acquiredAt <= i < |control.log| && Writes(control.log[i]) ==> control.log[i].mine
    }

    /** Ownership was proven at the last heartbeat: up to there every document since the first was this run's. */
    ghost predicate Proven()
      reads this, control
    {
      && lastHeartbeat <= control.clock && OwnedTo(control.log, acquiredAt, provenLog)
      && Proves(control.codec, control.log, provenLog, proof) && proof.at <= lastHeartbeat
      && ReadOff(control.turns, proof)
    }

    /** This run wrote nothing to the control document since. */
    twostate predicate WroteNothing()
      reads control
    {
      && old(control.log) <= control.log
      && (forall i :: |old(control.log)| <= i < |control.log| ==> !(control.log[i].mine && Writes(control.log[i])))
    }

    /** The control document is still the one this run last wrote. */
    predicate Current()
      reads this, control
    {
      VersionOf(control.reg.value) == Some(docHash)
    }

    /** Nobody else is at work, and the document is this run's. */
    ghost predicate Calm()
      reads this, control
    {
      control.CalmFrom(control.tick) && Current()
    }

    lemma HoldingMeansUndisturbed()
      requires Valid() && control.Owner() == Some(control.me)
      ensures Undisturbed()
    {
      Unbroken(control.codec, control.gen, control.log, control.me, acquiredAt);
    }

    constructor (control: Control, lock: Lease, docHash: Version<Bytes>, doc: LeaseDoc, ghost proof: Proof)
      requires control.Valid() && control.log != []
      requires Proves(control.codec, control.log, |control.log|, proof) && proof.at <= control.clock
      requires ReadOff(control.turns, proof)
      requires WritesFor(control.codec, control.log[|control.log| - 1], control.me)
      requires control.reg.value == Some(docHash.body)
      ensures this.control == control && acquiredAt == |control.log| - 1
      ensures this.lock == lock && this.docHash == docHash && this.doc == doc
      ensures Valid() && Undisturbed() && Proven()
    {
      this.control, this.lock, this.docHash, this.doc := control, lock, docHash, doc;
      lastHeartbeat := control.clock;
      acquiredAt := |control.log| - 1;
      provenLog := |control.log|;
      this.proof := proof;
    }

    function Body(status: Status, now: Time, releasedAt: Option<Time>): Bytes
      reads this, control
    {
      control.codec.encode(doc.(owner := control.me, status := status, expiresAt := Some(now + TTL),
                                heartbeatAt := Some(now), releasedAt := releasedAt))
    }

    /** `verify_ownership`: it passes only if no other run's document landed since this run acquired the lease. */
    method VerifyOwnership() returns (loss: Option<Loss>)
      requires Valid()
      modifies control
      ensures Valid() && WroteNothing()
      ensures loss.None? ==> Undisturbed() && control.reg.value == Some(docHash.body)
      ensures control.tick == old(control.tick) + 1
      ensures old(control.clock) <= control.clock
      ensures control.Silent(old(control.tick)) ==>
        control.reg == old(control.reg) && (loss.None? <==> old(Current()))
    {
      var reply := control.Read();
      if reply.ReadRaised? {
        return Some(RereadRaised);
      }
      if VersionOf(reply.value) != Some(docHash) {
        return Some(Moved);
      }
      HoldingMeansUndisturbed();
      loss := None;
    }

    /** What every write of the document leaves alone. */
    twostate predicate OnlyWrites()
      reads this, control
    {
      && old(control.log) <= control.log && old(control.tick) <= control.tick && old(control.clock) <= control.clock
      && lastHeartbeat == old(lastHeartbeat) && provenLog == old(provenLog) && proof == old(proof)
    }

    /** This write is in the log and current: the document was stamped by this reading. */
    twostate predicate Stamped(status: Status, releasedAt: Option<Time>, new stamp: Proof)
      reads this, control
    {
      && control.log != [] && control.log[|control.log| - 1].after.value == Some(stamp.doc) == Some(docHash.body)
      && |old(control.log)| < |control.log|
      && control.log[|control.log| - 1].mine && control.log[|control.log| - 1].op.Update?
      && control.codec.parse(stamp.doc) ==
           Some(doc.(owner := control.me, status := status, expiresAt := Some(stamp.wall + TTL),
                     heartbeatAt := Some(stamp.wall), releasedAt := releasedAt))
      && (status.Held? ==> Proves(control.codec, control.log, |control.log|, stamp))
      && old(control.clock) <= stamp.at <= control.clock && ReadOff(control.turns, stamp)
    }

    /**
      `_write_doc`. Success means the document was this run's own up to the moment it was replaced;
      a run that was taken over changes nothing.
    */
    method WriteDoc(status: Status, releasedAt: Option<Time>) returns (loss: Option<Loss>, ghost stamp: Proof)
      requires Valid()
      modifies this, control
      ensures Valid() && OnlyWrites()
      ensures loss.None? ==>
        Undisturbed() && control.reg.value == Some(docHash.body) && Stamped(status, releasedAt, stamp)
      ensures old(!Undisturbed()) ==> loss.Some? && WroteNothing()
      ensures loss.Some? ==> docHash == old(docHash)
      // With nobody in the way it succeeds exactly while the document is this run's, fence or no fence.
      ensures control.CalmFrom(old(control.tick)) ==> (loss.None? <==> old(Current()))
    {
      for attempt := 0 to FENCE_REACQUIRE_ATTEMPTS + 1
        invariant Valid() && WroteNothing() && OnlyWrites() && attempt <= FENCE_REACQUIRE_ATTEMPTS
        invariant docHash == old(docHash)
        invariant control.CalmFrom(old(control.tick)) ==>
          (attempt == 0 && control.reg == old(control.reg)) || (attempt == 1 && old(Current()) && Ready())
      {
        var again;
        loss, again, stamp := WriteOnce(status, releasedAt, attempt == FENCE_REACQUIRE_ATTEMPTS);
        if !again {
          return;
        }
      }
      assert false;
    }

    /** One write, and a fresh fence if it was refused for its fence alone. */
    method WriteOnce(status: Status, releasedAt: Option<Time>, last: bool)
      returns (loss: Option<Loss>, again: bool, ghost stamp: Proof)
      requires Valid()
      modifies this, control
      ensures Valid() && OnlyWrites()
      ensures again ==> !last && WroteNothing() && docHash == old(docHash)
      ensures loss.Some? ==> docHash == old(docHash)
      ensures !again && loss.None? ==>
        Undisturbed() && control.reg.value == Some(docHash.body) && Stamped(status, releasedAt, stamp)
      ensures old(!Undisturbed()) ==> WroteNothing() && (again || loss.Some?)
      ensures control.CalmFrom(old(control.tick)) && !old(Current()) ==> !again && loss.Some?
      ensures control.CalmFrom(old(control.tick)) && old(Ready()) ==> !again && loss.None?
      ensures control.CalmFrom(old(control.tick)) && old(Current()) ==> if again then Ready() else last || loss.None?
    {
      loss, stamp := WriteStamped(status, releasedAt);
      if loss != Some(Exhausted) {
        return loss, false, stamp;
      }
      loss := Reacquire(last);
      again := loss.None?;
    }

    /** A document of this moment, written once. */
    method WriteStamped(status: Status, releasedAt: Option<Time>) returns (loss: Option<Loss>, ghost stamp: Proof)
      requires Valid()
      modifies this`docHash, control
      ensures Valid() && OnlyWrites()
      ensures loss.None? ==>
        Undisturbed() && control.reg.value == Some(docHash.body) && Stamped(status, releasedAt, stamp)
      ensures loss.Some? ==> docHash == old(docHash)
      ensures loss == Some(Exhausted) ==> WroteNothing()
      ensures old(!Undisturbed()) ==> loss.Some? && WroteNothing()
      ensures control.CalmFrom(old(control.tick)) ==>
        && (old(Ready()) ==> loss.None?)
        && (loss.None? ==> old(Current()))
        && (old(Current()) ==> loss.None? || loss == Some(Exhausted))
        && (loss.Some? ==> control.reg == old(control.reg))
    {
      ghost var at := control.clock;
      var now := control.Wall();
      var body := Body(status, now, releasedAt);
      stamp := Proof(body, now, control.tick - 1, at);
      loss := TryWrite(body);
    }

    /** The document is this run's, under the newest lease, which lasts. */
    ghost predicate Ready()
      reads this, control
    {
      Current() && Owns(control.reg, lock) && forall j :: control.tick <= j ==>
        control.turns(j).wall < control.reg.expiry
    }

    /** After a refusal on FENCE: if the document is still this run's, take a fresh fence. */
    method Reacquire(last: bool) returns (loss: Option<Loss>)
      requires Valid()
      modifies this`lock, control
      ensures Valid() && WroteNothing()
      ensures last ==> loss.Some?
      ensures old(control.tick) <= control.tick
      ensures old(control.clock) <= control.clock
      ensures control.CalmFrom(old(control.tick)) && !last ==>
        if old(Current()) then loss.None? && Ready() else loss.Some?
    {
      loss := VerifyOwnership();
      if loss.Some? {
        return;
      }
      if last {
        return Some(Exhausted);
      }
      var again := control.Lock();
      if again.None? {
        return Some(NotReacquired);
      }
      lock := again.value;
    }

    /** One fenced write; Exhausted stands for a refusal on FENCE. */
    method TryWrite(body: Bytes) returns (loss: Option<Loss>)
      requires Valid() && control.codec.OwnerOf(Some(body)) == Some(control.me)
      modifies this`docHash, control
      ensures Valid() && old(control.log) <= control.log
      ensures loss.None? ==> Undisturbed() && docHash == Sha256(body) && control.reg.value == Some(docHash.body)
      ensures loss.None? ==>
        && |old(control.log)| < |control.log| && control.log[|control.log| - 1].after.value == Some(body)
        && control.log[|control.log| - 1].mine && control.log[|control.log| - 1].op.Update?
      ensures loss.Some? ==> docHash == old(docHash)
      ensures loss == Some(Exhausted) ==> WroteNothing()
      ensures old(!Undisturbed()) ==> loss.Some? && WroteNothing()
      ensures control.tick == old(control.tick) + 1
      ensures old(control.clock) <= control.clock
      ensures control.CalmFrom(old(control.tick)) ==>
        && (old(Ready()) ==> loss.None?)
        && (loss.None? ==> old(Current()))
        && (old(Current()) ==> loss.None? || loss == Some(Exhausted))
        && (loss.Some? ==> control.reg == old(control.reg))
    {
      var reply := control.Persist(Overwrite(docHash, lock), body);
      ghost var log := control.log;
      if log != [] && log[|log| - 1].mine && Writes(log[|log| - 1]) && |log| > |old(control.log)| {
        // the version replaced was this run's own
        assert control.codec.OwnerOf(log[|log| - 1].before.value) == Some(control.me);
        HoldingMeansUndisturbed();
      }
      if reply.Raised? {
        return Some(WriteRaised);
      }
      match reply.result {
        case Ok(hash) =>
          docHash := hash;
          return None;
        case Stale(_, reason) =>
          return Some(if reason == Fence then Exhausted else Moved);
        case Exists(_) =>
          return Some(WriteFailed(ConflictUnknown));
        case Error(kind) =>
          return Some(WriteFailed(kind));
      }
    }

    /** `heartbeat_if_due`: after a renewal that was due, ownership has just been proved again. */
    method HeartbeatIfDue() returns (loss: Option<Loss>)
      requires Valid()
      modifies this, control
      ensures Valid() && old(control.log) <= control.log
      ensures loss.None? ==> control.clock - lastHeartbeat < HEARTBEAT_INTERVAL
      ensures loss.None? && old(control.clock - lastHeartbeat) >= HEARTBEAT_INTERVAL ==> Undisturbed()
      ensures old(!Undisturbed()) ==> WroteNothing()
      ensures old(!Undisturbed()) && old(control.clock - lastHeartbeat) >= HEARTBEAT_INTERVAL ==> loss.Some?
      ensures control.CalmFrom(old(control.tick)) ==>
        (loss.None? <==> old(control.clock - lastHeartbeat) < HEARTBEAT_INTERVAL || old(Current()))
      ensures old(Calm()) ==> Calm()
      // A renewal that fails proves nothing; one that was due and succeeds proves ownership up to now.
      ensures old(Proven()) ==> Proven()
      ensures if loss.None? && old(control.clock - lastHeartbeat) >= HEARTBEAT_INTERVAL
        then lastHeartbeat == control.clock && provenLog == |control.log| && proof.at >= old(control.clock)
        else lastHeartbeat == old(lastHeartbeat) && provenLog == old(provenLog) && proof == old(proof)
      ensures loss.Some? ==> lastHeartbeat <= control.clock - HEARTBEAT_INTERVAL
      // The fence is renewed first; if that raises, nothing is written.
      ensures old(control.clock - lastHeartbeat) >= HEARTBEAT_INTERVAL ==>
        control.turns(old(control.tick)).fate.Thrown? ==> loss == Some(RenewRaised) && WroteNothing()
      ensures old(control.clock) <= control.clock
    {
      if control.clock - lastHeartbeat < HEARTBEAT_INTERVAL {
        return None;
      }
      var renewed := control.Renew(lock);
      if renewed.None? {
        return Some(RenewRaised);
      }
      ghost var stamp;
      loss, stamp := WriteDoc(Held, None);
      if loss.None? {
        lastHeartbeat := control.clock;
        provenLog := |control.log|;
        proof := stamp;
      }
    }

    /** Time spent on the source or on the target's data. */
    method Elapse(ms: nat)
      requires Valid()
      modifies control`clock
      ensures Valid() && control.clock == old(control.clock) + ms
      ensures old(Proven()) ==> Proven()
      ensures old(Calm()) ==> Calm()
    {
      control.clock := control.clock + ms;
    }

    /** `release`: best effort, and nothing at all for a run that was taken over. */
    method Release()
      requires Valid()
      modifies this, control
      ensures Valid() && old(control.log) <= control.log
      ensures old(!Undisturbed()) ==> WroteNothing()
      // With nobody in the way the document says so, and the next run need not wait for its time to pass.
      ensures control.CalmFrom(old(control.tick)) && old(Current()) ==>
        && control.codec.OwnerOf(control.reg.value) == Some(control.me)
        && forall later: Time :: Available(control.codec, control.reg.value, later)
    {
      var now := control.Wall();
      var _, _ := WriteDoc(Released, Some(now));
    }
  }

  /** A control key a newcomer may take: absent, or a document that is released or has expired. */
  predicate Available(c: Codec, value: Option<Bytes>, now: Time) {
    value.None? || (c.OwnerOf(value).Some? && !c.Live(value, now))
  }

  /**
    Who keeps a newcomer out: real data always, a holder until the time its document names. An absent or
    released document never does.
  */
  lemma WhoMayTake(c: Codec, value: Option<Bytes>, now: Time)
    ensures value.None? ==> Available(c, value, now)
    ensures value.Some? && c.parse(value.value).None? ==> !Available(c, value, now)
    ensures value.Some? && c.parse(value.value).Some? ==>
      var d := c.parse(value.value).value;
      && (!d.status.Held? ==> Available(c, value, now))
      && (d.status.Held? && d.expiresAt.Some? ==> (Available(c, value, now) <==> d.expiresAt.value <= now))
  {
  }

  /** What a newcomer learns from the control document, without touching it. */
  method Probe(control: Control)
    returns (refusal: Option<Refusal>, prior: Option<Bytes>, priorOwner: Option<string>, tookOverFrom: Option<string>,
             ghost checkedAt: Time)
    requires control.Valid() && control.Owner() != Some(control.me)
    modifies control
    ensures control.Valid() && control.Quiet() && control.Owner() != Some(control.me)
    ensures refusal.Some? ==> refusal.value in {Unreadable, RealData, LiveHolder}
    ensures refusal.None? ==> Available(control.codec, prior, checkedAt)
    ensures checkedAt == 0 || checkedAt == control.turns(old(control.tick) + 1).wall
    ensures prior.Some? && control.codec.parse(prior.value).Some? ==>
      checkedAt == control.turns(old(control.tick) + 1).wall
    ensures old(control.tick) <= control.tick
    ensures refusal.None? ==>
      && priorOwner == control.codec.OwnerOf(prior)
      && tookOverFrom == if prior.Some? && control.codec.parse(prior.value).value.status.Held? then priorOwner else None
    ensures refusal.None? ==> control.tick == old(control.tick) + if prior.None? then 1 else 2
    ensures control.Silent(old(control.tick)) && old(control.reg).value.None? ==>
      refusal.None? && prior.None? && control.reg == old(control.reg)
    ensures control.CalmFrom(old(control.tick)) ==>
      control.reg == old(control.reg) && (refusal.None? ==> prior == control.reg.value) &&
      (refusal.None? <==> Available(control.codec, control.reg.value, control.turns(old(control.tick) + 1).wall))
  {
    refusal, prior, priorOwner, tookOverFrom, checkedAt := None, None, None, None, 0;
    var read := control.Read();
    if read.ReadRaised? {
      refusal := Some(Unreadable);
      return;
    }
    prior := read.value;
    if prior.None? {
      return;
    }
    var doc := control.codec.parse(prior.value);
    if doc.None? {
      refusal := Some(RealData);
      return;
    }
    priorOwner := Some(doc.value.owner);
    var now := control.Wall();
    checkedAt := now;
    if doc.value.status.Held? {
      if control.codec.Live(prior, now) {
        refusal := Some(LiveHolder);
        return;
      }
      tookOverFrom := priorOwner;
    }
  }

  function PreFor(prior: Option<Bytes>, lease: Lease): Precondition<Bytes> {
    if prior.None? then CreateOnly else Overwrite(Sha256(prior.value), lease)
  }

  lemma FreshLeaseCommits(gen: Bytes -> Option<nat>, r: Register<Bytes>, lease: Lease, body: Bytes, now: Time)
    requires Owns(r, lease) && now < r.expiry && forall b :: gen(b).None?
    ensures Judge(gen, r, PreFor(r.value, lease), body, now).Commit?
  {
  }

  /** Nobody is in the way, the key holds what was read, and the fence is the newest and lasts. */
  ghost predicate Writable(control: Control, prior: Option<Bytes>, lock: Lease)
    reads control
  {
    && control.CalmFrom(control.tick) && prior == control.reg.value && Owns(control.reg, lock)
    && forall j :: control.tick <= j ==> control.turns(j).wall < control.reg.expiry
  }

  /** The run's document has just landed, and proves that the key is the run's. */
  ghost predicate OnKey(control: Control, docHash: Version<Bytes>, proof: Proof)
    reads control
  {
    && control.log != [] && WritesFor(control.codec, control.log[|control.log| - 1], control.me)
    && control.reg.value == Some(docHash.body)
    && Proves(control.codec, control.log, |control.log|, proof) && proof.at <= control.clock
    && ReadOff(control.turns, proof)
  }

  /** The first document of a run: created, or in place of the one that was read. */
  method Record(control: Control, prior: Option<Bytes>, doc: LeaseDoc, lock: Lease)
    returns (recorded: Option<Version<Bytes>>, ghost proof: Proof)
    requires control.Valid() && control.Owner() != Some(control.me) && doc.owner == control.me && doc.status.Held?
    modifies control
    ensures control.Valid() && old(control.log) <= control.log && old(control.tick) <= control.tick
    ensures recorded.Some? ==>
      && |control.log| > |old(control.log)| && control.log[|control.log| - 1].before.value == prior
      && OnKey(control, recorded.value, proof)
      && control.codec.parse(proof.doc)
         == Some(doc.(expiresAt := Some(proof.wall + TTL), heartbeatAt := Some(proof.wall)))
    ensures old(Writable(control, prior, lock)) ==> recorded.Some?
  {
    var now := control.Wall();
    var stamped := doc.(expiresAt := Some(now + TTL), heartbeatAt := Some(now));
    var body := control.codec.encode(stamped);
    proof := Proof(body, now, control.tick - 1, control.clock);
    if Owns(control.reg, lock) && control.turns(control.tick).wall < control.reg.expiry &&
      forall b :: control.gen(b).None? {
      FreshLeaseCommits(control.gen, control.reg, lock, body, control.turns(control.tick).wall);
    }
    var reply := control.Persist(PreFor(prior, lock), body);
    recorded := if reply.Raised? || !reply.result.Ok? then None else Some(reply.result.newVersion);
  }

  /** The lease of a run whose document is on the key, and proven. */
  ghost predicate JustTaken(lease: MigrationLease, control: Control)
    reads lease, control, lease.control
  {
    lease.control == control && lease.Valid() && lease.Undisturbed() && lease.Current() && lease.Proven()
  }

  /** Under a fresh fence, creates the document or replaces the prior one, and holds the lease. */
  method Take(control: Control, prior: Option<Bytes>, doc: LeaseDoc, lock: Lease) returns (outcome: Outcome)
    requires control.Valid() && control.Owner() != Some(control.me) && doc.owner == control.me && doc.status.Held?
    modifies control
    ensures control.Valid() && old(control.log) <= control.log && old(control.tick) <= control.tick
    ensures outcome.Acquired? ==>
      && fresh(outcome.lease) && JustTaken(outcome.lease, control)
      && outcome.lease.acquiredAt == |control.log| - 1 >= |old(control.log)| && outcome.lease.doc == doc
      && control.log[|control.log| - 1].before.value == prior
    ensures outcome.Refused? ==> outcome.why == NotRecorded
    ensures old(Writable(control, prior, lock)) ==> outcome.Acquired?
  {
    var recorded, proof := Record(control, prior, doc, lock);
    if recorded.None? {
      return Outcome.Refused(NotRecorded);
    }
    outcome := Hold(control, lock, recorded.value, doc, proof);
  }

  /** The lease of a run whose document has just landed. */
  method Hold(control: Control, lock: Lease, docHash: Version<Bytes>, doc: LeaseDoc, ghost proof: Proof)
    returns (outcome: Outcome)
    requires control.Valid() && OnKey(control, docHash, proof)
    ensures unchanged(control) && control.Valid() && outcome.Acquired?
    ensures fresh(outcome.lease) && JustTaken(outcome.lease, control)
    ensures outcome.lease.acquiredAt == |control.log| - 1 && outcome.lease.doc == doc
  {
    var lease := new MigrationLease(control, lock, docHash, doc, proof);
    outcome := Acquired(lease);
  }

  lemma StillSomeMine(control: Control, log: seq<Entry>, from: nat)
    requires log <= control.log && !(forall i :: from <= i < |log| ==> !log[i].mine)
    ensures !control.NoneSince(from)
  {
    var i :| from <= i < |log| && log[i].mine;
    assert control.log[i].mine;
  }

  /** This run wrote no document from here on. */
  ghost predicate NoneWritten(control: Control, from: nat)
    reads control
  {
    forall i :: from <= i < |control.log| ==> !(control.log[i].mine && Writes(control.log[i]))
  }

  /** This run did nothing at all to the control key. */
  ghost predicate NoneMine(control: Control)
    reads control
  {
    forall i :: 0 <= i < |control.log| ==> !control.log[i].mine
  }

  /** A fenced write of this run's own. */
  predicate Confirmed(e: Entry) {
    e.mine && e.op.Update?
  }

  /** A lease created over nothing is confirmed with a fenced write, or given up. */
  method Confirm(lease: MigrationLease) returns (outcome: Outcome)
    requires lease.Valid() && lease.Undisturbed()
    modifies lease, lease.control
    ensures lease.Valid() && old(lease.control.log) <= lease.control.log
    ensures outcome == Acquired(lease) || outcome == Outcome.Refused(NotConfirmed)
    ensures outcome.Acquired? ==> lease.Undisturbed() && (old(lease.Proven()) ==> lease.Proven())
    ensures outcome.Acquired? ==>
      |old(lease.control.log)| < |lease.control.log| && Confirmed(lease.control.log[|lease.control.log| - 1])
    ensures old(lease.Calm()) ==> outcome.Acquired? && lease.Calm()
  {
    var loss, _ := lease.WriteDoc(Held, None);
    if loss.None? {
      return Acquired(lease);
    }
    lease.Release();
    outcome := Outcome.Refused(NotConfirmed);
  }

  lemma NoneAfterNone(control: Control, log: seq<Entry>)
    requires log <= control.log && forall i :: 0 <= i < |log| ==> !log[i].mine
    ensures NoneMine(control) <==> control.NoneSince(|log|)
    ensures NoneWritten(control, 0) <==> NoneWritten(control, |log|)
  {
    forall i | 0 <= i < |log|
      ensures !control.log[i].mine
    {
      assert control.log[i] == log[i];
    }
  }

  /**
    A lease that is held: the first document, which replaced exactly what was read, was this run's, and if
    it replaced nothing it was confirmed by a fenced write. Nobody else's landed since.
  */
  ghost predicate Opened(lease: MigrationLease, control: Control, from: nat, prior: Option<Bytes>, doc: LeaseDoc)
    reads lease, control, lease.control
  {
    && lease.control == control && lease.Valid() && lease.Undisturbed() && lease.Proven()
    && from <= lease.acquiredAt < |control.log| && control.log[lease.acquiredAt].before.value == prior
    && lease.doc == doc
    && (prior.None? ==> lease.acquiredAt < |control.log| - 1 && Confirmed(control.log[|control.log| - 1]))
  }

  lemma OpenedSince(lease: MigrationLease, control: Control, from: nat, earlier: nat, prior: Option<Bytes>,
                    doc: LeaseDoc)
    requires Opened(lease, control, from, prior, doc) && earlier <= from
    ensures Opened(lease, control, earlier, prior, doc)
  {
  }

  /** The first document under a fresh fence, and its confirmation if it was created over nothing. */
  method TakeUnder(control: Control, prior: Option<Bytes>, doc: LeaseDoc, lock: Lease) returns (outcome: Outcome)
    requires control.Valid() && control.Owner() != Some(control.me) && doc.owner == control.me && doc.status.Held?
    modifies control
    ensures control.Valid() && old(control.log) <= control.log
    ensures outcome.Acquired? ==>
      fresh(outcome.lease) && Opened(outcome.lease, control, |old(control.log)|, prior, doc)
    ensures outcome.Refused? ==> outcome.why in {NotRecorded, NotConfirmed}
    ensures outcome.Refused? && outcome.why == NotConfirmed ==> !NoneWritten(control, |old(control.log)|)
    ensures old(Writable(control, prior, lock)) ==> outcome.Acquired? && outcome.lease.Calm()
  {
    outcome := Take(control, prior, doc, lock);
    if outcome.Refused? || prior.Some? {
      return;
    }
    ghost var taken := outcome.lease.acquiredAt;
    outcome := Confirm(outcome.lease);
    assert control.log[taken].mine && Writes(control.log[taken]);
  }

  /** The requests of an acquisition after the key was probed. */
  method TakeAndConfirm(control: Control, prior: Option<Bytes>, doc: LeaseDoc) returns (outcome: Outcome)
    requires control.Valid() && control.Owner() != Some(control.me) && doc.owner == control.me && doc.status.Held?
    modifies control
    ensures control.Valid() && old(control.log) <= control.log
    ensures outcome.Acquired? ==>
      fresh(outcome.lease) && Opened(outcome.lease, control, |old(control.log)|, prior, doc)
    ensures outcome.Refused? ==> outcome.why in {LockRefused, NotRecorded, NotConfirmed}
    ensures outcome.Refused? && outcome.why == LockRefused ==> NoneWritten(control, |old(control.log)|)
    ensures outcome.Refused? && outcome.why == NotConfirmed ==> !NoneWritten(control, |old(control.log)|)
    ensures outcome.Refused? && outcome.why == LockRefused <==> !control.turns(old(control.tick)).fate.Normal?
    ensures control.NoneSince(|old(control.log)|) <==> !Allocates(control.turns(old(control.tick)).fate)
    ensures LostAnswer(control.turns(old(control.tick))) ==>
      var until := control.turns(old(control.tick)).wall + TTL;
      control.reg == Apply(old(control.reg), Op.Acquire(control.tokens(old(control.tick)), until))
    ensures control.CalmFrom(old(control.tick)) && prior == old(control.reg.value) ==>
      outcome.Acquired? && outcome.lease.Calm()
  {
    var lock := control.Lock();
    if lock.None? {
      return Outcome.Refused(LockRefused);
    }
    ghost var log := control.log;
    outcome := TakeUnder(control, prior, doc, lock.value);
    StillSomeMine(control, log, |old(control.log)|);
  }

  /** The same for a run that did nothing to the key before. */
  method Enter(control: Control, prior: Option<Bytes>, doc: LeaseDoc) returns (outcome: Outcome)
    requires control.Valid() && control.Owner() != Some(control.me) && doc.owner == control.me && doc.status.Held?
    requires NoneMine(control)
    modifies control
    ensures control.Valid() && old(control.log) <= control.log
    ensures outcome.Acquired? ==>
      fresh(outcome.lease) && Opened(outcome.lease, control, |old(control.log)|, prior, doc)
    ensures outcome.Refused? ==>
      && outcome.why in {LockRefused, NotRecorded, NotConfirmed}
      && (NoneMine(control) <==>
            outcome.why == LockRefused && control.turns(old(control.tick)).fate != Thrown(InFull))
      && (outcome.why == LockRefused ==> NoneWritten(control, 0))
      && (outcome.why == NotConfirmed ==> !NoneWritten(control, 0))
    ensures LostAnswer(control.turns(old(control.tick))) ==>
      var until := control.turns(old(control.tick)).wall + TTL;
      && outcome == Outcome.Refused(LockRefused)
      && control.reg == Apply(old(control.reg), Op.Acquire(control.tokens(old(control.tick)), until))
    ensures control.CalmFrom(old(control.tick)) && prior == old(control.reg.value) ==>
      outcome.Acquired? && outcome.lease.Calm()
  {
    ghost var log := control.log;
    outcome := TakeAndConfirm(control, prior, doc);
    NoneAfterNone(control, log);
  }

  /** What a run says of itself: whom it follows, and whom it takes the key from because their time was up. */
  function Introduced(control: Control, prior: Option<Bytes>, writeId: string, startedAt: Time): LeaseDoc {
    var owner := control.codec.OwnerOf(prior);
    var lapsed := owner.Some? && control.codec.parse(prior.value).value.status.Held?;
    LeaseDoc(control.me, writeId, startedAt, Held, None, None, owner, if lapsed then owner else None, None)
  }

  /** What was replaced was there to be taken at that time, and the new document introduces the run. */
  ghost predicate OpenedOver(lease: MigrationLease, control: Control, from: nat, writeId: string, startedAt: Time,
                             checkedAt: Time)
    reads lease, control, lease.control
  {
    lease.acquiredAt < |control.log| &&
    var prior := control.log[lease.acquiredAt].before.value;
    && Opened(lease, control, from, prior, Introduced(control, prior, writeId, startedAt))
    && Available(control.codec, prior, checkedAt)
  }

  /**
    `_acquire_migration_lease`. The document replaced was absent, released or expired; real data under
    the control key is never repurposed, and a live holder is refused without touching the key.
  */
  method Acquire(control: Control, writeId: string, startedAt: Time)
    returns (outcome: Outcome, ghost checkedAt: Time, ghost lockTick: nat)
    requires control.Valid() && control.Owner() != Some(control.me) && NoneMine(control)
    modifies control
    ensures control.Valid() && old(control.log) <= control.log
    ensures outcome.Acquired? ==>
      && fresh(outcome.lease) && OpenedOver(outcome.lease, control, |old(control.log)|, writeId, startedAt, checkedAt)
    // A refusal left the key alone exactly when it came before the lock, or the lock allocated nothing.
    ensures outcome.Refused? ==> (NoneMine(control) <==>
      outcome.why in {Unreadable, RealData, LiveHolder}
      || (outcome.why == LockRefused && control.turns(lockTick).fate != Thrown(InFull)))
    ensures outcome.Refused? && outcome.why == LockRefused ==> NoneWritten(control, 0)
    ensures outcome.Refused? && outcome.why == NotConfirmed ==> !NoneWritten(control, 0)
    // The lock is the request after the read, and after the clock reading if there was a document.
    ensures old(control.tick) < lockTick <= old(control.tick) + 2
    // On a key nobody used, a lock whose answer is lost is a refusal that left a fence behind.
    ensures (
      && control.Silent(old(control.tick)) && old(control.reg) == Fresh()
      && LostAnswer(control.turns(old(control.tick) + 1))) ==>
      outcome == Outcome.Refused(LockRefused) && control.reg.fence == 1 && lockTick == old(control.tick) + 1
    // A document is judged by the clock as it was right after it was read.
    ensures outcome.Acquired? && control.log[outcome.lease.acquiredAt].before.value.Some? ==>
      checkedAt == control.turns(old(control.tick) + 1).wall
    // With nobody in the way the lease is taken exactly when it is there to be taken.
    ensures control.CalmFrom(old(control.tick)) ==>
      && (outcome.Acquired? <==>
            Available(control.codec, old(control.reg.value), control.turns(old(control.tick) + 1).wall))
      && (outcome.Acquired? ==> outcome.lease.Calm())
  {
    var refusal, prior, priorOwner, tookOverFrom;
    refusal, prior, priorOwner, tookOverFrom, checkedAt := Probe(control);
    lockTick := old(control.tick) + if prior.None? then 1 else 2;
    if refusal.Some? {
      return Outcome.Refused(refusal.value), checkedAt, lockTick;
    }
    ghost var from := |control.log|;
    var doc := LeaseDoc(control.me, writeId, startedAt, Held, None, None, priorOwner, tookOverFrom, None);
    outcome := Enter(control, prior, doc);
    if outcome.Acquired? {
      OpenedSince(outcome.lease, control, from, |old(control.log)|, prior, doc);
    }
  }

  /** A refusal that changed the target: the lock raised after its fence was allocated, on a key nobody ever used. */
  method RefusalAdvancesFence(codec: Codec, gen: Bytes -> Option<nat>, tokens: nat -> Token, me: string,
                              writeId: string)
    returns (control: Control, outcome: Outcome)
    requires codec.Lawful()
    ensures fresh(control) && outcome == Outcome.Refused(LockRefused)
    ensures control.reg.fence == 1 && !NoneMine(control)
  {
    control := new Control(me, codec, gen,
      i => Turn([], if i == 1 then Thrown(InFull) else Normal, 0, 0, None, Unspecified), tokens,
      None);
    ghost var checkedAt, lockTick;
    outcome, checkedAt, lockTick := Acquire(control, writeId, 0);
  }
}
