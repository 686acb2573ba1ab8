/**
  The git adapter's loops against a remote that other clients keep pushing to. Every git command
  comes with a turn chosen by an adversary: what the others pushed first, and how the command ends.
*/
module GitBackend {
  import opened Types
  import opened Sidecars
  import opened Git
  import Register
  import Generations

  const FENCE_COMMIT_RETRY_ATTEMPTS: nat := 50

  datatype Fate =
    | Normal               // the command does what it is for; a push is rejected if it is no fast-forward
    | Turned               // a push is rejected although the ref did not move; other commands fail
    | Failed(applied: bool)  // nonzero exit without a rejection marker
    | TimedOut(applied: bool)

  /** The others' pushes are commits of any content on top of the ref. */
  datatype Turn = Turn(others: seq<(Tree, int)>, fate: Fate, wall: Time, blocked: Option<ErrorKind>)

  datatype FetchReply = FetchFailed | Head(ref: Ref)

  datatype ReadReply = ReadFailed | Content(blob: Option<Bytes>)

  datatype BuildReply = BuildFailed | Blocked(kind: ErrorKind) | Ready(commit: Commit)

  datatype PushReply = Pushed | Rejected | Unclear | Interrupted

  /** A push the server accepted, and where the ref stood at that instant. */
  datatype Landing = Landing(from: Ref, commit: Commit)

  /** A push this caller sent: its turn, and the commit. */
  datatype Sent = Sent(tick: nat, commit: Commit)

  /** Whether the server takes a push it could fast-forward. */
  predicate Applies(fate: Fate) {
    match fate
    case Normal => true
    case Turned => false
    case Failed(applied) => applied
    case TimedOut(applied) => applied
  }

  /** What the caller of a push is told. */
  function AnswerOf(fate: Fate, lands: bool): PushReply {
    match fate
    case Normal => if lands then Pushed else Rejected
    case Turned => Rejected
    case Failed(_) => Unclear
    case TimedOut(_) => Interrupted
  }

  /** The ref after the others' pushes. */
  function Advanced(ref: Ref, others: seq<(Tree, int)>): Ref {
    if others == [] then ref
    else
      var (tree, stamp) := others[|others| - 1];
      Some(Commit(Advanced(ref, others[..|others| - 1]), tree, stamp))
  }

  lemma {:induction false} AdvancedIsAbove(ref: Ref, others: seq<(Tree, int)>)
    ensures AncestorOrEqual(ref, Advanced(ref, others))
    ensures Depth(Advanced(ref, others)) == Depth(ref) + |others|
  {
    if others != [] {
      AdvancedIsAbove(ref, others[..|others| - 1]);
      AncestorsChain(ref, Advanced(ref, others[..|others| - 1]), Advanced(ref, others));
    }
  }

  /** The others leave the way free: none of them pushed, or one pushed this very commit. */
  predicate WayFree(others: seq<(Tree, int)>, commit: Commit) {
    others == [] || others == [(commit.tree, commit.stamp)]
  }

  /** A push of a child of the ref is a fast-forward exactly when the others leave the way free. */
  lemma ForwardIffWayFree(others: seq<(Tree, int)>, next: Commit)
    ensures FastForward(Advanced(next.parent, others), next) <==> WayFree(others, next)
  {
    var at := Advanced(next.parent, others);
    AdvancedIsAbove(next.parent, others);
    PushLandsIffUnmoved(at, next.parent, next);
    assert Depth(Some(next)) == Depth(next.parent) + 1;
    if |others| == 1 {
      assert others[..0] == [] && others == [others[0]];
      assert at == Some(Commit(next.parent, others[0].0, others[0].1));
    }
  }

  class Remote {
    var ref: Ref
    var tick: nat
    const turns: nat -> Turn
    ghost var landings: seq<Landing>
    ghost var sent: seq<Sent>
    ghost var fetched: seq<Ref>

    /** Nobody else pushes before this command, and it does what it is for. */
    predicate Quiet(i: nat) {
      turns(i).others == [] && turns(i).fate.Normal? && turns(i).blocked.None?
    }

    ghost predicate QuietFrom(i: nat) {
      forall j :: i <= j ==> Quiet(j)
    }

    /** Some command since then failed, or what it built may not be uploaded. */
    ghost predicate FaultySince(i: nat)
      reads this`tick
    {
      exists j :: i <= j < tick && (!turns(j).fate.Normal? || turns(j).blocked.Some?)
    }

    ghost predicate QuietTo(i: nat, n: nat) {
      forall j :: i <= j < i + n ==> Quiet(j)
    }

    constructor (turns: nat -> Turn)
      ensures this.turns == turns && ref == None && tick == 0 && landings == [] && sent == [] && fetched == []
    {
      this.turns, ref, tick, landings, sent, fetched := turns, None, 0, [], [], [];
    }

    /** Whether a push landed: the others left the way free at its turn, and the server took it. */
    predicate Lands(s: Sent) {
      WayFree(turns(s.tick).others, s.commit) && Applies(turns(s.tick).fate)
    }

    /** This caller pushed since, and the last push landed. */
    ghost predicate LastLands(from: nat)
      reads this`sent
    {
      |sent| > from && Lands(sent[|sent| - 1])
    }

    /** So it did, without saying so. */
    ghost predicate LastHides(from: nat)
      reads this`sent
    {
      LastLands(from) && !turns(sent[|sent| - 1].tick).fate.Normal?
    }

    method Plumb() returns (turn: Turn)
      modifies this`tick
      ensures turn == turns(old(tick)) && tick == old(tick) + 1
    {
      turn := turns(tick);
      tick := tick + 1;
    }

    method Interfere() returns (turn: Turn)
      modifies this`tick, this`ref
      ensures AncestorOrEqual(old(ref), ref)
      ensures turn == turns(old(tick)) && tick == old(tick) + 1
      ensures ref == Advanced(old(ref), turn.others)
    {
      turn := Plumb();
      for i := 0 to |turn.others|
        invariant ref == Advanced(old(ref), turn.others[..i]) && tick == old(tick) + 1
      {
        var (tree, stamp) := turn.others[i];
        assert turn.others[..i + 1][..i] == turn.others[..i];
        ref := Some(Commit(ref, tree, stamp));
      }
      assert turn.others[..|turn.others|] == turn.others;
      AdvancedIsAbove(old(ref), turn.others);
    }

    method Fetch() returns (reply: FetchReply)
      modifies this`tick, this`ref, this`fetched
      ensures AncestorOrEqual(old(ref), ref)
      ensures reply.Head? ==> reply.ref == ref && fetched == old(fetched) + [ref]
      ensures reply.FetchFailed? ==> fetched == old(fetched)
      ensures reply.FetchFailed? <==> !turns(old(tick)).fate.Normal?
      ensures tick == old(tick) + 1 && (Quiet(old(tick)) ==> reply == Head(old(ref)) && ref == old(ref))
    {
      var turn := Interfere();
      if turn.fate != Normal {
        return FetchFailed;
      }
      fetched := fetched + [ref];
      reply := Head(ref);
    }

    method ReadBlob(head: Ref, path: Path) returns (reply: ReadReply)
      modifies this`tick
      ensures reply.Content? ==> reply.blob == Blob(TreeAt(head), path)
      ensures reply.Content? <==> head.None? || turns(old(tick)).fate.Normal?
      ensures tick == old(tick) + if head.None? then 0 else 1
      ensures Quiet(old(tick)) ==> reply.Content?
    {
      if head.None? {
        return Content(None);
      }
      var turn := Plumb();
      reply := if turn.fate == Normal then Content(Blob(TreeAt(head), path)) else ReadFailed;
    }

    /** `_build_commit_multi`, then the scan of everything it would upload. */
    method Prepare(head: Ref, changes: Tree) returns (reply: BuildReply)
      modifies this`tick
      ensures reply.BuildFailed? <==> !turns(old(tick)).fate.Normal?
      ensures reply.Ready? <==> turns(old(tick)).fate.Normal? && turns(old(tick)).blocked.None?
      ensures reply.Ready? ==> exists stamp :: reply.commit == Child(head, changes, stamp)
      ensures reply.Blocked? ==> reply.kind in {Corruption, ScanFailure, SecretBlocked}
      ensures tick == old(tick) + 1 && (Quiet(old(tick)) ==> reply.Ready?)
    {
      var turn := Plumb();
      if turn.fate != Normal {
        return BuildFailed;
      }
      if turn.blocked.Some? {
        return Blocked(if turn.blocked.value in {Corruption, ScanFailure} then turn.blocked.value else SecretBlocked);
      }
      reply := Ready(Child(head, changes, turn.wall));
    }

    /** A plain push of a child of the head captured; what the others pushed since comes first. */
    method Push(next: Commit) returns (reply: PushReply)
      requires next.parent == ref
      modifies this`tick, this`ref, this`landings, this`sent
      ensures AncestorOrEqual(old(ref), ref)
      ensures sent == old(sent) + [Sent(old(tick), next)] && tick == old(tick) + 1
      ensures reply == AnswerOf(turns(old(tick)).fate, WayFree(turns(old(tick)).others, next))
      ensures var lands, at := Lands(Sent(old(tick), next)), Advanced(old(ref), turns(old(tick)).others);
        && ref == (if lands then Some(next) else at)
        && landings == old(landings) + (if lands then [Landing(at, next)] else [])
        && (lands ==> at == next.parent || at == Some(next))
    {
      var turn := Interfere();
      ForwardIffWayFree(turn.others, next);
      PushLandsIffUnmoved(ref, next.parent, next);
      var forward := FastForward(ref, next);
      sent := sent + [Sent(tick - 1, next)];
      if forward && Applies(turn.fate) {
        AncestorsChain(old(ref), ref, Some(next));
        landings := landings + [Landing(ref, next)];
        ref := Some(next);
      }
      reply := AnswerOf(turn.fate, forward);
    }
  }

  /**
    A landing is exactly the call's own register operation on the tree it replaced, and it leaves
    every path but the key and its sidecar alone; lock and renew are invisible altogether.
  */
  ghost predicate Faithful(n: Numerals, key: Key, op: Register.Op<Bytes>, l: Landing) {
    var before, after := TreeAt(l.commit.parent), l.commit.tree;
    && (l.from == l.commit.parent || l.from == Some(l.commit))
    && (Inv(n, before) ==>
          && Register.Enabled(Generations.Extract, Meaning(n, before, key), op)
          && Meaning(n, after, key) == Register.Apply(Meaning(n, before, key), op))
    && (forall path :: path != Plain(key) && path != Sidecar(Sha256(key)) ==> Blob(after, path) == Blob(before, path))
    && (op.Acquire? || op.Extend? ==> View(n, after) == View(n, before))
  }

  lemma LandingIsFaithful(n: Numerals, key: Key, op: Register.Op<Bytes>, head: Ref, now: Time, stamp: int, l: Landing)
    requires n.Lawful() && LegalToken(op) && NextMove(n, op, TreeAt(head), key, now).Publish?
    requires l.commit == Child(head, NextMove(n, op, TreeAt(head), key, now).changes, stamp)
    requires l.from == head || l.from == Some(l.commit)
    ensures Faithful(n, key, op, l)
  {
    if Inv(n, TreeAt(head)) {
      CommitIsOneOperation(n, op, TreeAt(head), key, now);
    }
    forall path | path != Plain(key) && path != Sidecar(Sha256(key))
      ensures Blob(l.commit.tree, path) == Blob(TreeAt(head), path)
    {
      CommitTouchesOnlyItsKey(n, op, TreeAt(head), key, now, path);
    }
    if op.Acquire? || op.Extend? {
      FenceCommitsAreInvisible(n, op, TreeAt(head), key, now);
    }
  }

  /** The number the next lock of a key gets. */
  function NewFence(n: Numerals, tree: Tree, key: Key): nat {
    Max(Meaning(n, tree, key).fence, Meaning(n, tree, key).accepted) + 1
  }

  lemma LockedTenure(n: Numerals, tree: Tree, key: Key, token: Token, until: Time, now: Time)
    requires n.Lawful() && LegalToken(Register.Acquire(token, until))
    requires NextMove(n, Register.Acquire(token, until), tree, key, now).Publish?
    ensures var after := tree + NextMove(n, Register.Acquire(token, until), tree, key, now).changes;
      TenureOf(n, after, key) ==
        Some(Tenure(Some(token), until, NewFence(n, tree, key), Meaning(n, tree, key).accepted))
  {
    SidecarRoundTrip(n, Tenure(Some(token), until, NewFence(n, tree, key), Meaning(n, tree, key).accepted));
  }

  datatype Reply = Raised | Replied(result: WriteResult<Bytes>)

  class GitBackend {
    const remote: Remote
    const numerals: Numerals
    var locks: map<Key, (Token, Time)>

    constructor (remote: Remote, numerals: Numerals)
      ensures this.remote == remote && this.numerals == numerals && locks == map[]
    {
      this.remote, this.numerals, locks := remote, numerals, map[];
    }

    /** This call's accepted pushes: at most one, and exactly the call's own operation. */
    twostate predicate LandedAsCall(key: Key, op: Register.Op<Bytes>)
      reads remote
    {
      var n := |old(remote.landings)|;
      && (remote.landings == old(remote.landings) || (
            && |remote.landings| == n + 1
            && remote.landings[..n] == old(remote.landings)
            && Faithful(numerals, key, op, remote.landings[n])))
    }

    /** The pushes of this call: all but the last were turned away, and the last one landed or not. */
    twostate predicate SentThenLanded()
      reads remote
    {
      && |old(remote.sent)| <= |remote.sent|
      && (remote.landings != old(remote.landings) <==> remote.LastLands(|old(remote.sent)|))
    }

    /** Publishes one prepared commit on the head it was prepared for. */
    method Publish(key: Key, op: Register.Op<Bytes>, head: Ref, now: Time, commit: Commit) returns (reply: PushReply)
      requires numerals.Lawful() && LegalToken(op) && NextMove(numerals, op, TreeAt(head), key, now).Publish?
      requires exists stamp :: commit == Child(head, NextMove(numerals, op, TreeAt(head), key, now).changes, stamp)
      requires head == remote.ref
      modifies remote`tick, remote`ref, remote`landings, remote`sent
      ensures AncestorOrEqual(old(remote.ref), remote.ref)
      ensures LandedAsCall(key, op) && SentThenLanded()
      ensures remote.landings != old(remote.landings) ==> remote.landings[|old(remote.landings)|].commit == commit
      ensures remote.sent == old(remote.sent) + [Sent(old(remote.tick), commit)] && remote.tick == old(remote.tick) + 1
      ensures reply ==
        AnswerOf(remote.turns(old(remote.tick)).fate, WayFree(remote.turns(old(remote.tick)).others, commit))
    {
      reply := remote.Push(commit);
      if remote.landings != old(remote.landings) {
        ghost var stamp :| commit == Child(head, NextMove(numerals, op, TreeAt(head), key, now).changes, stamp);
        LandingIsFaithful(numerals, key, op, head, now, stamp, remote.landings[|old(remote.landings)|]);
      }
    }

    /** The commands a write gives before it decides: a fetch, and the reads at a head that exists. */
    static function CaptureTurns(head: Ref, pre: Precondition<Bytes>): nat {
      if head.None? then 1 else if pre.CreateOnly? then 2 else 3
    }

    /** The head a write is computed on, once its blobs could be read there. */
    method Capture(key: Key, pre: Precondition<Bytes>) returns (head: Option<Ref>)
      modifies remote`tick, remote`ref, remote`fetched
      ensures AncestorOrEqual(old(remote.ref), remote.ref)
      ensures head.Some? ==> head.value == remote.ref && remote.fetched == old(remote.fetched) + [remote.ref]
      ensures head.Some? ==> remote.tick == old(remote.tick) + CaptureTurns(head.value, pre)
      ensures remote.QuietTo(old(remote.tick), CaptureTurns(old(remote.ref), pre)) ==> head == Some(old(remote.ref))
    {
      var fetch := remote.Fetch();
      if fetch.FetchFailed? {
        return None;
      }
      var current := remote.ReadBlob(fetch.ref, Plain(key));
      if current.ReadFailed? {
        return None;
      }
      if pre.Overwrite? {
        var sidecar := remote.ReadBlob(fetch.ref, Sidecar(Sha256(key)));
        if sidecar.ReadFailed? {
          return None;
        }
      }
      head := Some(fetch.ref);
    }

    /** What a write answers to the ending of its push, when it was not rejected. */
    static function Told(push: PushReply, body: Bytes): Reply {
      match push
      case Pushed => Replied(Ok(Sha256(body)))
      case Interrupted => Raised
      case _ => Replied(Error(Network))
    }

    /** Build, scan and push what a write decided on. */
    method Send(key: Key, body: Bytes, pre: Precondition<Bytes>, head: Ref, now: Time) returns (reply: Reply)
      requires numerals.Lawful() && head == remote.ref
      requires NextMove(numerals, OpFor(pre, body), TreeAt(head), key, now).Publish?
      modifies remote
      ensures AncestorOrEqual(old(remote.ref), remote.ref) && old(remote.fetched) <= remote.fetched
      ensures LandedAsCall(key, OpFor(pre, body)) && SentThenLanded()
      ensures reply.Replied? && reply.result.Ok? ==>
        reply.result == Ok(Sha256(body)) && remote.landings != old(remote.landings)
      ensures remote.sent == old(remote.sent) ==> reply.Replied? && reply.result.Error?
      ensures remote.sent != old(remote.sent) ==>
        && |remote.sent| == |old(remote.sent)| + 1
        && var s := remote.sent[|old(remote.sent)|];
           && s.tick == old(remote.tick) + 1 && s.commit.parent == head
           && var push := AnswerOf(remote.turns(s.tick).fate, WayFree(remote.turns(s.tick).others, s.commit));
              if push.Rejected? then reply.Replied? && !reply.result.Ok? else reply == Told(push, body)
      // A commit that cannot be built or must not be uploaded is never pushed.
      ensures !remote.turns(old(remote.tick)).fate.Normal? ==>
        reply == Replied(Error(Corruption)) && remote.sent == old(remote.sent)
      ensures remote.turns(old(remote.tick)).fate.Normal? && remote.turns(old(remote.tick)).blocked.Some? ==>
        reply.Replied? && reply.result.Error? && remote.sent == old(remote.sent)
      ensures remote.Quiet(old(remote.tick)) ==> remote.sent != old(remote.sent)
      ensures remote.Quiet(old(remote.tick)) && remote.Quiet(old(remote.tick) + 1) ==>
        reply == Replied(Ok(Sha256(body))) && remote.landings != old(remote.landings)
    {
      var built := remote.Prepare(head, NextMove(numerals, OpFor(pre, body), TreeAt(head), key, now).changes);
      if built.BuildFailed? {
        return Replied(Error(Corruption));
      }
      if built.Blocked? {
        return Replied(Error(built.kind));
      }
      var push := Publish(key, OpFor(pre, body), head, now, built.commit);
      if !push.Rejected? {
        return Told(push, body);
      }
      ghost var pushed := remote.ref;
      var result := AfterRejection(key, pre);
      AncestorsChain(old(remote.ref), pushed, remote.ref);
      reply := Replied(result);
    }

    /**
      `_write_inner`. An OK has landed or replays a create; any other answer means nothing of this
      call landed, except for a push that landed and whose answer was lost.
    */
    method Write(key: Key, body: Bytes, pre: Precondition<Bytes>) returns (reply: Reply, ghost now: Time)
      requires numerals.Lawful()
      modifies remote
      ensures AncestorOrEqual(old(remote.ref), remote.ref)
      ensures LandedAsCall(key, OpFor(pre, body)) && SentThenLanded()
      ensures reply.Replied? && reply.result.Ok? ==>
        && reply.result == Ok(Sha256(body))
        && (remote.landings == old(remote.landings) ==>
              && pre.CreateOnly?
              && |remote.fetched| > |old(remote.fetched)|
              && Blob(TreeAt(remote.fetched[|old(remote.fetched)|]), Plain(key)) == Some(body))
      // An answer other than OK hides a landing exactly when the push applied and its exit status did not say so.
      ensures reply.Replied? && !reply.result.Ok? ==> (remote.landings != old(remote.landings) <==>
        && |remote.sent| > |old(remote.sent)|
        && var s := remote.sent[|old(remote.sent)|];
           remote.turns(s.tick).fate == Failed(true) && WayFree(remote.turns(s.tick).others, s.commit))
      ensures reply.Replied? && !reply.result.Ok? && remote.landings != old(remote.landings) ==>
        reply.result == Error(Network)
      ensures reply.Raised? ==>
        && |remote.sent| > |old(remote.sent)|
        && remote.turns(remote.sent[|old(remote.sent)|].tick).fate.TimedOut?
      // At most one push, at the turn after the head was captured, the clock was read and the commit was built.
      ensures remote.sent != old(remote.sent) ==>
        && |remote.sent| == |old(remote.sent)| + 1
        && var s := remote.sent[|old(remote.sent)|];
           && s.tick == old(remote.tick) + CaptureTurns(s.commit.parent, pre) + 2
           && var push := AnswerOf(remote.turns(s.tick).fate, WayFree(remote.turns(s.tick).others, s.commit));
              if push.Rejected? then reply.Replied? && !reply.result.Ok? else reply == Told(push, body)
      // Leases are judged by the clock as it was once the head was captured.
      ensures remote.QuietTo(old(remote.tick), CaptureTurns(old(remote.ref), pre)) ==>
        now == remote.turns(old(remote.tick) + CaptureTurns(old(remote.ref), pre)).wall
      // With nobody in the way up to there, the write is pushed where the register commits it.
      ensures remote.QuietTo(old(remote.tick), CaptureTurns(old(remote.ref), pre) + 2) ==>
        && (remote.sent != old(remote.sent) <==>
              var r := Meaning(numerals, TreeAt(old(remote.ref)), key);
              Register.Judge(Generations.Extract, r, pre, body, now).Commit?)
        && (remote.sent != old(remote.sent) ==> remote.sent[|old(remote.sent)|].commit.parent == old(remote.ref))
      // Undisturbed, it is the atomic write of the register.
      ensures remote.QuietFrom(old(remote.tick)) ==>
        match Register.Judge(Generations.Extract, Meaning(numerals, TreeAt(old(remote.ref)), key), pre, body, now)
        case Commit(_) => reply == Replied(Ok(Sha256(body))) && remote.landings != old(remote.landings)
        case Refuse(result) => reply == Replied(result) && remote.ref == old(remote.ref)
    {
      now := 0;
      var op := OpFor(pre, body);
      var captured := Capture(key, pre);
      if captured.None? {
        return Replied(Error(Network)), now;
      }
      var head := captured.value;
      var turn := remote.Plumb();
      now := turn.wall;
      DecisionIsVerdict(numerals, TreeAt(head), key, pre, body, turn.wall);
      match NextMove(numerals, op, TreeAt(head), key, turn.wall) {
        case Answer(result) =>
          return Replied(result), now;
        case SettleFence =>
          var settled := Settle(key, pre.expected);
          AncestorsChain(old(remote.ref), head, remote.ref);
          return Replied(Stale(settled, Fence)), now;
        case GiveUp =>
          assert false;
        case Publish(_) =>
          reply := Send(key, body, pre, head, turn.wall);
          AncestorsChain(old(remote.ref), head, remote.ref);
      }
    }

    /**
      NETWORK counts as definitely not committed, and here the write it answers has landed: an
      unborn branch, nobody else at work, and one push that fails after the server applied it.
    */
    static method NetworkHidesLanding(numerals: Numerals, key: Key, body: Bytes) returns (git: GitBackend, reply: Reply)
      requires numerals.Lawful()
      ensures fresh(git) && fresh(git.remote)
      ensures reply == Replied(Error(Network)) && CommitClassOf(reply.result) == DefinitelyNotCommitted
      ensures |git.remote.landings| == 1 && Faithful(numerals, key, OpFor(CreateOnly, body), git.remote.landings[0])
    {
      var remote := new Remote(i => Turn([], if i == 3 then Failed(true) else Normal, 0, None));
      git := new GitBackend(remote, numerals);
      assert remote.QuietTo(0, 3);
      assert Meaning(numerals, TreeAt(None), key).value == None;
      ghost var now;
      reply, now := git.Write(key, body, CreateOnly);
      assert remote.turns(3) == Turn([], Failed(true), 0, None);
    }

    /** A rejected push is never retried or rebased: re-read, and say what is there. */
    method AfterRejection(key: Key, pre: Precondition<Bytes>) returns (r: WriteResult<Bytes>)
      modifies remote`tick, remote`ref, remote`fetched
      ensures AncestorOrEqual(old(remote.ref), remote.ref)
      ensures old(remote.fetched) <= remote.fetched
      ensures pre.Overwrite? ==> r.Stale? && r.reason == Unspecified
      ensures pre.CreateOnly? ==> r == Error(Network) || r == Error(ConflictUnknown) || r.Exists?
      ensures r.Exists? ==>
        && |remote.fetched| > |old(remote.fetched)|
        && VersionOf(Blob(TreeAt(remote.fetched[|old(remote.fetched)|]), Plain(key))) == Some(r.existing)
      // With nobody in the way of the re-read it says what is there.
      ensures remote.QuietFrom(old(remote.tick)) ==>
        var value := Blob(TreeAt(old(remote.ref)), Plain(key));
        r == if pre.Overwrite? then Stale(VersionOf(value), Unspecified)
             else if value.Some? then Exists(Sha256(value.value)) else Error(ConflictUnknown)
    {
      match pre {
        case Overwrite(expected, _) =>
          var settled := Settle(key, expected);
          r := Stale(settled, Unspecified);
        case CreateOnly =>
          var fetch := remote.Fetch();
          if fetch.FetchFailed? {
            return Error(Network);
          }
          var reread := remote.ReadBlob(fetch.ref, Plain(key));
          if reread.ReadFailed? {
            return Error(Network);
          }
          r := if reread.blob.Some? then Exists(Sha256(reread.blob.value)) else Error(ConflictUnknown);
      }
    }

    /** One re-read at the fresh head, or the expected version when it fails. */
    method Settle(key: Key, expected: Version<Bytes>) returns (settled: Option<Version<Bytes>>)
      modifies remote`tick, remote`ref, remote`fetched
      ensures AncestorOrEqual(old(remote.ref), remote.ref)
      ensures old(remote.fetched) <= remote.fetched
      ensures settled == Some(expected) || (
        && |remote.fetched| > |old(remote.fetched)|
        && settled == VersionOf(Blob(TreeAt(remote.fetched[|old(remote.fetched)|]), Plain(key))))
      ensures !remote.FaultySince(old(remote.tick)) ==> settled == VersionOf(Blob(TreeAt(remote.ref), Plain(key)))
      ensures remote.QuietFrom(old(remote.tick)) ==>
        remote.ref == old(remote.ref) && settled == VersionOf(Blob(TreeAt(old(remote.ref)), Plain(key)))
    {
      var fetch := remote.Fetch();
      if fetch.FetchFailed? {
        return Some(expected);
      }
      var blob := remote.ReadBlob(fetch.ref, Plain(key));
      settled := if blob.ReadFailed? then Some(expected) else VersionOf(blob.blob);
    }

    /** One round of a fence loop: None asks for another round. */
    method FenceRound(key: Key, op: Register.Op<Bytes>, head: Ref) returns (done: Option<bool>)
      requires numerals.Lawful() && LegalToken(op) && (op.Acquire? || op.Extend?)
      requires NextMove(numerals, op, TreeAt(head), key, 0).Publish? && head == remote.ref
      modifies remote`tick, remote`ref, remote`landings, remote`sent
      ensures LandedAsCall(key, op) && SentThenLanded()
      ensures done.None? ==> remote.landings == old(remote.landings) && remote.sent != old(remote.sent)
      ensures remote.sent == old(remote.sent) || |remote.sent| == |old(remote.sent)| + 1
      ensures done == Some(true) ==> remote.landings != old(remote.landings)
      ensures done == Some(false) ==> remote.FaultySince(old(remote.tick))
      ensures old(remote.tick) <= remote.tick
      ensures remote.landings != old(remote.landings) ==>
        remote.landings[|old(remote.landings)|].commit.tree ==
          TreeAt(head) + NextMove(numerals, op, TreeAt(head), key, 0).changes
      ensures remote.landings != old(remote.landings) ==> (done != Some(true) <==> remote.LastHides(|old(remote.sent)|))
      ensures remote.QuietFrom(old(remote.tick)) && old(remote.ref) == head ==> done == Some(true)
    {
      var built := remote.Prepare(head, NextMove(numerals, op, TreeAt(head), key, 0).changes);
      if !built.Ready? {
        return Some(false);
      }
      assert old(remote.QuietFrom(remote.tick)) ==> remote.Quiet(remote.tick);
      var push := Publish(key, op, head, 0, built.commit);
      match push {
        case Pushed => done := Some(true);
        case Rejected => done := None;
        case _ => done := Some(false);
      }
    }

    /** The head a lock computes its fence on; a missing sidecar is read twice, to tell a foreign blob. */
    method ReadSidecar(key: Key) returns (head: Option<Ref>)
      modifies remote`tick, remote`ref, remote`fetched
      ensures head.Some? ==> head.value == remote.ref
      ensures old(remote.tick) <= remote.tick
      ensures head.None? ==> remote.FaultySince(old(remote.tick))
      ensures remote.QuietFrom(old(remote.tick)) ==> head == Some(old(remote.ref))
    {
      var fetch := remote.Fetch();
      if fetch.FetchFailed? {
        return None;
      }
      var sidecar := remote.ReadBlob(fetch.ref, Sidecar(Sha256(key)));
      if sidecar.Content? && TenureOf(numerals, TreeAt(fetch.ref), key).None? {
        sidecar := remote.ReadBlob(fetch.ref, Sidecar(Sha256(key)));
      }
      head := if sidecar.ReadFailed? then None else Some(fetch.ref);
    }

    /** `_advance_durable_fence`; None stands for BackendBusyError. */
    method AdvanceDurableFence(key: Key, token: Token, until: Time) returns (fence: Option<nat>)
      requires numerals.Lawful() && LegalToken(Register.Acquire(token, until))
      modifies remote
      ensures LandedAsCall(key, Register.Acquire(token, until)) && SentThenLanded()
      // A fence is handed out exactly for the sidecar that landed.
      ensures fence.Some? ==>
        && remote.landings != old(remote.landings)
        && var tenure := TenureOf(numerals, remote.landings[|old(remote.landings)|].commit.tree, key);
           tenure.Some? && tenure.value.fence == fence.value > tenure.value.accepted
           && tenure.value.owner == Some(token) && tenure.value.expiry == until
      ensures remote.landings != old(remote.landings) ==> (fence.None? <==> remote.LastHides(|old(remote.sent)|))
      // It gives up after a fault, on a foreign blob, or after all its attempts were overtaken.
      ensures fence.None? ==>
        || remote.FaultySince(old(remote.tick)) || ForeignAt(numerals, TreeAt(remote.ref), key)
        || |remote.sent| >= |old(remote.sent)| + FENCE_COMMIT_RETRY_ATTEMPTS
      // Undisturbed, only a foreign blob stands in its way.
      ensures remote.QuietFrom(old(remote.tick)) ==>
        (fence.None? <==> ForeignAt(numerals, TreeAt(old(remote.ref)), key))
    {
      var op := Register.Acquire(token, until);
      for attempt := 0 to FENCE_COMMIT_RETRY_ATTEMPTS
        invariant remote.landings == old(remote.landings)
        invariant |remote.sent| == |old(remote.sent)| + attempt && !remote.LastLands(|old(remote.sent)|)
        invariant old(remote.tick) <= remote.tick
        invariant attempt > 0 ==> !remote.QuietFrom(old(remote.tick))
        invariant attempt == 0 ==> remote.tick == old(remote.tick) && remote.ref == old(remote.ref)
      {
        var found := ReadSidecar(key);
        if found.None? {
          return None;
        }
        var head := found.value;
        if NextMove(numerals, op, TreeAt(head), key, 0).GiveUp? {
          return None;  // the path holds a blob that is no sidecar
        }
        var done := FenceRound(key, op, head);
        if done.Some? {
          LockedTenure(numerals, TreeAt(head), key, token, until, 0);
          return if done.value then Some(NewFence(numerals, TreeAt(head), key)) else None;
        }
      }
      fence := None;
    }

    /** `_renew_durable_fence`: true only once the extension is confirmed pushed. */
    method RenewDurableFence(key: Key, token: Token, until: Time) returns (renewed: bool)
      requires numerals.Lawful()
      modifies remote
      ensures LandedAsCall(key, Register.Extend(token, until)) && SentThenLanded()
      ensures renewed ==> remote.landings != old(remote.landings)
      ensures remote.landings != old(remote.landings) ==> (!renewed <==> remote.LastHides(|old(remote.sent)|))
      // It gives up after a fault, when another owns the key, or after all its attempts were overtaken.
      ensures !renewed ==>
        || remote.FaultySince(old(remote.tick)) || !OwnedBy(numerals, TreeAt(remote.ref), key, token)
        || |remote.sent| >= |old(remote.sent)| + FENCE_COMMIT_RETRY_ATTEMPTS
      ensures remote.QuietFrom(old(remote.tick)) ==>
        (renewed <==> OwnedBy(numerals, TreeAt(old(remote.ref)), key, token))
    {
      var op := Register.Extend(token, until);
      for attempt := 0 to FENCE_COMMIT_RETRY_ATTEMPTS
        invariant remote.landings == old(remote.landings)
        invariant |remote.sent| == |old(remote.sent)| + attempt && !remote.LastLands(|old(remote.sent)|)
        invariant old(remote.tick) <= remote.tick
        invariant attempt > 0 ==> !remote.QuietFrom(old(remote.tick))
        invariant attempt == 0 ==> remote.tick == old(remote.tick) && remote.ref == old(remote.ref)
      {
        var fetch := remote.Fetch();
        if fetch.FetchFailed? {
          return false;
        }
        var sidecar := remote.ReadBlob(fetch.ref, Sidecar(Sha256(key)));
        if sidecar.ReadFailed? {
          return false;
        }
        if NextMove(numerals, op, TreeAt(fetch.ref), key, 0).GiveUp? {
          return false;
        }
        var done := FenceRound(key, op, fetch.ref);
        if done.Some? {
          return done.value;
        }
      }
      renewed := false;
    }

    /** The registry entry of a key that is in force. */
    predicate InForce(key: Key, now: Time)
      reads this`locks
    {
      key in locks && locks[key].1 > now
    }

    method Lock(key: Key, ttl: nat, token: Token, now: Time) returns (lease: Option<Lease>)
      requires numerals.Lawful() && LegalToken(Register.Acquire(token, now + ttl))
      modifies this, remote
      // Undisturbed, it is granted unless this process holds the key or a foreign blob is in its sidecar's place.
      ensures remote.QuietFrom(old(remote.tick)) ==>
        (lease.Some? <==> !old(InForce(key, now)) && !ForeignAt(numerals, TreeAt(old(remote.ref)), key))
      ensures LandedAsCall(key, Register.Acquire(token, now + ttl))
      ensures key in old(locks) && old(locks)[key].1 > now ==> lease.None? && remote.landings == old(remote.landings)
      ensures locks == if lease.Some? then old(locks)[key := (token, now + ttl)] else old(locks)
      ensures lease.Some? ==>
        && remote.landings != old(remote.landings)
        && var tenure := TenureOf(numerals, remote.landings[|old(remote.landings)|].commit.tree, key);
           tenure.Some? && lease == Some(Lease(key, token, tenure.value.fence))
    {
      if key in locks && locks[key].1 > now {
        return None;
      }
      var fence := AdvanceDurableFence(key, token, now + ttl);
      if fence.None? {
        return None;
      }
      locks := locks[key := (token, now + ttl)];
      lease := Some(Lease(key, token, fence.value));
    }

    /** The durable half decides: without it the in-memory entry stays as it was. */
    method Renew(lease: Lease, ttl: nat, now: Time) returns (renewed: bool)
      requires numerals.Lawful()
      modifies this, remote
      // Undisturbed, it is extended exactly for the holder of both halves.
      ensures remote.QuietFrom(old(remote.tick)) ==>
        (renewed <==>
           && old(InForce(lease.key, now)) && old(locks)[lease.key].0 == lease.token
           && OwnedBy(numerals, TreeAt(old(remote.ref)), lease.key, lease.token))
      ensures LandedAsCall(lease.key, Register.Extend(lease.token, now + ttl))
      ensures locks == if renewed then old(locks)[lease.key := (lease.token, now + ttl)] else old(locks)
      ensures renewed ==> remote.landings != old(remote.landings)
      ensures renewed ==>
        && lease.key in old(locks)
        && old(locks)[lease.key].0 == lease.token && old(locks)[lease.key].1 > now
    {
      if lease.key !in locks || locks[lease.key].0 != lease.token || locks[lease.key].1 <= now {
        return false;
      }
      renewed := RenewDurableFence(lease.key, lease.token, now + ttl);
      if renewed {
        locks := locks[lease.key := (lease.token, now + ttl)];
      }
    }
  }
}
