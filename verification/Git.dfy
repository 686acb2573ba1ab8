/**
  The git protocol: one ref that only fast-forwards, a commit per mutation, and a sidecar blob per
  key for the fence. What a call publishes is computed from the head it captured; any number of
  clients may push in between.
*/
module Git {
  import opened Types
  import opened Sidecars
  import Register
  import Generations

  /** A tree path: a plain name, or `.knokeep-fence/<sha256 of the key>.fence`. */
  datatype Path = Plain(name: Key) | Sidecar(of: Version<Key>)

  type Tree = map<Path, Bytes>

  /** The stamp is whatever else goes into a commit id. */
  datatype Commit = Commit(parent: Option<Commit>, tree: Tree, stamp: int)

  /** A ref, None before the branch is born. */
  type Ref = Option<Commit>

  function TreeAt(head: Ref): Tree {
    if head.None? then map[] else head.value.tree
  }

  predicate AncestorOrEqual(a: Ref, b: Ref)
    decreases b
  {
    a == b || (b.Some? && AncestorOrEqual(a, b.value.parent))
  }

  function Depth(r: Ref): nat {
    if r.None? then 0 else 1 + Depth(r.value.parent)
  }

  lemma {:induction false} AncestorsAreShallower(a: Ref, b: Ref)
    requires AncestorOrEqual(a, b)
    ensures a == b || Depth(a) < Depth(b)
    decreases b
  {
    if a != b {
      AncestorsAreShallower(a, b.value.parent);
    }
  }

  lemma {:induction false} AncestorsChain(a: Ref, b: Ref, c: Ref)
    requires AncestorOrEqual(a, b) && AncestorOrEqual(b, c)
    ensures AncestorOrEqual(a, c)
    decreases c
  {
    if b != c {
      AncestorsChain(a, b, c.value.parent);
    }
  }

  /** The server's rule for a plain push. */
  predicate FastForward(ref: Ref, next: Commit) {
    AncestorOrEqual(ref, Some(next))
  }

  /**
    A push of a child of the captured head is accepted exactly when the ref has not moved since the
    capture, or already is this very commit.
  */
  lemma PushLandsIffUnmoved(ref: Ref, captured: Ref, next: Commit)
    requires next.parent == captured && AncestorOrEqual(captured, ref)
    ensures FastForward(ref, next) <==> ref == captured || ref == Some(next)
  {
    assert AncestorOrEqual(captured, Some(next).value.parent);
    if FastForward(ref, next) && ref != Some(next) {
      assert AncestorOrEqual(ref, captured);
      AncestorsAreShallower(ref, captured);
      AncestorsAreShallower(captured, ref);
    }
  }

  // What a call does with the head it captured

  datatype Move =
    | Publish(changes: Tree)
    | Answer(result: WriteResult<Bytes>)
    | SettleFence
    | GiveUp

  function Blob(tree: Tree, path: Path): Option<Bytes> {
    if path in tree then Some(tree[path]) else None
  }

  /** `_read_fence_sidecar`: None also for a blob that is not a sidecar. */
  function TenureOf(n: Numerals, tree: Tree, key: Key): Option<Tenure> {
    if Sidecar(Sha256(key)) in tree then n.Parse(tree[Sidecar(Sha256(key))]) else None
  }

  /** The sidecar path of the key holds a blob that is no sidecar. */
  predicate ForeignAt(n: Numerals, tree: Tree, key: Key) {
    Sidecar(Sha256(key)) in tree && n.Parse(tree[Sidecar(Sha256(key))]).None?
  }

  /** The sidecar names this token as the owner. */
  predicate OwnedBy(n: Numerals, tree: Tree, key: Key, token: Token) {
    TenureOf(n, tree, key).Some? && TenureOf(n, tree, key).value.owner == Some(token)
  }

  predicate FenceOk(t: Tenure, lease: Lease, now: Time) {
    && t.owner == Some(lease.token)
    && now < t.expiry
    && lease.fence == t.fence
    && t.accepted <= lease.fence
  }

  /** Locks are taken with a fresh hexadecimal token. */
  predicate LegalToken(op: Register.Op<Bytes>) {
    op.Acquire? ==> Printable(Some(op.token)) && op.token != "None"
  }

  lemma TenureIsPrintable(n: Numerals, tree: Tree, key: Key)
    requires TenureOf(n, tree, key).Some?
    ensures Printable(TenureOf(n, tree, key).value.owner) && TenureOf(n, tree, key).value.owner != Some("None")
  {
    ParsedIsPrintable(n, tree[Sidecar(Sha256(key))]);
  }

  function NextMove(n: Numerals, op: Register.Op<Bytes>, tree: Tree, key: Key, now: Time): Move
    requires LegalToken(op)
  {
    var value := Blob(tree, Plain(key));
    var path := Sidecar(Sha256(key));
    var tenure := TenureOf(n, tree, key);
    match op
    case Create(body) =>
      if value.Some? then Answer(if value.value == body then Ok(Sha256(body)) else Exists(Sha256(value.value)))
      else Publish(map[Plain(key) := body])
    case Update(lease, expected, body) => (
      if tenure.None? || !FenceOk(tenure.value, lease, now) then SettleFence
      else if value != Some(expected.body) then Answer(Stale(VersionOf(value), Unspecified))
      else if !Register.Advances(Generations.Extract, expected.body, body) then
        Answer(Stale(VersionOf(value), Unspecified))
      else
        TenureIsPrintable(n, tree, key);
        Publish(map[Plain(key) := body, path := n.Encode(tenure.value.(accepted := lease.fence))]))
    case Acquire(token, until) => (
      if tenure.None? && path in tree then GiveUp
      else
        var (fence, accepted) := if tenure.None? then (0, 0) else (tenure.value.fence, tenure.value.accepted);
        Publish(map[path := n.Encode(Tenure(Some(token), until, Max(fence, accepted) + 1, accepted))]))
    case Extend(token, until) =>
      if tenure.None? || tenure.value.owner != Some(token) then GiveUp
      else
        TenureIsPrintable(n, tree, key);
        Publish(map[path := n.Encode(tenure.value.(expiry := until))])
  }

  /** The commit a call builds on the head it captured. */
  function Child(captured: Ref, changes: Tree, stamp: int): Commit {
    Commit(captured, TreeAt(captured) + changes, stamp)
  }

  // The register of one key, and what callers see

  function Meaning(n: Numerals, tree: Tree, key: Key): Register.Register<Bytes> {
    var value := Blob(tree, Plain(key));
    match TenureOf(n, tree, key)
    case None => Register.Register(value, None, 0, 0, 0)
    case Some(t) => Register.Register(value, t.owner, t.expiry, t.fence, t.accepted)
  }

  ghost predicate Inv(n: Numerals, tree: Tree) {
    forall key :: Register.Inv(Meaning(n, tree, key))
  }

  /** Only a sidecar-shaped path whose blob parses is hidden. */
  predicate Internal(n: Numerals, tree: Tree, path: Path)
    requires path in tree
  {
    path.Sidecar? && n.Parse(tree[path]).Some?
  }

  /** Everything `read` and `list` can return. */
  function View(n: Numerals, tree: Tree): Tree {
    map path | path in tree && !Internal(n, tree, path) :: tree[path]
  }

  /** Readers see every value of a key, and user data at a sidecar's path too; what a fence wrote they never see. */
  lemma ViewMeans(n: Numerals, tree: Tree, path: Path, t: Tenure)
    requires n.Lawful() && path in tree && Printable(t.owner) && t.owner != Some("None")
    ensures path.Plain? || n.Parse(tree[path]).None? ==> path in View(n, tree) && View(n, tree)[path] == tree[path]
    ensures path.Sidecar? && tree[path] == n.Encode(t) ==> path !in View(n, tree)
  {
    SidecarRoundTrip(n, t);
  }

  /** One call's commit, applied to the tree it was computed from. */
  lemma CommitIsOneOperation(n: Numerals, op: Register.Op<Bytes>, tree: Tree, key: Key, now: Time)
    requires n.Lawful() && LegalToken(op) && Inv(n, tree)
    requires NextMove(n, op, tree, key, now).Publish?
    ensures Register.Enabled(Generations.Extract, Meaning(n, tree, key), op)
    ensures Meaning(n, tree + NextMove(n, op, tree, key, now).changes, key) == Register.Apply(Meaning(n, tree, key), op)
  {
    var r := Meaning(n, tree, key);
    assert Register.Inv(r);
    match op {
      case Create(_) =>
      case Update(lease, _, _) =>
        TenureIsPrintable(n, tree, key);
        SidecarRoundTrip(n, TenureOf(n, tree, key).value.(accepted := lease.fence));
      case Acquire(token, until) =>
        SidecarRoundTrip(n, Tenure(Some(token), until, Max(r.fence, r.accepted) + 1, r.accepted));
      case Extend(_, until) =>
        TenureIsPrintable(n, tree, key);
        SidecarRoundTrip(n, TenureOf(n, tree, key).value.(expiry := until));
    }
  }

  function OpFor(pre: Precondition<Bytes>, body: Bytes): Register.Op<Bytes> {
    match pre
    case CreateOnly => Register.Create(body)
    case Overwrite(expected, lease) => Register.Update(lease, expected, body)
  }

  /** A write is decided as the shared rule decides it on the register the tree stands for. */
  lemma DecisionIsVerdict(n: Numerals, tree: Tree, key: Key, pre: Precondition<Bytes>, body: Bytes, now: Time)
    ensures match Register.Judge(Generations.Extract, Meaning(n, tree, key), pre, body, now)
      case Commit(op) => op == OpFor(pre, body) && NextMove(n, op, tree, key, now).Publish?
      case Refuse(result) =>
        NextMove(n, OpFor(pre, body), tree, key, now) ==
          if result.Stale? && result.reason == Fence then SettleFence else Answer(result)
  {
  }

  /** A commit touches its key and that key's sidecar, nothing else; an update touches both at once. */
  lemma CommitTouchesOnlyItsKey(n: Numerals, op: Register.Op<Bytes>, tree: Tree, key: Key, now: Time, path: Path)
    requires LegalToken(op) && NextMove(n, op, tree, key, now).Publish?
    ensures var after := tree + NextMove(n, op, tree, key, now).changes;
      && (path != Plain(key) && path != Sidecar(Sha256(key)) ==> Blob(after, path) == Blob(tree, path))
      && (op.Update? ==> {Plain(key), Sidecar(Sha256(key))} == NextMove(n, op, tree, key, now).changes.Keys)
      && (op.Create? ==> Blob(after, Sidecar(Sha256(key))) == Blob(tree, Sidecar(Sha256(key))))
  {
  }

  /** A blob at a sidecar path that is not a sidecar is never overwritten, whatever the call. */
  lemma ForeignBlobsKept(n: Numerals, op: Register.Op<Bytes>, tree: Tree, key: Key, now: Time, path: Path)
    requires LegalToken(op) && NextMove(n, op, tree, key, now).Publish?
    requires path in tree && path.Sidecar? && !Internal(n, tree, path)
    ensures Blob(tree + NextMove(n, op, tree, key, now).changes, path) == Some(tree[path])
  {
  }

  /** Locking and renewing are invisible: every read and listing is as before. */
  lemma FenceCommitsAreInvisible(n: Numerals, op: Register.Op<Bytes>, tree: Tree, key: Key, now: Time)
    requires n.Lawful() && LegalToken(op) && NextMove(n, op, tree, key, now).Publish?
    requires op.Acquire? || op.Extend?
    ensures View(n, tree + NextMove(n, op, tree, key, now).changes) == View(n, tree)
  {
    var path := Sidecar(Sha256(key));
    var after := tree + NextMove(n, op, tree, key, now).changes;
    var r := Meaning(n, tree, key);
    if op.Acquire? {
      SidecarRoundTrip(n, Tenure(Some(op.token), op.until, Max(r.fence, r.accepted) + 1, r.accepted));
    } else {
      TenureIsPrintable(n, tree, key);
      SidecarRoundTrip(n, TenureOf(n, tree, key).value.(expiry := op.until));
    }
    assert Internal(n, after, path);
    forall p
      ensures p in View(n, after) <==> p in View(n, tree)
      ensures p in View(n, tree) ==> View(n, after)[p] == View(n, tree)[p]
    {
      if p == path {
        assert p in tree ==> Internal(n, tree, p);
      }
    }
  }

  /** A write, as `read` and `list` see it: its own key, and nothing else. */
  lemma WriteCommitsShowOneKey(n: Numerals, op: Register.Op<Bytes>, tree: Tree, key: Key, now: Time)
    requires n.Lawful() && LegalToken(op) && NextMove(n, op, tree, key, now).Publish?
    requires op.Create? || op.Update?
    ensures View(n, tree + NextMove(n, op, tree, key, now).changes) == View(n, tree)[Plain(key) := op.body]
  {
    var path := Sidecar(Sha256(key));
    var after := tree + NextMove(n, op, tree, key, now).changes;
    if op.Update? {
      TenureIsPrintable(n, tree, key);
      SidecarRoundTrip(n, TenureOf(n, tree, key).value.(accepted := op.lease.fence));
      assert Internal(n, after, path) && Internal(n, tree, path);
    }
    var want := View(n, tree)[Plain(key) := op.body];
    forall p
      ensures p in View(n, after) <==> p in want
      ensures p in want ==> View(n, after)[p] == want[p]
    {
    }
  }

  // The system of all clients

  /** One push by some client: its head was captured at some earlier point of the ref's history. */
  datatype Push = Push(key: Key, op: Register.Op<Bytes>, captured: Ref, now: Time, stamp: int)

  ghost predicate PushStep(n: Numerals, ref: Ref, ref': Ref, p: Push) {
    && LegalToken(p.op)
    && AncestorOrEqual(p.captured, ref)
    && var move := NextMove(n, p.op, TreeAt(p.captured), p.key, p.now);
       && move.Publish?
       && var next := Child(p.captured, move.changes, p.stamp);
          ref' == if FastForward(ref, next) then Some(next) else ref
  }

  ghost predicate Step(n: Numerals, ref: Ref, ref': Ref) {
    exists p :: PushStep(n, ref, ref', p)
  }

  /** Every push that moves the ref is one register operation on its key and invisible to the others. */
  lemma StepRefines(n: Numerals, ref: Ref, ref': Ref, p: Push)
    requires n.Lawful() && Inv(n, TreeAt(ref)) && PushStep(n, ref, ref', p)
    ensures Inv(n, TreeAt(ref')) && AncestorOrEqual(ref, ref')
    ensures ref' != ref ==>
      && ref == p.captured
      && Register.Enabled(Generations.Extract, Meaning(n, TreeAt(ref), p.key), p.op)
      && Meaning(n, TreeAt(ref'), p.key) == Register.Apply(Meaning(n, TreeAt(ref), p.key), p.op)
    ensures forall k :: k != p.key ==> Meaning(n, TreeAt(ref'), k) == Meaning(n, TreeAt(ref), k)
  {
    var move := NextMove(n, p.op, TreeAt(p.captured), p.key, p.now);
    var next := Child(p.captured, move.changes, p.stamp);
    PushLandsIffUnmoved(ref, p.captured, next);
    if ref' != ref {
      CommitIsOneOperation(n, p.op, TreeAt(ref), p.key, p.now);
      forall k | k != p.key
        ensures Meaning(n, TreeAt(ref'), k) == Meaning(n, TreeAt(ref), k)
      {
        CommitTouchesOnlyItsKey(n, p.op, TreeAt(ref), p.key, p.now, Plain(k));
        CommitTouchesOnlyItsKey(n, p.op, TreeAt(ref), p.key, p.now, Sidecar(Sha256(k)));
      }
      Register.StepEffects(Generations.Extract, Meaning(n, TreeAt(ref), p.key), Meaning(n, TreeAt(ref'), p.key));
      assert forall k :: Register.Inv(Meaning(n, TreeAt(ref'), k));
    }
  }

  ghost predicate Run(n: Numerals, refs: seq<Ref>) {
    forall i :: 0 <= i < |refs| - 1 ==> Step(n, refs[i], refs[i + 1])
  }

  function History(n: Numerals, refs: seq<Ref>, key: Key): (rs: seq<Register.Register<Bytes>>)
    ensures |rs| == |refs|
  {
    seq(|refs|, i requires 0 <= i < |refs| => Meaning(n, TreeAt(refs[i]), key))
  }

  lemma {:induction false} RunKeepsInv(n: Numerals, refs: seq<Ref>, i: nat)
    requires n.Lawful() && Run(n, refs) && i < |refs| && Inv(n, TreeAt(refs[0]))
    ensures Inv(n, TreeAt(refs[i])) && AncestorOrEqual(refs[0], refs[i])
  {
    if i > 0 {
      RunKeepsInv(n, refs, i - 1);
      assert Step(n, refs[i - 1], refs[i - 1 + 1]);
      var p :| PushStep(n, refs[i - 1], refs[i], p);
      StepRefines(n, refs[i - 1], refs[i], p);
      AncestorsChain(refs[0], refs[i - 1], refs[i]);
    }
  }

  /** Every run of pushes is, key by key, a run of the register; and the ref's history is never rewritten. */
  lemma RunRefines(n: Numerals, refs: seq<Ref>, key: Key)
    requires n.Lawful() && Run(n, refs) && |refs| > 0 && Inv(n, TreeAt(refs[0]))
    ensures Register.Run(Generations.Extract, History(n, refs, key))
    ensures forall i :: 0 <= i < |refs| ==> AncestorOrEqual(refs[0], refs[i])
  {
    forall i | 0 <= i < |refs|
      ensures AncestorOrEqual(refs[0], refs[i])
    {
      RunKeepsInv(n, refs, i);
    }
    var rs := History(n, refs, key);
    forall i | 0 <= i < |rs| - 1
      ensures Register.StutterStep(Generations.Extract, rs[i], rs[i + 1])
    {
      RunKeepsInv(n, refs, i);
      assert Step(n, refs[i], refs[i + 1]);
      var p :| PushStep(n, refs[i], refs[i + 1], p);
      StepRefines(n, refs[i], refs[i + 1], p);
      if p.key == key && refs[i + 1] != refs[i] {
        assert Register.Step(Generations.Extract, rs[i], rs[i + 1]);
      }
    }
  }

  /** User data at a sidecar path survives every run. */
  lemma {:induction false} ForeignBlobsSurvive(n: Numerals, refs: seq<Ref>, i: nat, path: Path)
    requires n.Lawful() && Run(n, refs) && i < |refs|
    requires path.Sidecar? && path in TreeAt(refs[0]) && !Internal(n, TreeAt(refs[0]), path)
    ensures Blob(TreeAt(refs[i]), path) == Some(TreeAt(refs[0])[path])
  {
    if i > 0 {
      ForeignBlobsSurvive(n, refs, i - 1, path);
      assert Step(n, refs[i - 1], refs[i - 1 + 1]);
      var p :| PushStep(n, refs[i - 1], refs[i], p);
      if refs[i] != refs[i - 1] {
        PushLandsIffUnmoved(refs[i - 1], p.captured, refs[i].value);
        ForeignBlobsKept(n, p.op, TreeAt(refs[i - 1]), p.key, p.now, path);
      }
    }
  }
}
