/**
  The object-store protocol: what a call does next after each GET, and the system of all clients.
  Every mutation is a conditional PUT computed from one earlier GET. Requests may be delayed,
  repeated, lost or overtaken without limit; the server checks If-None-Match and If-Match
  (sections 13.1.1 and 13.1.2 of RFC 9110) when a request arrives.
*/
module ObjectStore {
  import opened Types
  import opened Envelopes
  import Register
  import Generations

  datatype Stored = Stored(etag: nat, raw: Bytes, meta: Option<string>)

  datatype Condition = IfNoneMatch | IfMatch(etag: nat)

  datatype Call =
    | CreateCall(body: Bytes)
    | UpdateCall(lease: Lease, expected: Version<Bytes>, body: Bytes)
    | LockCall(token: Token, until: Time)
    | RenewCall(token: Token, until: Time)

  /** What a call does with the object it just read. */
  datatype Move =
    | Put(cond: Condition, header: Header, body: Bytes)
    | Answer(result: WriteResult<Bytes>)
    | CompareRaw   // a create met a foreign object: compare raw content
    | SettleFence  // an update lost its fence: settle, then STALE
    | GiveUp       // lock or renew cannot proceed on this object

  function NewHeader(body: Bytes): Header {
    Header(None, 0, 0, 0, Some(Sha256(body)))
  }

  predicate FenceOk(h: Header, lease: Lease, now: Time) {
    && h.owner == Some(lease.token)
    && now < h.expiry
    && lease.fence == h.fence
    && h.accepted <= lease.fence
  }

  function NextMove(c: Codec, call: Call, got: Option<Stored>, now: Time): Move {
    match call
    case CreateCall(body) => (
      if got.None? then Put(IfNoneMatch, NewHeader(body), body)
      else match c.Interpret(got.value.raw, got.value.meta)
        case Corrupt => Answer(Error(Corruption))
        case Foreign => CompareRaw
        case Envelope(h, _) =>
          if h.version.None? then Put(IfMatch(got.value.etag), h.(version := Some(Sha256(body))), body)
          else if h.version.value == Sha256(body) then Answer(Ok(Sha256(body)))
          else Answer(Exists(h.version.value)))
    case UpdateCall(lease, expected, body) => (
      if got.None? then Answer(Stale(None, Unspecified))
      else match c.Interpret(got.value.raw, got.value.meta)
        case Corrupt => Answer(Error(Corruption))
        case Foreign => Answer(Error(ConflictUnknown))
        case Envelope(h, current) =>
          if !FenceOk(h, lease, now) then SettleFence
          else if h.version != Some(expected) then Answer(Stale(h.version, Unspecified))
          else if !Register.Advances(Generations.Extract, current, body) then Answer(Stale(h.version, Unspecified))
          else Put(IfMatch(got.value.etag), h.(accepted := lease.fence, version := Some(Sha256(body))), body))
    case LockCall(token, until) => (
      if got.None? then Put(IfNoneMatch, Header(Some(token), until, 1, 0, None), [])
      else match c.Interpret(got.value.raw, got.value.meta)
        case Corrupt => GiveUp
        case Foreign => GiveUp
        case Envelope(h, body) =>
          Put(IfMatch(got.value.etag),
              h.(owner := Some(token), expiry := until, fence := Max(h.fence, h.accepted) + 1), body))
    case RenewCall(token, until) =>
      if got.None? then GiveUp
      else match c.Interpret(got.value.raw, got.value.meta)
        case Corrupt => GiveUp
        case Foreign => GiveUp
        case Envelope(h, body) =>
          if h.owner != Some(token) then GiveUp
          else Put(IfMatch(got.value.etag), h.(expiry := until), body)
  }

  function OpOf(call: Call): Register.Op<Bytes> {
    match call
    case CreateCall(body) => Register.Create(body)
    case UpdateCall(lease, expected, body) => Register.Update(lease, expected, body)
    case LockCall(token, until) => Register.Acquire(token, until)
    case RenewCall(token, until) => Register.Extend(token, until)
  }

  /** The register an object stands for; foreign and corrupt objects stand for none. */
  function Meaning(c: Codec, o: Option<Stored>): Option<Register.Register<Bytes>> {
    match o
    case None => Some(Register.Fresh())
    case Some(s) =>
      match c.Interpret(s.raw, s.meta)
      case Foreign => None
      case Corrupt => None
      case Envelope(h, body) => Some(RegisterOf(h, body))
  }

  function RegisterOf(h: Header, body: Bytes): Register.Register<Bytes> {
    Register.Register(if h.version.None? then None else Some(body), h.owner, h.expiry, h.fence, h.accepted)
  }

  /** The object a PUT of this header and body creates. */
  function Written(c: Codec, etag: nat, h: Header, body: Bytes): Stored {
    Stored(etag, c.Encode(h, body), Some(c.MetaOf(h)))
  }

  /** An envelope this adapter sent: header, body and metadata agree. */
  ghost predicate AdapterWrote(c: Codec, s: Stored) {
    exists h, body :: Describes(h, body) && c.Fits(h) && s.raw == c.Encode(h, body) && s.meta == Some(c.MetaOf(h))
  }

  function CallFor(pre: Precondition<Bytes>, body: Bytes): Call {
    match pre
    case CreateOnly => CreateCall(body)
    case Overwrite(expected, lease) => UpdateCall(lease, expected, body)
  }

  /**
    A write is decided as the shared rule decides it on the register the object stands for; only an
    update of an absent key is STALE without a reason here, before any fence is looked at.
  */
  lemma DecisionIsVerdict(c: Codec, got: Option<Stored>, pre: Precondition<Bytes>, body: Bytes, now: Time)
    requires Meaning(c, got).Some?
    ensures match Register.Judge(Generations.Extract, Meaning(c, got).value, pre, body, now)
      case Commit(op) => op == OpOf(CallFor(pre, body)) && NextMove(c, CallFor(pre, body), got, now).Put?
      case Refuse(result) =>
        NextMove(c, CallFor(pre, body), got, now) ==
          if pre.Overwrite? && got.None? then Answer(Stale(None, Unspecified))
          else if result.Stale? && result.reason == Fence then SettleFence
          else Answer(result)
  {
    if got.Some? {
      InterpretIsHonest(c, got.value.raw, got.value.meta);
    }
  }

  /**
    The heart of the refinement: a PUT computed from a GET, applied to the object that GET saw,
    is exactly the call's own register operation, enabled there.
  */
  lemma PutIsOneOperation(c: Codec, call: Call, got: Option<Stored>, now: Time, etag: nat)
    requires c.Lawful()
    requires NextMove(c, call, got, now).Put?
    requires c.Fits(NextMove(c, call, got, now).header)
    requires Meaning(c, got).Some? ==> Register.Inv(Meaning(c, got).value)
    ensures Meaning(c, got).Some?
    ensures Register.Enabled(Generations.Extract, Meaning(c, got).value, OpOf(call))
    ensures var m := NextMove(c, call, got, now);
      && Describes(m.header, m.body)
      && Meaning(c, Some(Written(c, etag, m.header, m.body))) ==
           Some(Register.Apply(Meaning(c, got).value, OpOf(call)))
  {
    var m := NextMove(c, call, got, now);
    if got.Some? {
      InterpretIsHonest(c, got.value.raw, got.value.meta);
    }
    InterpretCurrent(c, m.header, m.body);
  }

  // The system of all clients

  datatype Request = Request(key: Key, call: Call, cond: Condition, header: Header, body: Bytes)

  /** `sent` holds every PUT any client ever computed; it only grows, so requests may arrive late or twice. */
  datatype World = World(bucket: map<Key, Stored>, nextEtag: nat, sent: set<Request>)

  function Lookup(bucket: map<Key, Stored>, key: Key): Option<Stored> {
    if key in bucket then Some(bucket[key]) else None
  }

  predicate Computed(c: Codec, r: Request, got: Option<Stored>, now: Time) {
    NextMove(c, r.call, got, now) == Put(r.cond, r.header, r.body)
  }

  /** A client reads a key and computes a PUT; a create may also send its first PUT without reading. */
  ghost predicate Issue(c: Codec, w: World, w': World) {
    exists r: Request, now: Time ::
      && c.Fits(r.header)
      && (Computed(c, r, Lookup(w.bucket, r.key), now) || (r.call.CreateCall? && Computed(c, r, None, now)))
      && w' == w.(sent := w.sent + {r})
  }

  predicate Passes(cond: Condition, o: Option<Stored>) {
    match cond
    case IfNoneMatch => o.None?
    case IfMatch(etag) => o.Some? && o.value.etag == etag
  }

  function Land(c: Codec, w: World, r: Request): World {
    w.(bucket := w.bucket[r.key := Written(c, w.nextEtag, r.header, r.body)], nextEtag := w.nextEtag + 1)
  }

  /** A request arrives; a failed precondition (412) changes nothing. */
  ghost predicate Deliver(c: Codec, w: World, w': World) {
    exists r :: r in w.sent && w' == if Passes(r.cond, Lookup(w.bucket, r.key)) then Land(c, w, r) else w
  }

  ghost predicate Next(c: Codec, w: World, w': World) {
    Issue(c, w, w') || Deliver(c, w, w') || w' == w
  }

  ghost predicate Run(c: Codec, ws: seq<World>) {
    forall i :: 0 <= i < |ws| - 1 ==> Next(c, ws[i], ws[i + 1])
  }

  function MeaningAt(c: Codec, w: World, key: Key): Option<Register.Register<Bytes>> {
    Meaning(c, Lookup(w.bucket, key))
  }

  /** The request matches what some GET of the current object, or of no object, would compute. */
  ghost predicate Justified(c: Codec, w: World, r: Request) {
    && c.Fits(r.header)
    && match r.cond
       case IfNoneMatch => exists now :: Computed(c, r, None, now)
       case IfMatch(etag) =>
         && etag < w.nextEtag
         && (r.key in w.bucket && w.bucket[r.key].etag == etag ==>
               exists now :: Computed(c, r, Some(w.bucket[r.key]), now))
  }

  ghost predicate Inv(c: Codec, w: World) {
    && (forall k :: k in w.bucket ==> w.bucket[k].etag < w.nextEtag)
    && (forall k :: MeaningAt(c, w, k).Some? ==> Register.Inv(MeaningAt(c, w, k).value))
    && (forall r :: r in w.sent ==> Justified(c, w, r))
  }

  /** Start anywhere: empty, legacy, foreign and enveloped objects in any mix, with no request under way. */
  ghost predicate Start(c: Codec, w: World) {
    && w.sent == {}
    && (forall k :: k in w.bucket ==> w.bucket[k].etag < w.nextEtag)
    && (forall k :: MeaningAt(c, w, k).Some? ==> Register.Inv(MeaningAt(c, w, k).value))
  }

  lemma IssueKeepsInv(c: Codec, w: World, w': World)
    requires c.Lawful() && Inv(c, w) && Issue(c, w, w')
    ensures Inv(c, w')
    ensures w'.bucket == w.bucket
  {
    var r: Request, now: Time :|
      && c.Fits(r.header)
      && (Computed(c, r, Lookup(w.bucket, r.key), now) || (r.call.CreateCall? && Computed(c, r, None, now)))
      && w' == w.(sent := w.sent + {r});
    assert Justified(c, w', r);
    forall q | q in w'.sent ensures Justified(c, w', q) {
      if q != r { assert Justified(c, w, q); }
    }
    forall k ensures MeaningAt(c, w', k) == MeaningAt(c, w, k) {}
  }

  /** A request that lands changes one key, by exactly its call's operation. */
  lemma LandingIsOneOperation(c: Codec, w: World, r: Request)
    requires c.Lawful() && Inv(c, w) && r in w.sent && Passes(r.cond, Lookup(w.bucket, r.key))
    ensures MeaningAt(c, w, r.key).Some?
    ensures Register.Enabled(Generations.Extract, MeaningAt(c, w, r.key).value, OpOf(r.call))
    ensures MeaningAt(c, Land(c, w, r), r.key) == Some(Register.Apply(MeaningAt(c, w, r.key).value, OpOf(r.call)))
    ensures forall k :: k != r.key ==> Lookup(Land(c, w, r).bucket, k) == Lookup(w.bucket, k)
    ensures AdapterWrote(c, Land(c, w, r).bucket[r.key])
  {
    assert Justified(c, w, r);
    var now :| Computed(c, r, Lookup(w.bucket, r.key), now);
    assert MeaningAt(c, w, r.key).Some? ==> Register.Inv(MeaningAt(c, w, r.key).value);
    PutIsOneOperation(c, r.call, Lookup(w.bucket, r.key), now, w.nextEtag);
  }

  lemma LandKeepsInv(c: Codec, w: World, r: Request)
    requires c.Lawful() && Inv(c, w) && r in w.sent && Passes(r.cond, Lookup(w.bucket, r.key))
    ensures Inv(c, Land(c, w, r))
  {
    var w' := Land(c, w, r);
    LandingIsOneOperation(c, w, r);
    forall q | q in w'.sent ensures Justified(c, w', q) {
      assert Justified(c, w, q);
    }
    forall k | MeaningAt(c, w', k).Some? ensures Register.Inv(MeaningAt(c, w', k).value) {
      if k == r.key {
        var before, after := MeaningAt(c, w, k).value, MeaningAt(c, w', k).value;
        assert Register.Step(Generations.Extract, before, after);
        Register.StepEffects(Generations.Extract, before, after);
      } else {
        assert MeaningAt(c, w', k) == MeaningAt(c, w, k);
      }
    }
  }

  /** What one step of the whole system does to one key. */
  ghost predicate Refines(c: Codec, w: World, w': World, key: Key) {
    match MeaningAt(c, w, key)
    case None => Lookup(w'.bucket, key) == Lookup(w.bucket, key)
    case Some(r) =>
      && MeaningAt(c, w', key).Some?
      && Register.StutterStep(Generations.Extract, r, MeaningAt(c, w', key).value)
  }

  lemma LandingRefines(c: Codec, w: World, r: Request, key: Key)
    requires c.Lawful() && Inv(c, w) && r in w.sent && Passes(r.cond, Lookup(w.bucket, r.key))
    ensures Refines(c, w, Land(c, w, r), key)
  {
    LandingIsOneOperation(c, w, r);
    if key == r.key {
      assert Register.Step(Generations.Extract, MeaningAt(c, w, key).value, MeaningAt(c, Land(c, w, r), key).value);
    } else {
      assert Lookup(Land(c, w, r).bucket, key) == Lookup(w.bucket, key);
    }
  }

  /** Refinement: every step of every interleaving is, per key, at most one register operation. */
  lemma StepRefines(c: Codec, w: World, w': World)
    requires c.Lawful() && Inv(c, w) && Next(c, w, w')
    ensures Inv(c, w')
    ensures forall key :: Refines(c, w, w', key)
    ensures forall j, k :: (
      && Lookup(w'.bucket, j) != Lookup(w.bucket, j)
      && Lookup(w'.bucket, k) != Lookup(w.bucket, k)) ==> j == k
  {
    if Issue(c, w, w') {
      IssueKeepsInv(c, w, w');
      forall key
        ensures Refines(c, w, w', key)
      {
        BucketRefines(c, w, w', key);
      }
    } else if Deliver(c, w, w') {
      var r :| r in w.sent && w' == if Passes(r.cond, Lookup(w.bucket, r.key)) then Land(c, w, r) else w;
      if Passes(r.cond, Lookup(w.bucket, r.key)) {
        LandKeepsInv(c, w, r);
        forall key
          ensures Refines(c, w, w', key)
        {
          LandingRefines(c, w, r, key);
        }
      }
    }
  }

  lemma BucketRefines(c: Codec, w: World, w': World, key: Key)
    requires w'.bucket == w.bucket
    ensures Refines(c, w, w', key)
  {
  }

  lemma {:induction false} RunKeepsInv(c: Codec, ws: seq<World>, i: nat)
    requires c.Lawful() && Run(c, ws) && i < |ws| && Start(c, ws[0])
    ensures Inv(c, ws[i])
  {
    if i > 0 {
      RunKeepsInv(c, ws, i - 1);
      assert Next(c, ws[i - 1], ws[i - 1 + 1]);
      StepRefines(c, ws[i - 1], ws[i]);
    }
  }

  /** The register history of one key along a run of the system. */
  ghost function History(c: Codec, ws: seq<World>, key: Key): (rs: seq<Register.Register<Bytes>>)
    requires forall i :: 0 <= i < |ws| ==> MeaningAt(c, ws[i], key).Some?
    ensures |rs| == |ws|
  {
    seq(|ws|, i requires 0 <= i < |ws| => MeaningAt(c, ws[i], key).value)
  }

  lemma {:induction false} StaysMeaningful(c: Codec, ws: seq<World>, key: Key, i: nat)
    requires c.Lawful() && Run(c, ws) && i < |ws| && Start(c, ws[0])
    requires MeaningAt(c, ws[0], key).Some?
    ensures MeaningAt(c, ws[i], key).Some?
  {
    if i > 0 {
      StaysMeaningful(c, ws, key, i - 1);
      RunKeepsInv(c, ws, i - 1);
      assert Next(c, ws[i - 1], ws[i - 1 + 1]);
      StepRefines(c, ws[i - 1], ws[i]);
      assert Refines(c, ws[i - 1], ws[i], key);
    }
  }

  /**
    The object store implements the register: for any number of clients and any interleaving,
    the history of every key that starts absent, legacy or enveloped is a run of the register.
  */
  lemma RunRefines(c: Codec, ws: seq<World>, key: Key)
    requires c.Lawful() && Run(c, ws) && ws != [] && Start(c, ws[0])
    requires MeaningAt(c, ws[0], key).Some?
    ensures forall i :: 0 <= i < |ws| ==> MeaningAt(c, ws[i], key).Some?
    ensures Register.Run(Generations.Extract, History(c, ws, key))
    ensures Register.Inv(History(c, ws, key)[0])
  {
    forall i | 0 <= i < |ws| ensures MeaningAt(c, ws[i], key).Some? {
      StaysMeaningful(c, ws, key, i);
    }
    var rs := History(c, ws, key);
    forall i | 0 <= i < |rs| - 1 ensures Register.StutterStep(Generations.Extract, rs[i], rs[i + 1]) {
      RunKeepsInv(c, ws, i);
      assert Next(c, ws[i], ws[i + 1]);
      StepRefines(c, ws[i], ws[i + 1]);
      assert Refines(c, ws[i], ws[i + 1], key);
    }
  }

  /** A foreign or corrupt object is never touched, whatever the clients do. */
  lemma {:induction false} ForeignUntouched(c: Codec, ws: seq<World>, key: Key, i: nat)
    requires c.Lawful() && Run(c, ws) && i < |ws| && Start(c, ws[0])
    requires MeaningAt(c, ws[0], key).None?
    ensures Lookup(ws[i].bucket, key) == Lookup(ws[0].bucket, key)
  {
    if i > 0 {
      ForeignUntouched(c, ws, key, i - 1);
      RunKeepsInv(c, ws, i - 1);
      assert Next(c, ws[i - 1], ws[i - 1 + 1]);
      StepRefines(c, ws[i - 1], ws[i]);
      assert Refines(c, ws[i - 1], ws[i], key);
    }
  }

  /** ABA freedom at the object store: a replaced numbered body never becomes current again. */
  lemma NoBodyRecurs(c: Codec, ws: seq<World>, key: Key, i: nat, m: nat, j: nat)
    requires c.Lawful() && Run(c, ws) && i <= m <= j < |ws| && Start(c, ws[0])
    requires MeaningAt(c, ws[0], key).Some?
    requires forall n :: 0 <= n < |ws| ==>
      var m := MeaningAt(c, ws[n], key);
      m.Some? && m.value.value.Some? ==> Generations.Extract(m.value.value.value).Some?
    requires MeaningAt(c, ws[i], key).Some? && MeaningAt(c, ws[m], key).Some?
    requires MeaningAt(c, ws[i], key).value.value.Some?
    requires MeaningAt(c, ws[m], key).value.value != MeaningAt(c, ws[i], key).value.value
    ensures MeaningAt(c, ws[j], key).Some?
    ensures MeaningAt(c, ws[j], key).value.value != MeaningAt(c, ws[i], key).value.value
  {
    RunRefines(c, ws, key);
    var rs := History(c, ws, key);
    Register.RunMonotone(Generations.Extract, rs, 0, i);
    Register.NoRecurrence(Generations.Extract, rs, i, m, j);
  }

  // Listing

  /** Written by this adapter, by the previous one, or litter that carries no version metadata. */
  ghost predicate Tame(c: Codec, s: Stored) {
    || AdapterWrote(c, s)
    || s.meta == Some(c.hex(Sha256(s.raw)))
    || ((s.meta.None? || s.meta == Some("")) && !c.Interpret(s.raw, s.meta).Envelope?)
  }

  /** `read`: the logical value; phantoms and absent objects read as nothing, the rest raises. */
  function Read(c: Codec, bucket: map<Key, Stored>, key: Key): Option<Bytes> {
    match Meaning(c, Lookup(bucket, key))
    case None => None
    case Some(r) => r.value
  }

  /** `list("")`: one HEAD per object, keeping those with non-empty version metadata. */
  function Listed(bucket: map<Key, Stored>): set<Key> {
    set k | k in bucket && bucket[k].meta.Some? && bucket[k].meta.value != ""
  }

  /** Listing and reading agree, key by key, on every bucket the two adapters and probe litter can produce. */
  lemma ListedIffReadable(c: Codec, bucket: map<Key, Stored>, key: Key)
    requires c.Lawful() && forall k :: k in bucket ==> Tame(c, bucket[k])
    ensures key in Listed(bucket) <==> Read(c, bucket, key).Some?
  {
    if key in bucket {
      var s := bucket[key];
      if AdapterWrote(c, s) {
        var h, body :| Describes(h, body) && c.Fits(h) && s.raw == c.Encode(h, body) && s.meta == Some(c.MetaOf(h));
        InterpretCurrent(c, h, body);
      }
    }
  }

  /** Tameness is kept by every step, so the agreement holds along every run. */
  lemma StepKeepsTame(c: Codec, w: World, w': World)
    requires c.Lawful() && Inv(c, w) && Next(c, w, w')
    requires forall k :: k in w.bucket ==> Tame(c, w.bucket[k])
    ensures forall k :: k in w'.bucket ==> Tame(c, w'.bucket[k])
  {
    if Issue(c, w, w') {
      IssueKeepsInv(c, w, w');
    } else if Deliver(c, w, w') {
      var r :| r in w.sent && w' == if Passes(r.cond, Lookup(w.bucket, r.key)) then Land(c, w, r) else w;
      if Passes(r.cond, Lookup(w.bucket, r.key)) {
        LandingIsOneOperation(c, w, r);
        assert Tame(c, w'.bucket[r.key]);
      }
    }
  }
}
