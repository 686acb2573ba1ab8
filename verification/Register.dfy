/**
  The fenced register: what one key of the store is, whatever the storage behind it.
  It is the state FakeBackend keeps per key, with every operation a single atomic step,
  plus the generation guard the durable backends add.
*/
module Register {
  import opened Types

  datatype Register<+B> = Register(
    value: Option<B>,
    owner: Option<Token>,
    expiry: Time,
    fence: nat,      // the fence allocated to the current owner
    accepted: nat)   // the fence of the last update that committed

  datatype Op<+B> =
    | Create(body: B)
    | Update(lease: Lease, expected: Version<B>, body: B)
    | Acquire(token: Token, until: Time)
    | Extend(token: Token, until: Time)

  /** A key nobody has locked or written. */
  function Fresh<B>(): Register<B> {
    Register(None, None, 0, 0, 0)
  }

  /** The lease is exactly the one the newest acquisition allocated. */
  predicate Owns<B>(r: Register<B>, lease: Lease) {
    && r.owner == Some(lease.token)
    && lease.fence == r.fence
    && lease.fence >= r.accepted
  }

  /** Two numbered bodies may follow each other only with a strictly larger number. */
  predicate Advances<B>(gen: B -> Option<nat>, before: B, after: B) {
    gen(after).Some? && gen(before).Some? ==> gen(before).value < gen(after).value
  }

  predicate Enabled<B(==)>(gen: B -> Option<nat>, r: Register<B>, op: Op<B>) {
    match op
    case Create(_) => r.value.None?
    case Update(lease, expected, body) =>
      Owns(r, lease) && r.value == Some(expected.body) && Advances(gen, expected.body, body)
    case Acquire(_, _) => true
    case Extend(token, _) => r.owner == Some(token)
  }

  function Apply<B>(r: Register<B>, op: Op<B>): Register<B> {
    match op
    case Create(body) => r.(value := Some(body), accepted := 0)
    case Update(lease, _, body) => r.(value := Some(body), accepted := lease.fence)
    case Acquire(token, until) =>
      r.(owner := Some(token), expiry := until, fence := Max(r.fence, r.accepted) + 1)
    case Extend(_, until) => r.(expiry := until)
  }

  /** What a conditional write meets: a refusal with its result, or the operation that commits it. */
  datatype Verdict<+B> = Refuse(result: WriteResult<B>) | Commit(op: Op<B>)

  /**
    The write rule every backend shares: create-only never replaces, an update is checked for
    ownership first, then for the expected version, then for its generation.
  */
  function Judge<B(==)>(gen: B -> Option<nat>, r: Register<B>, pre: Precondition<B>, body: B, now: Time): Verdict<B> {
    match pre
    case CreateOnly =>
      if r.value.None? then Commit(Create(body))
      else if r.value.value == body then Refuse(Ok(Sha256(body)))
      else Refuse(Exists(Sha256(r.value.value)))
    case Overwrite(expected, lease) =>
      if !Owns(r, lease) || r.expiry <= now then Refuse(Stale(VersionOf(r.value), Fence))
      else if r.value != Some(expected.body) then Refuse(Stale(VersionOf(r.value), Unspecified))
      else if !Advances(gen, expected.body, body) then Refuse(Stale(VersionOf(r.value), Unspecified))
      else Commit(Update(lease, expected, body))
  }

  /** A committed write is one enabled step that stores exactly the body, under the newest lease. */
  lemma JudgeCommits<B>(gen: B -> Option<nat>, r: Register<B>, pre: Precondition<B>, body: B, now: Time)
    requires Judge(gen, r, pre, body, now).Commit?
    ensures Enabled(gen, r, Judge(gen, r, pre, body, now).op)
    ensures Apply(r, Judge(gen, r, pre, body, now).op).value == Some(body)
    ensures pre.Overwrite? ==> pre.lease.fence == r.fence && now < r.expiry && VersionOf(r.value) == Some(pre.expected)
    ensures pre.CreateOnly? ==> r.value.None?
  {
  }

  /**
    A write commits exactly when it should: a create where there is no value; an update under the newest
    lease before its time is up, over the version it names, with a body that may follow it.
  */
  lemma JudgeIsExact<B>(gen: B -> Option<nat>, r: Register<B>, pre: Precondition<B>, body: B, now: Time)
    ensures var verdict := Judge(gen, r, pre, body, now);
      match pre
      case CreateOnly =>
        && (verdict.Commit? <==> r.value.None?)
        && (verdict == Refuse(Ok(Sha256(body))) <==> r.value == Some(body))
        && (verdict.Refuse? && r.value != Some(body) ==> verdict.result == Exists(VersionOf(r.value).value))
      case Overwrite(expected, lease) =>
        && (verdict.Commit? <==>
              && r.owner == Some(lease.token) && r.fence == lease.fence && r.accepted <= lease.fence && now < r.expiry
              && VersionOf(r.value) == Some(expected) && Advances(gen, r.value.value, body))
        && (verdict.Refuse? ==> verdict.result.Stale? && verdict.result.current == VersionOf(r.value))
        && (verdict.Refuse? ==> (verdict.result.reason == Fence <==> !Owns(r, lease) || r.expiry <= now))
  {
  }

  /**
    What an acquisition is good for: under the lease it allocates, an update of the version that is there
    commits at every time before the agreed one, and at none from then on. The lease is then still good.
  */
  lemma LeaseWorks<B>(gen: B -> Option<nat>, r: Register<B>, key: Key, token: Token, until: Time, body: B, now: Time)
    requires r.value.Some? && Advances(gen, r.value.value, body)
    ensures var held := Apply(r, Acquire(token, until));
      var lease := Lease(key, token, held.fence);
      var verdict := Judge(gen, held, Overwrite(Sha256(r.value.value), lease), body, now);
      && (verdict.Commit? <==> now < until)
      && (verdict.Commit? ==>
            && Apply(held, verdict.op).value == Some(body)
            && Owns(Apply(held, verdict.op), lease) && Apply(held, verdict.op).expiry == until)
  {
  }

  /** An extension moves that time and nothing else. */
  lemma ExtensionWorks<B>(gen: B -> Option<nat>, r: Register<B>, lease: Lease, until: Time, body: B, now: Time)
    requires Owns(r, lease) && r.value.Some? && Advances(gen, r.value.value, body)
    ensures Enabled(gen, r, Extend(lease.token, until))
    ensures var longer := Apply(r, Extend(lease.token, until));
      && longer.value == r.value && longer.fence == r.fence && longer.accepted == r.accepted
      && (Judge(gen, longer, Overwrite(Sha256(r.value.value), lease), body, now).Commit? <==> now < until)
  {
  }

  ghost predicate Step<B(!new)>(gen: B -> Option<nat>, r: Register<B>, r': Register<B>) {
    exists op :: Enabled(gen, r, op) && r' == Apply(r, op)
  }

  /** One observation to the next: nothing happened, or exactly one operation did. */
  ghost predicate StutterStep<B(!new)>(gen: B -> Option<nat>, r: Register<B>, r': Register<B>) {
    r' == r || Step(gen, r, r')
  }

  ghost predicate Run<B(!new)>(gen: B -> Option<nat>, rs: seq<Register<B>>) {
    forall i :: 0 <= i < |rs| - 1 ==> StutterStep(gen, rs[i], rs[i + 1])
  }

  /** Fences are consumed only after they were allocated, and never before the first value. */
  predicate Inv<B>(r: Register<B>) {
    r.accepted <= r.fence && (r.value.None? ==> r.accepted == 0)
  }

  /** Everything one step can do to the value and the two counters. */
  lemma StepEffects<B(!new)>(gen: B -> Option<nat>, r: Register<B>, r': Register<B>)
    requires StutterStep(gen, r, r') && Inv(r)
    ensures Inv(r')
    ensures r.fence <= r'.fence && r.accepted <= r'.accepted
    ensures r.value.Some? ==> r'.value.Some?
    ensures r'.owner != r.owner ==> r.fence < r'.fence
    ensures r.value.Some? && r'.value != r.value ==> Advances(gen, r.value.value, r'.value.value)
    ensures r'.accepted != r.accepted ==> r'.accepted == r.fence == r'.fence
  {
    if r' != r {
      var op :| Enabled(gen, r, op) && r' == Apply(r, op);
    }
  }

  /** Over any run the counters never go back, and a written key stays written. */
  lemma {:induction false} RunMonotone<B(!new)>(gen: B -> Option<nat>, rs: seq<Register<B>>, i: nat, j: nat)
    requires Run(gen, rs) && i <= j < |rs| && Inv(rs[i])
    ensures Inv(rs[j])
    ensures rs[i].fence <= rs[j].fence && rs[i].accepted <= rs[j].accepted
    ensures rs[i].value.Some? ==> rs[j].value.Some?
    decreases j - i
  {
    if i < j {
      RunMonotone(gen, rs, i, j - 1);
      assert StutterStep(gen, rs[j - 1], rs[j - 1 + 1]);
      StepEffects(gen, rs[j - 1], rs[j]);
    }
  }

  /** A lease that lost ownership to a later acquisition never owns the key again. */
  lemma {:induction false} SupersededForever<B(!new)>(gen: B -> Option<nat>, rs: seq<Register<B>>, i: nat, j: nat,
                                               lease: Lease)
    requires Run(gen, rs) && i <= j < |rs| && Inv(rs[i])
    requires lease.fence < rs[i].fence
    ensures !Owns(rs[j], lease)
  {
    RunMonotone(gen, rs, i, j);
  }

  /** Two acquisitions of one key, in whatever order of other steps, get strictly increasing fences. */
  lemma {:induction false} AcquisitionsIncrease<B(!new)>(
      gen: B -> Option<nat>, rs: seq<Register<B>>, i: nat, j: nat, t0: Token, u0: Time, t1: Token, u1: Time)
    requires Run(gen, rs) && i < j < |rs| - 1 && Inv(rs[i])
    requires rs[i + 1] == Apply(rs[i], Acquire(t0, u0))
    requires rs[j + 1] == Apply(rs[j], Acquire(t1, u1))
    ensures rs[i + 1].fence < rs[j + 1].fence
  {
    RunMonotone(gen, rs, i, i + 1);
    RunMonotone(gen, rs, i + 1, j);
  }

  ghost predicate AllNumbered<B>(gen: B -> Option<nat>, rs: seq<Register<B>>) {
    forall i :: 0 <= i < |rs| && rs[i].value.Some? ==> gen(rs[i].value.value).Some?
  }

  /** Along a run of numbered bodies the number grows with every change of value. */
  lemma {:induction false} GenerationsGrow<B(!new)>(gen: B -> Option<nat>, rs: seq<Register<B>>, i: nat, j: nat)
    requires Run(gen, rs) && AllNumbered(gen, rs) && i <= j < |rs| && Inv(rs[i]) && rs[i].value.Some?
    ensures rs[j].value.Some?
    ensures gen(rs[i].value.value).Some? && gen(rs[j].value.value).Some?
    ensures gen(rs[i].value.value).value <= gen(rs[j].value.value).value
    ensures rs[j].value != rs[i].value ==> gen(rs[i].value.value).value < gen(rs[j].value.value).value
    decreases j - i
  {
    if i < j {
      GenerationsGrow(gen, rs, i, j - 1);
      RunMonotone(gen, rs, i, j - 1);
      assert StutterStep(gen, rs[j - 1], rs[j - 1 + 1]);
      StepEffects(gen, rs[j - 1], rs[j]);
    }
  }

  /** ABA freedom: a numbered value that was replaced never comes back, nor does its version. */
  lemma {:induction false} NoRecurrence<B(!new)>(gen: B -> Option<nat>, rs: seq<Register<B>>, i: nat, m: nat, j: nat)
    requires Run(gen, rs) && AllNumbered(gen, rs) && i <= m <= j < |rs| && Inv(rs[i])
    requires rs[i].value.Some? && rs[m].value != rs[i].value
    ensures VersionOf(rs[j].value) != VersionOf(rs[i].value)
  {
    GenerationsGrow(gen, rs, i, m);
    RunMonotone(gen, rs, i, m);
    GenerationsGrow(gen, rs, m, j);
  }
}
