/**
  The life of a parked conflict: outstanding until a durable marker that names it in full exists. The
  marker's own name is a truncated digest, so two conflicts may share it.
*/
module Conflicts {
  import opened Types
  import opened FrontMatter
  import opened Store
  import Register
  import FlushDoc

  /** The text rules, and the truncated digest that names a marker. */
  datatype Naming = Naming(c: Charset, digest: Key -> string)

  function ConflictPrefix(project: string): string {
    project + "/conflicts/"
  }

  function MarkerKey(n: Naming, project: string, key: Key): Key {
    project + "/conflict-resolved/" + n.digest(key)
  }

  /** A marker is never itself listed as a conflict. */
  lemma MarkersAreNoConflicts(n: Naming, project: string, key: Key)
    ensures !(ConflictPrefix(project) <= MarkerKey(n, project, key))
  {
    var p := |project| + 9;
    assert ConflictPrefix(project)[p] == 's' && MarkerKey(n, project, key)[p] == '-';
  }

  /** The text is a marker bound to exactly this conflict of this project. */
  predicate Binds(n: Naming, text: string, project: string, key: Key) {
    var fm := Parse(n.c, text).0;
    fm != [] && Field(fm, "conflict_key") == Some(key) && Field(fm, "project_id") == Some(project)
  }

  function MarkerMeta(project: string, key: Key, version: string, at: string): Meta {
    [("schema_version", version), ("project_id", project), ("resolved_at", at), ("conflict_key", key)]
  }

  function Marker(n: Naming, project: string, key: Key, version: string, at: string): string {
    Dump(n.c, MarkerMeta(project, key, version, at), "resolved")
  }

  /** A marker reads back as bound to its conflict, and to no other. */
  lemma MarkerBinds(n: Naming, project: string, key: Key, version: string, at: string, k: Key)
    requires n.c.Lawful() && Sound(n.c, MarkerMeta(project, key, version, at))
    ensures Binds(n, Marker(n, project, key, version, at), project, k) <==> k == key
  {
    var fm := MarkerMeta(project, key, version, at);
    ParseDump(n.c, fm, "resolved");
    assert "schema_version"[0] == 's' && "project_id"[0] == 'p' && "resolved_at"[0] == 'r' && "conflict_key"[0] == 'c';
    var f1, f2, f3 := fm[1..], fm[2..], fm[3..];
    assert f1[1..] == f2 && f2[1..] == f3;
    assert Field(f3, "conflict_key") == Field(f2, "conflict_key") == Field(f1, "conflict_key") == Some(key);
    assert Field(f1, "project_id") == Some(project);
  }

  // What the store shows

  function Conflicting(data: map<Key, string>, project: string): set<Key> {
    set k | k in data && ConflictPrefix(project) <= k
  }

  predicate IsResolved(n: Naming, data: map<Key, string>, project: string, key: Key) {
    MarkerKey(n, project, key) in data && Binds(n, data[MarkerKey(n, project, key)], project, key)
  }

  function Settled(n: Naming, data: map<Key, string>, project: string): set<Key> {
    set k | k in Conflicting(data, project) && IsResolved(n, data, project, k)
  }

  function Outstanding(n: Naming, data: map<Key, string>, project: string): set<Key> {
    set k | k in Conflicting(data, project) && !IsResolved(n, data, project, k)
  }

  /** Every parked conflict is counted exactly once. */
  lemma EveryConflictCounted(n: Naming, data: map<Key, string>, project: string)
    ensures Outstanding(n, data, project) + Settled(n, data, project) == Conflicting(data, project)
    ensures Outstanding(n, data, project) !! Settled(n, data, project)
    ensures |Outstanding(n, data, project)| + |Settled(n, data, project)| == |Conflicting(data, project)|
  {
    assert Outstanding(n, data, project) + Settled(n, data, project) == Conflicting(data, project);
    DisjointSizes(Outstanding(n, data, project), Settled(n, data, project));
  }

  lemma DisjointSizes(a: set<Key>, b: set<Key>)
    requires a !! b
    ensures |a + b| == |a| + |b|
  {
  }

  /** A text parked by a flush is an outstanding conflict from then on, until somebody resolves it. */
  lemma ParkedIsOutstanding(n: Naming, data: map<Key, string>, project: string, suffix: string)
    requires FlushDoc.ConflictKey(project, suffix) in data
    ensures var key := FlushDoc.ConflictKey(project, suffix);
      && key in Conflicting(data, project)
      && (MarkerKey(n, project, key) !in data ==> key in Outstanding(n, data, project))
  {
    var key := FlushDoc.ConflictKey(project, suffix);
    assert key == ConflictPrefix(project) + suffix;
  }

  // Resolving

  datatype Verdict = Resolved | InvalidKey | UnknownKey | Collision

  /** What a create of the marker comes to, over what is there. */
  function Marked(n: Naming, there: Option<string>, project: string, key: Key, marker: string): Verdict {
    if there.None? || there.value == marker || Binds(n, there.value, project, key) then Resolved else Collision
  }

  /** `resolve_conflict` on data nobody else changes. */
  function Resolve(n: Naming, data: map<Key, string>, project: string, key: Key, marker: string)
    : (map<Key, string>, Verdict)
  {
    if !(ConflictPrefix(project) <= key) then (data, InvalidKey)
    else if key !in data then (data, UnknownKey)
    else
      var name := MarkerKey(n, project, key);
      var there := if name in data then Some(data[name]) else None;
      (if there.None? then data[name := marker] else data, Marked(n, there, project, key, marker))
  }

  /**
    Resolving moves exactly the named conflict, whatever digests collide; when it does not succeed it
    changes nothing, and it never replaces a value that was there.
  */
  lemma ResolveMovesOne(n: Naming, data: map<Key, string>, project: string, key: Key, version: string, at: string)
    requires n.c.Lawful() && Sound(n.c, MarkerMeta(project, key, version, at))
    ensures var (after, verdict) := Resolve(n, data, project, key, Marker(n, project, key, version, at));
      && (verdict == Resolved <==>
            && key in Conflicting(data, project)
            && (MarkerKey(n, project, key) in data ==> IsResolved(n, data, project, key)))
      && (verdict == InvalidKey <==> !(ConflictPrefix(project) <= key))
      && (verdict == UnknownKey <==> ConflictPrefix(project) <= key && key !in data)
      && Conflicting(after, project) == Conflicting(data, project)
      && (verdict == Resolved ==>
            && Settled(n, after, project) == Settled(n, data, project) + {key}
            && Outstanding(n, after, project) == Outstanding(n, data, project) - {key})
      && (verdict != Resolved ==> after == data)
      && (forall k :: k in data ==> k in after && after[k] == data[k])
  {
    var marker := Marker(n, project, key, version, at);
    var (after, verdict) := Resolve(n, data, project, key, marker);
    MarkersAreNoConflicts(n, project, key);
    MarkerBinds(n, project, key, version, at, key);
    forall k | k in Conflicting(data, project)
      ensures IsResolved(n, after, project, k) == (IsResolved(n, data, project, k) || (verdict == Resolved && k == key))
    {
      MarkerBinds(n, project, key, version, at, k);
    }
    assert Conflicting(after, project) == Conflicting(data, project);
  }

  /** A second resolution of the same conflict succeeds and changes nothing, whatever its clock says. */
  lemma ResolveIsIdempotent(n: Naming, data: map<Key, string>, project: string, key: Key, version: string, at: string,
                            later: string)
    requires n.c.Lawful() && Sound(n.c, MarkerMeta(project, key, version, at))
    requires Resolve(n, data, project, key, Marker(n, project, key, version, at)).1 == Resolved
    ensures var after := Resolve(n, data, project, key, Marker(n, project, key, version, at)).0;
      Resolve(n, after, project, key, Marker(n, project, key, version, later)) == (after, Resolved)
  {
    MarkerBinds(n, project, key, version, at, key);
    MarkersAreNoConflicts(n, project, key);
  }

  /** Two conflicts with one marker name: resolving the first leaves the second outstanding, and blocks it. */
  lemma SharedDigestFailsClosed(n: Naming, data: map<Key, string>, project: string, a: Key, b: Key,
                                version: string, at: string, later: string)
    requires n.c.Lawful() && Sound(n.c, MarkerMeta(project, a, version, at)) &&
      Sound(n.c, MarkerMeta(project, b, version, later))
    requires a != b && n.digest(a) == n.digest(b) && {a, b} <= Conflicting(data, project)
    requires MarkerKey(n, project, a) !in data
    ensures var after := Resolve(n, data, project, a, Marker(n, project, a, version, at)).0;
      && b in Outstanding(n, after, project)
      && Resolve(n, after, project, b, Marker(n, project, b, version, later)) == (after, Collision)
  {
    MarkersAreNoConflicts(n, project, a);
    MarkerBinds(n, project, a, version, at, a);
    MarkerBinds(n, project, a, version, at, b);
    MarkerBinds(n, project, b, version, later, b);
  }

  // The call, with others at work

  datatype Answer = Done(verdict: Verdict) | Failed(kind: ErrorKind) | Unexpected | Interrupted

  /** `_is_resolved`: unreadable counts as unresolved. */
  method CheckResolved(store: Store<string>, n: Naming, project: string, key: Key) returns (yes: bool)
    modifies store
    ensures store.landings == old(store.landings) && old(store.seen) <= store.seen
    ensures store.doubtful == old(store.doubtful)
    ensures yes ==>
      && |store.seen| > |old(store.seen)|
      && var s := store.seen[|store.seen| - 1];
         s.Saw? && s.key == MarkerKey(n, project, key) && s.value.Some? && Binds(n, s.value.value, project, key)
    ensures forall k :: store.private(k) ==> store.Value(k) == old(store.Value(k))
    ensures store.Quiet(old(store.tick)) ==>
      var v := old(store.Value(MarkerKey(n, project, key))); yes <==> v.Some? && Binds(n, v.value, project, key)
  {
    var read := store.Read(MarkerKey(n, project, key));
    yes := read.Got? && read.value.Some? && Binds(n, read.value.value, project, key);
  }

  /** A read returned this text, or a write of it was answered OK. */
  ghost predicate Shown(seen: seq<Sighting<string>>, key: Key, text: string) {
    Saw(key, Some(text)) in seen || Answered(key, Some(text)) in seen
  }

  /** A marker of this conflict was in the store during the call. */
  ghost predicate SawMarker(store: Store<string>, from: nat, n: Naming, project: string, key: Key)
    requires from <= |store.seen|
    reads store
  {
    exists text :: Binds(n, text, project, key) && Shown(store.seen[from..], MarkerKey(n, project, key), text)
  }

  /** The marker created, or found to be there already. */
  method PutMarker(store: Store<string>, n: Naming, project: string, key: Key, version: string, at: string)
    returns (a: Answer)
    requires n.c.Lawful() && Sound(n.c, MarkerMeta(project, key, version, at))
    modifies store
    ensures old(store.seen) <= store.seen && old(store.landings) <= store.landings
    ensures |store.landings| <= |old(store.landings)| + 1
    ensures |store.landings| > |old(store.landings)| ==>
      var l := store.landings[|old(store.landings)|];
      && l.key == MarkerKey(n, project, key) && l.before.value.None?
      && l.op == Register.Create(Marker(n, project, key, version, at))
    ensures a == Done(Resolved) ==> SawMarker(store, |old(store.seen)|, n, project, key)
    ensures a.Done? && a.verdict != Resolved ==> store.landings == old(store.landings)
    ensures a.Done? ==> store.doubtful == old(store.doubtful)
    // An error is reported as what it was.
    ensures match store.turns(old(store.tick)).fate
      case Broken(kind, _) => a == Failed(kind)
      case Thrown(_) => a == Interrupted
      case _ => true
    ensures forall k :: store.private(k) && k != MarkerKey(n, project, key) ==> store.Value(k) == old(store.Value(k))
    ensures store.QuietFrom(old(store.tick)) && store.private(MarkerKey(n, project, key)) ==>
      var v := old(store.Value(MarkerKey(n, project, key)));
      && store.Value(MarkerKey(n, project, key)) == (if v.None? then Some(Marker(n, project, key, version, at)) else v)
      && a == Done(Marked(n, v, project, key, Marker(n, project, key, version, at)))
  {
    var name, marker := MarkerKey(n, project, key), Marker(n, project, key, version, at);
    MarkerBinds(n, project, key, version, at, key);
    var reply := store.Persist(name, CreateOnly, marker);
    if reply.Raised? {
      return Interrupted;
    }
    match reply.result {
      case Ok(_) =>
        assert store.seen[|store.seen| - 1] == Answered(name, Some(marker));
        a := Done(Resolved);
      case Exists(_) =>
        var yes := CheckResolved(store, n, project, key);
        if yes {
          ghost var s := store.seen[|store.seen| - 1];
          assert s in store.seen[|old(store.seen)|..] && s == Saw(name, Some(s.value.value));
        }
        a := Done(if yes then Resolved else Collision);
      case Stale(_, _) => a := Unexpected;
      case Error(kind) => a := Failed(kind);
    }
  }

  lemma DataIs(store: Store<string>, data: map<Key, string>)
    requires forall k :: store.Value(k) == if k in data then Some(data[k]) else None
    ensures store.Data() == data
  {
  }

  /** `resolve_conflict`: creates the marker or finds it; nothing is ever replaced. */
  method ResolveConflict(store: Store<string>, n: Naming, project: string, key: Key, version: string, at: string)
    returns (a: Answer)
    requires n.c.Lawful() && Sound(n.c, MarkerMeta(project, key, version, at))
    modifies store
    ensures old(store.seen) <= store.seen && old(store.landings) <= store.landings
    ensures |store.landings| <= |old(store.landings)| + 1
    ensures |store.landings| > |old(store.landings)| ==>
      var l := store.landings[|old(store.landings)|];
      && l.key == MarkerKey(n, project, key) && l.before.value.None?
      && l.op == Register.Create(Marker(n, project, key, version, at))
    ensures a == Done(Resolved) ==> SawMarker(store, |old(store.seen)|, n, project, key)
    ensures a.Done? && a.verdict != Resolved ==> store.landings == old(store.landings)
    ensures a.Done? ==> store.doubtful == old(store.doubtful)
    // With nobody in the way it is `Resolve`.
    ensures store.QuietFrom(old(store.tick)) && store.Alone() ==>
      var (after, verdict) := Resolve(n, old(store.Data()), project, key, Marker(n, project, key, version, at));
      store.Data() == after && a == Done(verdict)
  {
    ghost var data := store.Data();
    if !(ConflictPrefix(project) <= key) {
      return Done(InvalidKey);
    }
    var listed := store.List();
    if listed.None? {
      return Interrupted;
    }
    if key !in listed.value {
      return Done(UnknownKey);
    }
    a := PutMarker(store, n, project, key, version, at);
    if store.QuietFrom(old(store.tick)) && store.Alone() {
      DataIs(store, Resolve(n, data, project, key, Marker(n, project, key, version, at)).0);
    }
  }
}
