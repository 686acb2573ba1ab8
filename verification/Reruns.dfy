/**
  What copying create-only does to a target's data: one run, and any number of runs that stop half-way,
  perhaps at a name a failed create left reserved.
*/
module Reruns {
  import opened Types

  /** Every key of the manifest has a value. */
  predicate Covers(blobs: map<Key, Bytes>, keys: seq<Key>) {
    forall i :: 0 <= i < |keys| ==> keys[i] in blobs
  }

  function Restrict(blobs: map<Key, Bytes>, keys: seq<Key>): map<Key, Bytes>
    requires Covers(blobs, keys)
  {
    map k | k in keys :: blobs[k]
  }

  /** The target after the first keys were copied create-only: what was there stays. */
  function Copied(data: map<Key, Bytes>, blobs: map<Key, Bytes>, keys: seq<Key>): map<Key, Bytes>
    requires Covers(blobs, keys)
  {
    Restrict(blobs, keys) + data
  }

  predicate Diverges(data: map<Key, Bytes>, blobs: map<Key, Bytes>, key: Key)
    requires key in blobs
  {
    key in data && data[key] != blobs[key]
  }

  /** How many keys precede the first one the target holds with another value. */
  function Agreeing(data: map<Key, Bytes>, blobs: map<Key, Bytes>, keys: seq<Key>): (n: nat)
    requires Covers(blobs, keys)
    ensures n <= |keys|
    ensures forall i :: 0 <= i < n ==> !Diverges(data, blobs, keys[i])
    ensures n < |keys| ==> Diverges(data, blobs, keys[n])
  {
    if keys == [] || Diverges(data, blobs, keys[0]) then 0 else 1 + Agreeing(data, blobs, keys[1..])
  }

  /** One uninterrupted run: the data it leaves, and whether it got through. */
  function Uninterrupted(data: map<Key, Bytes>, blobs: map<Key, Bytes>, keys: seq<Key>): (map<Key, Bytes>, bool)
    requires Covers(blobs, keys)
  {
    var n := Agreeing(data, blobs, keys);
    (Copied(data, blobs, keys[..n]), n == |keys|)
  }

  lemma AgreeingUnique(data: map<Key, Bytes>, blobs: map<Key, Bytes>, keys: seq<Key>, n: nat)
    requires Covers(blobs, keys)
    requires n <= |keys| && (forall i :: 0 <= i < n ==> !Diverges(data, blobs, keys[i]))
    requires n < |keys| ==> Diverges(data, blobs, keys[n])
    ensures Agreeing(data, blobs, keys) == n
  {
    var m := Agreeing(data, blobs, keys);
    assert m < |keys| ==> Diverges(data, blobs, keys[m]);
  }

  lemma CopiedAt(data: map<Key, Bytes>, blobs: map<Key, Bytes>, keys: seq<Key>, k: Key)
    requires Covers(blobs, keys)
    ensures k in Copied(data, blobs, keys) <==> k in data || k in keys
    ensures k in data ==> Copied(data, blobs, keys)[k] == data[k]
    ensures k !in data && k in keys ==> Copied(data, blobs, keys)[k] == blobs[k]
  {
  }

  lemma CopiedTwice(data: map<Key, Bytes>, blobs: map<Key, Bytes>, some: seq<Key>, more: seq<Key>)
    requires Covers(blobs, more)
    requires some <= more
    ensures Copied(Copied(data, blobs, some), blobs, more) == Copied(data, blobs, more)
  {
    assert forall k :: k in some ==> k in more;
  }

  /** A run that stopped anywhere before the first divergence leaves nothing for the next run to notice. */
  lemma Resumable(data: map<Key, Bytes>, blobs: map<Key, Bytes>, keys: seq<Key>, m: nat)
    requires Covers(blobs, keys)
    requires m <= Agreeing(data, blobs, keys)
    ensures Uninterrupted(Copied(data, blobs, keys[..m]), blobs, keys) == Uninterrupted(data, blobs, keys)
  {
    var n := Agreeing(data, blobs, keys);
    var partial := Copied(data, blobs, keys[..m]);
    forall i | 0 <= i < n
      ensures !Diverges(partial, blobs, keys[i])
    {
      assert !Diverges(data, blobs, keys[i]);
      CopiedAt(data, blobs, keys[..m], keys[i]);
    }
    if n < |keys| {
      CopiedAt(data, blobs, keys[..m], keys[n]);
    }
    AgreeingUnique(partial, blobs, keys, n);
    CopiedTwice(data, blobs, keys[..m], keys[..n]);
  }

  lemma RestrictExtends(blobs: map<Key, Bytes>, keys: seq<Key>, i: nat)
    requires Covers(blobs, keys) && i < |keys|
    ensures Restrict(blobs, keys[..i + 1]) == Restrict(blobs, keys[..i])[keys[i] := blobs[keys[i]]]
  {
    assert keys[..i + 1] == keys[..i] + [keys[i]];
  }

  lemma AgreeingAtLeast(data: map<Key, Bytes>, blobs: map<Key, Bytes>, keys: seq<Key>, n: nat)
    requires Covers(blobs, keys)
    requires n <= |keys| && forall i :: 0 <= i < n ==> !Diverges(data, blobs, keys[i])
    ensures n <= Agreeing(data, blobs, keys)
  {
    var m := Agreeing(data, blobs, keys);
    assert m < |keys| ==> Diverges(data, blobs, keys[m]);
  }

  // Runs that leave a name reserved

  /** A create that failed left the next key reserved: there, and blank. */
  predicate StubLeft(data: map<Key, Bytes>, after: map<Key, Bytes>, blobs: map<Key, Bytes>, keys: seq<Key>,
                     reached: nat, blank: Option<Bytes>)
    requires Covers(blobs, keys) && reached <= |keys|
  {
    && blank.Some? && reached < |keys|
    && keys[reached] !in Copied(data, blobs, keys[..reached])
    && after == Copied(data, blobs, keys[..reached])[keys[reached] := blank.value]
  }

  /** A reserved name that was filled, as reopening a journalled store does, or whose value is blank anyway. */
  lemma FilledIsCopied(data: map<Key, Bytes>, blobs: map<Key, Bytes>, keys: seq<Key>, n: nat)
    requires Covers(blobs, keys) && n < |keys| && keys[n] !in Copied(data, blobs, keys[..n])
    ensures Copied(data, blobs, keys[..n])[keys[n] := blobs[keys[n]]] == Copied(data, blobs, keys[..n + 1])
  {
    RestrictExtends(blobs, keys, n);
    CopiedAt(data, blobs, keys[..n], keys[n]);
  }

  lemma StubFilled(data: map<Key, Bytes>, after: map<Key, Bytes>, blobs: map<Key, Bytes>, keys: seq<Key>, n: nat,
                   blank: Option<Bytes>)
    requires Covers(blobs, keys) && n <= |keys| && StubLeft(data, after, blobs, keys, n, blank)
    ensures after[keys[n] := blobs[keys[n]]] == Copied(data, blobs, keys[..n + 1])
  {
    FilledIsCopied(data, blobs, keys, n);
    var c, k := Copied(data, blobs, keys[..n]), keys[n];
    assert c[k := blank.value][k := blobs[k]] == c[k := blobs[k]];
  }

  /** A key the target lacks does not diverge, so an uninterrupted run copies it. */
  lemma MissingIsCopied(data: map<Key, Bytes>, blobs: map<Key, Bytes>, keys: seq<Key>, n: nat)
    requires Covers(blobs, keys) && n < |keys| && n <= Agreeing(data, blobs, keys)
    requires keys[n] !in Copied(data, blobs, keys[..n])
    ensures n < Agreeing(data, blobs, keys)
    ensures keys[n] in Uninterrupted(data, blobs, keys).0
    ensures Uninterrupted(data, blobs, keys).0[keys[n]] == blobs[keys[n]]
  {
    CopiedAt(data, blobs, keys[..n], keys[n]);
    var m := Agreeing(data, blobs, keys);
    CopiedAt(data, blobs, keys[..m], keys[n]);
    assert keys[..m][n] == keys[n];
  }

  /**
    A run that stopped at a reserved name can be resumed exactly when the source's value is what the
    name holds: otherwise every later run takes the blank value for somebody else's.
  */
  lemma StubResumable(data: map<Key, Bytes>, after: map<Key, Bytes>, blobs: map<Key, Bytes>, keys: seq<Key>, n: nat,
                      blank: Option<Bytes>)
    requires Covers(blobs, keys) && n <= Agreeing(data, blobs, keys) && StubLeft(data, after, blobs, keys, n, blank)
    ensures Uninterrupted(after, blobs, keys) == Uninterrupted(data, blobs, keys) <==> blobs[keys[n]] == blank.value
    ensures blobs[keys[n]] != blank.value ==>
      Uninterrupted(after, blobs, keys) == (after, false) && Agreeing(after, blobs, keys) == n
  {
    MissingIsCopied(data, blobs, keys, n);
    if blobs[keys[n]] == blank.value {
      FilledIsCopied(data, blobs, keys, n);
      Resumable(data, blobs, keys, n + 1);
    } else {
      StubDiverges(data, after, blobs, keys, n, blank);
    }
  }

  lemma StubDiverges(data: map<Key, Bytes>, after: map<Key, Bytes>, blobs: map<Key, Bytes>, keys: seq<Key>, n: nat,
                     blank: Option<Bytes>)
    requires Covers(blobs, keys) && n <= Agreeing(data, blobs, keys) && StubLeft(data, after, blobs, keys, n, blank)
    requires blobs[keys[n]] != blank.value
    ensures Uninterrupted(after, blobs, keys) == (after, false) && Agreeing(after, blobs, keys) == n
  {
    forall i | 0 <= i < n
      ensures !Diverges(after, blobs, keys[i])
    {
      assert !Diverges(data, blobs, keys[i]);
      CopiedAt(data, blobs, keys[..n], keys[i]);
      assert keys[..n][i] == keys[i];
    }
    AgreeingUnique(after, blobs, keys, n);
    assert forall k :: k in keys[..n] ==> k in after;
    assert Copied(after, blobs, keys[..n]) == after;
  }

  /** The same, for what a run may leave; and a name that is filled later costs nothing. */
  lemma LeftResumable(data: map<Key, Bytes>, after: map<Key, Bytes>, blobs: map<Key, Bytes>, keys: seq<Key>, n: nat,
                      blank: Option<Bytes>)
    requires Covers(blobs, keys) && n <= Agreeing(data, blobs, keys)
    requires after == Copied(data, blobs, keys[..n]) || StubLeft(data, after, blobs, keys, n, blank)
    ensures Uninterrupted(after, blobs, keys) == Uninterrupted(data, blobs, keys) <==>
      (StubLeft(data, after, blobs, keys, n, blank) ==> blobs[keys[n]] == blank.value)
    ensures StubLeft(data, after, blobs, keys, n, blank) ==>
      Uninterrupted(after[keys[n] := blobs[keys[n]]], blobs, keys) == Uninterrupted(data, blobs, keys)
  {
    if StubLeft(data, after, blobs, keys, n, blank) {
      StubResumable(data, after, blobs, keys, n, blank);
      MissingIsCopied(data, blobs, keys, n);
      StubFilled(data, after, blobs, keys, n, blank);
      Resumable(data, blobs, keys, n + 1);
    } else {
      Resumable(data, blobs, keys, n);
    }
  }

  /** What happens to a target between two moments: a run that stops, perhaps at a reserved name, or a reopening. */
  datatype Event = Ran(stop: nat, stub: bool) | Reopened

  /** The target's data, and the key whose reserved name nothing filled yet. */
  datatype Progress = Progress(data: map<Key, Bytes>, stub: Option<nat>)

  ghost predicate Step(p: Progress, e: Event, p': Progress, blobs: map<Key, Bytes>, keys: seq<Key>, blank: Bytes)
    requires Covers(blobs, keys)
  {
    match e
    case Ran(stop, stub) =>
      && stop <= Agreeing(p.data, blobs, keys)
      && if stub then
           && StubLeft(p.data, p'.data, blobs, keys, stop, Some(blank))
           && p'.stub == (if blobs[keys[stop]] == blank then p.stub else Some(stop))
         else p'.data == Copied(p.data, blobs, keys[..stop]) && p'.stub == p.stub
    case Reopened =>
      && p'.stub == None
      && (p.stub.Some? ==> p.stub.value < |keys|)
      && p'.data == if p.stub.None? then p.data else p.data[keys[p.stub.value] := blobs[keys[p.stub.value]]]
  }

  /** So far the target is the start plus a first part of the manifest, and perhaps one reserved name after it. */
  ghost predicate Reached(start: map<Key, Bytes>, p: Progress, blobs: map<Key, Bytes>, keys: seq<Key>, blank: Bytes,
                          n: nat)
    requires Covers(blobs, keys)
  {
    && n <= Agreeing(start, blobs, keys)
    && match p.stub
       case None => p.data == Copied(start, blobs, keys[..n])
       case Some(k) => k == n && StubLeft(start, p.data, blobs, keys, n, Some(blank)) && blobs[keys[n]] != blank
  }

  /** Running on from a first part reaches a longer first part, or the same one. */
  lemma CopiedOn(start: map<Key, Bytes>, blobs: map<Key, Bytes>, keys: seq<Key>, n: nat, m: nat)
    requires Covers(blobs, keys) && n <= |keys| && m <= |keys|
    ensures Copied(Copied(start, blobs, keys[..n]), blobs, keys[..m]) == Copied(start, blobs, keys[..Max(n, m)])
  {
    if n <= m {
      CopiedTwice(start, blobs, keys[..n], keys[..m]);
      assert keys[..n] <= keys[..m];
    } else {
      assert keys[..m] <= keys[..n];
      assert forall k :: k in keys[..m] ==> k in keys[..n];
      assert forall k :: k in keys[..m] ==> k in Copied(start, blobs, keys[..n]);
    }
  }

  /** A reserved name stops every later run where it is, and nothing changes. */
  lemma StubStays(start: map<Key, Bytes>, data: map<Key, Bytes>, blobs: map<Key, Bytes>, keys: seq<Key>, n: nat,
                  blank: Option<Bytes>, stop: nat)
    requires Covers(blobs, keys) && n <= |keys| && StubLeft(start, data, blobs, keys, n, blank) && stop <= n
    ensures Copied(data, blobs, keys[..stop]) == data
    ensures keys[stop] in Copied(data, blobs, keys[..stop])
  {
    assert keys[..stop] <= keys[..n];
    assert forall k :: k in keys[..stop] ==> k in keys[..n];
    assert stop < n ==> keys[..n][stop] == keys[stop];
  }

  /** A name reserved by a run that went on from a first part is one reserved after a longer first part. */
  lemma StubOn(start: map<Key, Bytes>, after: map<Key, Bytes>, blobs: map<Key, Bytes>, keys: seq<Key>, n: nat,
               stop: nat, blank: Option<Bytes>)
    requires Covers(blobs, keys) && n <= |keys| && stop <= |keys|
    requires StubLeft(Copied(start, blobs, keys[..n]), after, blobs, keys, stop, blank)
    ensures n <= stop && StubLeft(start, after, blobs, keys, stop, blank)
  {
    InPrefix(keys, stop, n);
    CopiedAt(start, blobs, keys[..n], keys[stop]);
    CopiedOn(start, blobs, keys, n, stop);
  }

  lemma InPrefix(keys: seq<Key>, i: nat, n: nat)
    requires n <= |keys|
    ensures i < n ==> keys[i] in keys[..n]
  {
    assert i < n ==> keys[..n][i] == keys[i];
  }

  lemma StepFromStub(start: map<Key, Bytes>, p: Progress, e: Event, p': Progress, blobs: map<Key, Bytes>,
                     keys: seq<Key>, blank: Bytes, n: nat)
    requires Covers(blobs, keys) && Reached(start, p, blobs, keys, blank, n) && Step(p, e, p', blobs, keys, blank)
    requires p.stub.Some?
    ensures Reached(start, p', blobs, keys, blank, if e.Reopened? then n + 1 else n)
  {
    if e.Reopened? {
      MissingIsCopied(start, blobs, keys, n);
      StubFilled(start, p.data, blobs, keys, n, Some(blank));
    } else {
      StubDiverges(start, p.data, blobs, keys, n, Some(blank));
      StubStays(start, p.data, blobs, keys, n, Some(blank), e.stop);
    }
  }

  lemma StepFromWhole(start: map<Key, Bytes>, p: Progress, e: Event, p': Progress, blobs: map<Key, Bytes>,
                      keys: seq<Key>, blank: Bytes, n: nat) returns (n': nat)
    requires Covers(blobs, keys) && Reached(start, p, blobs, keys, blank, n) && Step(p, e, p', blobs, keys, blank)
    requires p.stub.None?
    ensures Reached(start, p', blobs, keys, blank, n')
  {
    if e.Reopened? {
      return n;
    }
    StopsWithin(start, blobs, keys, n, e.stop);
    if !e.stub {
      CopiedOn(start, blobs, keys, n, e.stop);
      return Max(n, e.stop);
    }
    StubOn(start, p'.data, blobs, keys, n, e.stop, Some(blank));
    n' := e.stop;
    if blobs[keys[n']] == blank {
      MissingIsCopied(start, blobs, keys, n');
      FilledIsCopied(start, blobs, keys, n');
      n' := n' + 1;
    }
  }

  /** A run from a first part stops no later than one from the start would. */
  lemma StopsWithin(start: map<Key, Bytes>, blobs: map<Key, Bytes>, keys: seq<Key>, n: nat, stop: nat)
    requires Covers(blobs, keys) && n <= Agreeing(start, blobs, keys)
    requires stop <= Agreeing(Copied(start, blobs, keys[..n]), blobs, keys)
    ensures stop <= Agreeing(start, blobs, keys)
  {
    var m, partial := Agreeing(start, blobs, keys), Copied(start, blobs, keys[..n]);
    if m < |keys| {
      CopiedAt(start, blobs, keys[..n], keys[m]);
      assert Diverges(partial, blobs, keys[m]);
      assert Agreeing(partial, blobs, keys) <= m;
    }
  }

  lemma {:induction false} EventsReach(ps: seq<Progress>, es: seq<Event>, blobs: map<Key, Bytes>, keys: seq<Key>,
                                       blank: Bytes)
    returns (n: nat)
    requires Covers(blobs, keys) && |ps| == |es| + 1 && ps[0].stub == None
    requires forall i :: 0 <= i < |es| ==> Step(ps[i], es[i], ps[i + 1], blobs, keys, blank)
    ensures Reached(ps[0].data, ps[|es|], blobs, keys, blank, n)
  {
    if es == [] {
      n := 0;
      assert Copied(ps[0].data, blobs, keys[..0]) == ps[0].data;
    } else {
      var last := |es| - 1;
      n := EventsReach(ps[..|es|], es[..last], blobs, keys, blank);
      assert Step(ps[last], es[last], ps[last + 1], blobs, keys, blank);
      if ps[last].stub.Some? {
        StepFromStub(ps[0].data, ps[last], es[last], ps[|es|], blobs, keys, blank, n);
        n := if es[last].Reopened? then n + 1 else n;
      } else {
        n := StepFromWhole(ps[0].data, ps[last], es[last], ps[|es|], blobs, keys, blank, n);
      }
    }
  }

  /**
    Any number of interrupted runs and reopenings, then one run that is not interrupted: the same data
    and the same verdict as one run from the start, exactly when no name is left reserved and unfilled.
  */
  lemma RerunsConverge(ps: seq<Progress>, es: seq<Event>, blobs: map<Key, Bytes>, keys: seq<Key>, blank: Bytes)
    requires Covers(blobs, keys) && |ps| == |es| + 1 && ps[0].stub == None
    requires forall i :: 0 <= i < |es| ==> Step(ps[i], es[i], ps[i + 1], blobs, keys, blank)
    ensures Uninterrupted(ps[|es|].data, blobs, keys) == Uninterrupted(ps[0].data, blobs, keys) <==> ps[|es|].stub.None?
  {
    var n := EventsReach(ps, es, blobs, keys, blank);
    if ps[|es|].stub.None? {
      Resumable(ps[0].data, blobs, keys, n);
    } else {
      StubResumable(ps[0].data, ps[|es|].data, blobs, keys, n, Some(blank));
    }
  }
}
