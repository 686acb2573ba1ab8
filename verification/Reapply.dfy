/**
  When competing edits of other sections park a retry, and when they do not: any number of edits of a
  document, each dumped, and the decision the retry then makes.
*/
module Reapply {
  import opened Types
  import opened FrontMatter
  import opened SectionText
  import opened Sections
  import opened FlushDoc
  import opened Neighbours
  import opened NamedEdits
  import opened Dumping

  /** A document in dumped form, under some metadata. */
  predicate Settled(c: Charset, doc: Option<string>) {
    doc.Some? && Stored(c, Body(c, doc)) && Parse(c, doc.value).0 != []
  }

  lemma DumpSettles(c: Charset, m: Meta, body: string)
    requires c.Lawful() && Sound(c, m) && m != []
    ensures Body(c, Some(Dump(c, m, body))) == Tidy(c, body) && Settled(c, Some(Dump(c, m, body)))
  {
    ParseDump(c, m, body);
    TidyIsStored(c, body);
  }

  /** One replacement of a section: its name, the new text, and the metadata written with it. */
  datatype Edit = Edit(name: string, content: string, meta: Meta)

  predicate Edits(c: Charset, blank: string -> bool, e: Edit, prev: Option<string>, doc: Option<string>) {
    && PassesGuard(e.content) && e.meta != [] && Sound(c, e.meta)
    && var edited := ReplaceSection(Body(c, prev), SearchFor(e.name), e.content, blank);
       edited.Some? && doc == Some(Dump(c, e.meta, edited.value))
  }

  /** Stamping refuses the metadata or keeps it sound. */
  ghost predicate SoundStamp(t: Tools) {
    forall fm: Option<Meta>, n: nat :: (fm.Some? ==> Sound(t.c, fm.value)) && t.stamp(fm, n).Some? ==>
      t.stamp(fm, n).value != [] && Sound(t.c, t.stamp(fm, n).value)
  }

  /** Every write of a section is such an edit. */
  lemma WritesEditSections(job: Job, t: Tools, g: string, read: Option<string>, first: bool,
                           base: Option<Option<string>>, n: nat)
    returns (e: Edit)
    requires SoundStamp(t) && PassesGuard(job.content) && job.section == Some(SearchFor(g))
    requires Decide(job, t, read, first, base, n).Write?
    ensures e.name == g && e.content == job.content
    ensures Edits(t.c, t.blank, e, read, Some(Decide(job, t, read, first, base, n).doc))
  {
    var m := WrittenDoc(job, t, SearchFor(g), read, first, base, n);
    e := Edit(g, job.content, m);
  }

  lemma WrittenDoc(job: Job, t: Tools, s: Search, read: Option<string>, first: bool, base: Option<Option<string>>,
                   n: nat)
    returns (m: Meta)
    requires SoundStamp(t) && job.section == Some(s)
    requires Decide(job, t, read, first, base, n).Write?
    ensures m != [] && Sound(t.c, m) && ReplaceSection(Body(t.c, read), s, job.content, t.blank).Some?
    ensures Decide(job, t, read, first, base, n).doc ==
      Dump(t.c, m, ReplaceSection(Body(t.c, read), s, job.content, t.blank).value)
  {
    var fm := if read.None? then [] else Parse(t.c, read.value).0;
    if read.Some? {
      ParsedIsSound(t.c, read.value);
    }
    m := t.stamp(if read.None? then None else Some(fm), n).value;
  }

  /** Neither end of the document is touched for the one section by an edit of the other. */
  predicate Untouched(c: Charset, g: string, h: string, doc: Option<string>, blank: string -> bool) {
    && FrontSafe(c, Body(c, doc), SearchFor(g), SearchFor(h), blank)
    && EndSafe(c, Body(c, doc), SearchFor(g), SearchFor(h))
  }

  /** One end is touched for it, the other is not. */
  predicate TouchedOnce(c: Charset, g: string, h: string, doc: Option<string>, blank: string -> bool) {
    FrontSafe(c, Body(c, doc), SearchFor(g), SearchFor(h), blank) !=
      EndSafe(c, Body(c, doc), SearchFor(g), SearchFor(h))
  }

  lemma EditKeepsOthers(c: Charset, blank: string -> bool, e: Edit, h: string, s: Search, prev: Option<string>,
                        doc: Option<string>)
    requires c.Lawful() && Blanks(c) && StripsBlank(c, blank) && NamesSafe(c, e.name, h) && s == SearchFor(h)
    requires Edits(c, blank, e, prev, doc)
    ensures Settled(c, doc)
    ensures Untouched(c, e.name, h, prev, blank) ==> SectionKept(c, s, prev, doc)
    ensures TouchedOnce(c, e.name, h, prev, blank) && !GetSection(Body(c, prev), s).Duplicate? ==>
      !SectionKept(c, s, prev, doc)
  {
    var edited := ReplaceSection(Body(c, prev), SearchFor(e.name), e.content, blank).value;
    DumpSettles(c, e.meta, edited);
    NamedNeighbourKept(c, Body(c, prev), e.name, h, e.content, blank);
  }

  lemma SettledIsUntouched(c: Charset, g: string, h: string, doc: Option<string>, blank: string -> bool)
    requires c.Lawful() && Blanks(c) && IsName(h)
    requires doc.Some? ==> Settled(c, doc)
    ensures Untouched(c, g, h, doc, blank)
  {
    NamedSearch(c, h, SearchFor(h));
    if doc.None? {
      EmptyIsKept(c, SearchFor(h));
    } else {
      StoredIsKept(c, Body(c, doc), SearchFor(h));
    }
  }

  lemma EmptyIsKept(c: Charset, t: Search)
    ensures FrontKept(c, "", t) && EndKept(c, "", t)
  {
    FrontBlank(c, "", t);
  }

  /** A run of edits of other sections than h, each of the document the one before left. */
  ghost predicate OthersEdit(c: Charset, blank: string -> bool, h: string, edits: seq<Edit>,
                             docs: seq<Option<string>>) {
    && |docs| == |edits| + 1
    && forall i :: 0 <= i < |edits| ==> StepEdits(c, blank, h, edits, docs, i)
  }

  predicate StepEdits(c: Charset, blank: string -> bool, h: string, edits: seq<Edit>, docs: seq<Option<string>>, i: nat)
    requires i < |edits| < |docs|
  {
    NamesSafe(c, edits[i].name, h) && Edits(c, blank, edits[i], docs[i], docs[i + 1])
  }

  predicate SectionKept(c: Charset, s: Search, prev: Option<string>, doc: Option<string>) {
    SameUpToEnds(GetSection(Body(c, prev), s), GetSection(Body(c, doc), s))
  }

  /** Every edit leaves the document in dumped form; from then on each keeps the section. */
  lemma LaterStep(c: Charset, blank: string -> bool, h: string, s: Search, edits: seq<Edit>,
                  docs: seq<Option<string>>, i: nat)
    requires c.Lawful() && Blanks(c) && StripsBlank(c, blank) && OthersEdit(c, blank, h, edits, docs)
    requires s == SearchFor(h) && i < |edits|
    ensures Settled(c, docs[i + 1])
    ensures Settled(c, docs[i]) ==> SectionKept(c, s, docs[i], docs[i + 1])
  {
    assert StepEdits(c, blank, h, edits, docs, i);
    EditKeepsOthers(c, blank, edits[i], h, s, docs[i], docs[i + 1]);
    if Settled(c, docs[i]) {
      SettledIsUntouched(c, edits[i].name, h, docs[i], blank);
    }
  }

  /** The i-th document is in dumped form and still has the section as it was. */
  predicate KeptTo(c: Charset, s: Search, docs: seq<Option<string>>, i: nat) {
    i < |docs| && Settled(c, docs[i]) && SectionKept(c, s, docs[0], docs[i])
  }

  predicate KeepsFrom(c: Charset, s: Search, docs: seq<Option<string>>, i: nat) {
    KeptTo(c, s, docs, i) ==> KeptTo(c, s, docs, i + 1)
  }

  lemma LaterKeeps(c: Charset, blank: string -> bool, h: string, s: Search, edits: seq<Edit>,
                   docs: seq<Option<string>>, i: nat)
    requires c.Lawful() && Blanks(c) && StripsBlank(c, blank) && OthersEdit(c, blank, h, edits, docs)
    requires s == SearchFor(h) && i < |edits|
    ensures KeepsFrom(c, s, docs, i)
  {
    LaterStep(c, blank, h, s, edits, docs, i);
    if KeptTo(c, s, docs, i) {
      KeptTransitive(c, s, docs[0], docs[i], docs[i + 1]);
    }
  }

  lemma {:induction false} KeptAlong(c: Charset, s: Search, docs: seq<Option<string>>, k: nat, n: nat)
    requires KeptTo(c, s, docs, k) && k <= n
    requires forall i: nat :: k <= i < n ==> KeepsFrom(c, s, docs, i)
    ensures KeptTo(c, s, docs, n)
    decreases n - k
  {
    if k < n {
      assert KeepsFrom(c, s, docs, k);
      KeptAlong(c, s, docs, k + 1, n);
    }
  }

  /** From a dumped document on, a section stays equal as `_section_eq` sees it, however many others are written. */
  lemma OthersKeep(c: Charset, blank: string -> bool, h: string, s: Search, edits: seq<Edit>,
                   docs: seq<Option<string>>)
    requires c.Lawful() && Blanks(c) && StripsBlank(c, blank) && OthersEdit(c, blank, h, edits, docs)
    requires s == SearchFor(h) && Settled(c, docs[0])
    ensures KeptTo(c, s, docs, |edits|)
  {
    forall i: nat | i < |edits|
      ensures KeepsFrom(c, s, docs, i)
    {
      LaterKeeps(c, blank, h, s, edits, docs, i);
    }
    KeptSame(c, s, docs[0]);
    KeptAlong(c, s, docs, 0, |edits|);
  }

  lemma AfterFirstEdit(c: Charset, blank: string -> bool, h: string, edits: seq<Edit>, docs: seq<Option<string>>)
    requires OthersEdit(c, blank, h, edits, docs) && edits != []
    ensures OthersEdit(c, blank, h, edits[1..], docs[1..])
  {
    forall i | 0 <= i < |edits[1..]|
      ensures StepEdits(c, blank, h, edits[1..], docs[1..], i)
    {
      assert StepEdits(c, blank, h, edits, docs, i + 1);
    }
  }

  lemma KeptTransitive(c: Charset, s: Search, x: Option<string>, y: Option<string>, z: Option<string>)
    requires SectionKept(c, s, x, y) && SectionKept(c, s, y, z)
    ensures SectionKept(c, s, x, z)
  {
  }

  lemma KeptAfterwards(c: Charset, s: Search, x: Option<string>, y: Option<string>, z: Option<string>)
    requires SectionKept(c, s, y, z)
    ensures SectionKept(c, s, x, y) <==> SectionKept(c, s, x, z)
  {
  }

  lemma KeptSame(c: Charset, s: Search, x: Option<string>)
    ensures SectionKept(c, s, x, x)
  {
  }

  lemma FirstEdit(c: Charset, blank: string -> bool, h: string, s: Search, edits: seq<Edit>, docs: seq<Option<string>>)
    requires c.Lawful() && Blanks(c) && StripsBlank(c, blank) && OthersEdit(c, blank, h, edits, docs)
    requires s == SearchFor(h) && edits != []
    ensures Settled(c, docs[1])
    ensures Untouched(c, edits[0].name, h, docs[0], blank) ==> SectionKept(c, s, docs[0], docs[1])
    ensures TouchedOnce(c, edits[0].name, h, docs[0], blank) && !GetSection(Body(c, docs[0]), s).Duplicate? ==>
      !SectionKept(c, s, docs[0], docs[1])
  {
    assert StepEdits(c, blank, h, edits, docs, 0);
    EditKeepsOthers(c, blank, edits[0], h, s, docs[0], docs[1]);
  }

  lemma RestKeeps(c: Charset, blank: string -> bool, h: string, s: Search, edits: seq<Edit>, docs: seq<Option<string>>)
    requires c.Lawful() && Blanks(c) && StripsBlank(c, blank) && OthersEdit(c, blank, h, edits, docs)
    requires s == SearchFor(h) && edits != [] && Settled(c, docs[1])
    ensures Settled(c, docs[|edits|]) && SectionKept(c, s, docs[1], docs[|edits|])
  {
    var rest, later := edits[1..], docs[1..];
    AfterFirstEdit(c, blank, h, edits, docs);
    OthersKeep(c, blank, h, s, rest, later);
    assert later[0] == docs[1] && later[|rest|] == docs[|edits|];
  }

  /** Over a run of edits the section is kept exactly as the first of them keeps it. */
  lemma FirstDecides(c: Charset, blank: string -> bool, h: string, s: Search, edits: seq<Edit>,
                     docs: seq<Option<string>>)
    requires c.Lawful() && Blanks(c) && StripsBlank(c, blank) && OthersEdit(c, blank, h, edits, docs)
    requires s == SearchFor(h) && edits != []
    ensures Settled(c, docs[|edits|])
    ensures Untouched(c, edits[0].name, h, docs[0], blank) ==> SectionKept(c, s, docs[0], docs[|edits|])
    ensures TouchedOnce(c, edits[0].name, h, docs[0], blank) && !GetSection(Body(c, docs[0]), s).Duplicate? ==>
      !SectionKept(c, s, docs[0], docs[|edits|])
  {
    FirstEdit(c, blank, h, s, edits, docs);
    RestKeeps(c, blank, h, s, edits, docs);
    KeptAfterwards(c, s, docs[0], docs[1], docs[|edits|]);
  }

  /** What a retry does that made its edit against `base`: it parks exactly if the section is no longer that. */
  lemma RetryDecides(job: Job, t: Tools, s: Search, base: Option<string>, last: Option<string>, n: nat)
    requires job.section == Some(s)
    ensures var got, plan := GetSection(Body(t.c, last), s), Decide(job, t, last, false, Some(base), n);
      && (plan.ParkIt? <==> (last.Some? ==> Parse(t.c, last.value).0 != []) &&
                            (got.Duplicate? || !SectionEq(SectionIn(t.c, last, s), base)))
      && (plan.Write? ==> plan.expected == VersionOf(last))
      && (plan.Die? ==> plan.reason == BadMetadata ||
                        (plan.reason == MalformedFrontMatter && last.Some? && Parse(t.c, last.value).0 == []))
  {
  }

  lemma KeptIffEq(c: Charset, s: Search, x: Option<string>, y: Option<string>)
    requires !GetSection(Body(c, x), s).Duplicate?
    ensures SectionKept(c, s, x, y) <==>
      !GetSection(Body(c, y), s).Duplicate? && SectionEq(SectionIn(c, y, s), SectionIn(c, x, s))
  {
  }

  /**
    Whatever other sections were written meanwhile, a retry whose section was not touched does not park
    if the first edit touched neither end of the document for it: it writes against the version it has
    just read, unless metadata is refused. If that edit touched one of the ends, it parks.
  */
  lemma UnrelatedEdits(job: Job, t: Tools, h: string, s: Search, edits: seq<Edit>, docs: seq<Option<string>>, n: nat)
    requires t.c.Lawful() && Blanks(t.c) && StripsBlank(t.c, t.blank) && OthersEdit(t.c, t.blank, h, edits, docs)
    requires s == SearchFor(h) && job.section == Some(s) && !GetSection(Body(t.c, docs[0]), s).Duplicate?
    ensures var last, base := docs[|edits|], SectionIn(t.c, docs[0], s);
      var plan := Decide(job, t, last, false, Some(base), n);
      && (edits == [] || Untouched(t.c, edits[0].name, h, docs[0], t.blank) ==> !plan.ParkIt?)
      && (edits != [] && TouchedOnce(t.c, edits[0].name, h, docs[0], t.blank) ==> plan.ParkIt?)
      && (plan.Write? ==> plan.expected == VersionOf(last))
      && (plan.Die? && edits != [] ==> plan.reason == BadMetadata)
  {
    var last, base := docs[|edits|], SectionIn(t.c, docs[0], s);
    RetryDecides(job, t, s, base, last, n);
    KeptIffEq(t.c, s, docs[0], last);
    if edits != [] {
      FirstDecides(t.c, t.blank, h, s, edits, docs);
    }
  }

  lemma TouchedParks(job: Job, t: Tools, h: string, s: Search, e: Edit, prev: Option<string>, doc: Option<string>,
                     n: nat)
    requires t.c.Lawful() && Blanks(t.c) && StripsBlank(t.c, t.blank) && NamesSafe(t.c, e.name, h)
    requires Edits(t.c, t.blank, e, prev, doc) && s == SearchFor(h) && job.section == Some(s)
    requires !GetSection(Body(t.c, prev), s).Duplicate? && TouchedOnce(t.c, e.name, h, prev, t.blank)
    ensures Decide(job, t, doc, false, Some(SectionIn(t.c, prev, s)), n).ParkIt?
  {
    EditKeepsOthers(t.c, t.blank, e, h, s, prev, doc);
    RetryDecides(job, t, s, SectionIn(t.c, prev, s), doc, n);
    KeptIffEq(t.c, s, prev, doc);
  }

  /**
    A false park: the last section of a hand-written document ends in blanks, another writer edits the
    section before it, and the retry parks although nobody wrote its section.
  */
  lemma FalsePark(job: Job, t: Tools, e: Edit, s: Search, prev: Option<string>, doc: Option<string>, n: nat)
    requires t.c.Lawful() && Blanks(t.c) && StripsBlank(t.c, t.blank) && !t.c.space('B') && !t.c.space('f')
    requires Body(t.c, prev) == SearchFor("B").line + (s.line + "f  \n")
    requires e.name == "B" && Edits(t.c, t.blank, e, prev, doc) && s == SearchFor("A") && job.section == Some(s)
    ensures Decide(job, t, doc, false, Some(SectionIn(t.c, prev, s)), n).ParkIt?
  {
    LettersApart(t.c);
    TrailingBlanksAreUnsafe(t.c, SearchFor("B"), s, t.blank);
    TouchedParks(job, t, "A", s, e, prev, doc, n);
  }
}
