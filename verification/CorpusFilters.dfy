/** Fail-closed corpus scopes: request narrowing, active-index resolution, chunk and citation scopes. */
module CorpusFilters {
  import opened Ordering

  const NO_TRUSTED_MATCH := "__no_trusted_match__"
  const NO_ACTIVE_INDEX := "__no_active_index__"

  /** The eight list dimensions shared by the trusted scope and a request. */
  datatype Scope = Scope(
    sourceIds: seq<string>, sourceTypes: seq<string>, visibility: seq<string>,
    sensitivity: seq<string>, licenseStatuses: seq<string>, licenseIds: seq<string>,
    redactions: seq<string>, eligibility: seq<string>)

  datatype Filters = Filters(
    scope: Scope, versionLabels: seq<string>,
    labelFloors: seq<string>, labelCeilings: seq<string>,
    timeFrom: Option<int>, timeTo: Option<int>,
    allowlisted: bool, activeIndex: Option<string>)

  datatype Index = Index(
    active: bool, kind: string, vectorProfile: Option<string>, bm25Profile: Option<string>,
    exactProfile: Option<string>, sourceIds: seq<string>)

  // ----- Narrowing -----

  function Common(requested: seq<string>, trusted: seq<string>): (r: seq<string>)
    ensures forall v :: v in r <==> v in requested && v in trusted
  {
    if requested == [] then []
    else (if requested[0] in trusted then [requested[0]] else []) + Common(requested[1..], trusted)
  }

  function Intersection(requested: seq<string>, trusted: seq<string>): seq<string> {
    if requested == [] then trusted
    else if trusted == [] then requested
    else Common(requested, trusted)
  }

  function NarrowList(requested: seq<string>, trusted: seq<string>): seq<string> {
    var updated := Intersection(requested, trusted);
    if requested != [] && updated == [] then [NO_TRUSTED_MATCH] else updated
  }

  function NarrowScope(trusted: Scope, requested: Scope): Scope {
    Scope(
      NarrowList(requested.sourceIds, trusted.sourceIds),
      NarrowList(requested.sourceTypes, trusted.sourceTypes),
      NarrowList(requested.visibility, trusted.visibility),
      NarrowList(requested.sensitivity, trusted.sensitivity),
      NarrowList(requested.licenseStatuses, trusted.licenseStatuses),
      NarrowList(requested.licenseIds, trusted.licenseIds),
      NarrowList(requested.redactions, trusted.redactions),
      NarrowList(requested.eligibility, trusted.eligibility))
  }

  function Narrow(trusted: Scope, f: Filters): Filters {
    f.(scope := NarrowScope(trusted, f.scope))
  }

  /** An empty source list leaves the dimension open. */
  predicate Open(values: seq<string>, v: string) { values == [] || v in values }

  ghost predicate Disjoint(a: seq<string>, b: seq<string>) { forall v :: v in a ==> v !in b }

  /** Source dimensions: exactly what both sides accept, plus the sentinel when nothing is shared. */
  lemma NarrowedSourcesExact(requested: seq<string>, trusted: seq<string>, v: string)
    ensures Open(NarrowList(requested, trusted), v) <==>
            || (Open(requested, v) && Open(trusted, v))
            || (v == NO_TRUSTED_MATCH && requested != [] && trusted != [] && Disjoint(requested, trusted))
  {
    if requested != [] && trusted != [] && Common(requested, trusted) != [] {
      var shared := Common(requested, trusted)[0];
      assert shared in Common(requested, trusted);
    }
    assert Disjoint(requested, trusted) ==> forall x :: x !in Common(requested, trusted);
  }

  /** Policy dimensions, where an empty list admits nothing once it reaches SQL. */
  lemma NarrowedPolicyExact(requested: seq<string>, trusted: seq<string>, v: string)
    requires trusted != []
    ensures v in NarrowList(requested, trusted) <==>
            || (Open(requested, v) && v in trusted)
            || (v == NO_TRUSTED_MATCH && requested != [] && Disjoint(requested, trusted))
  {
    NarrowedSourcesExact(requested, trusted, v);
  }

  /** A request can never widen a policy dimension, exactly when the trusted list is not empty. */
  lemma RequestsOnlyNarrowIff(trusted: seq<string>)
    ensures (forall requested, v :: v in NarrowList(requested, trusted) && v != NO_TRUSTED_MATCH ==> v in trusted)
            <==> trusted != []
  {
    if trusted == [] {
      var requested := ["anything"];
      var v := requested[0];
      assert NarrowList(requested, trusted) == requested;
      assert v in NarrowList(requested, trusted) && v[0] != NO_TRUSTED_MATCH[0] && v !in trusted;
    } else {
      forall requested, v | v in NarrowList(requested, trusted) && v != NO_TRUSTED_MATCH ensures v in trusted {
        NarrowedPolicyExact(requested, trusted, v);
      }
    }
  }

  lemma {:induction false} CommonIdempotent(requested: seq<string>, trusted: seq<string>)
    ensures Common(Common(requested, trusted), trusted) == Common(requested, trusted)
  {
    if requested != [] {
      CommonIdempotent(requested[1..], trusted);
      var rest := Common(requested[1..], trusted);
      if requested[0] in trusted {
        assert ([requested[0]] + rest)[1..] == rest;
      } else {
        assert Common(requested, trusted) == rest;
      }
    }
  }

  lemma {:induction false} CommonOfSubset(values: seq<string>, trusted: seq<string>)
    requires forall v :: v in values ==> v in trusted
    ensures Common(values, trusted) == values
  {
    if values != [] { CommonOfSubset(values[1..], trusted); }
  }

  lemma NarrowListIdempotent(requested: seq<string>, trusted: seq<string>)
    ensures NarrowList(NarrowList(requested, trusted), trusted) == NarrowList(requested, trusted)
  {
    CommonIdempotent(requested, trusted);
    CommonOfSubset(trusted, trusted);
    assert Common([NO_TRUSTED_MATCH], trusted) ==
           (if NO_TRUSTED_MATCH in trusted then [NO_TRUSTED_MATCH] else []) + Common([], trusted);
  }

  /** Narrowing twice by the same authority changes nothing more. */
  lemma NarrowIdempotent(trusted: Scope, f: Filters)
    ensures Narrow(trusted, Narrow(trusted, f)) == Narrow(trusted, f)
  {
    NarrowListIdempotent(f.scope.sourceIds, trusted.sourceIds);
    NarrowListIdempotent(f.scope.sourceTypes, trusted.sourceTypes);
    NarrowListIdempotent(f.scope.visibility, trusted.visibility);
    NarrowListIdempotent(f.scope.sensitivity, trusted.sensitivity);
    NarrowListIdempotent(f.scope.licenseStatuses, trusted.licenseStatuses);
    NarrowListIdempotent(f.scope.licenseIds, trusted.licenseIds);
    NarrowListIdempotent(f.scope.redactions, trusted.redactions);
    NarrowListIdempotent(f.scope.eligibility, trusted.eligibility);
  }

  // ----- Active index -----

  /** What a retriever demands of the active index. */
  datatype Demand = Demand(required: bool, kind: Option<string>, profile: Option<string>)

  const NO_DEMAND := Demand(false, None, None)

  function ConfiguredProfile(index: Index, kind: Option<string>): Option<string> {
    if kind == Some("vector") then index.vectorProfile
    else if kind == Some("bm25") then index.bm25Profile
    else if kind == Some("exact") then index.exactProfile
    else None
  }

  predicate Usable(index: Index, d: Demand) {
    && index.active
    && (d.kind.Some? ==> index.kind == d.kind.value || index.kind == "hybrid")
    && (d.profile.Some? ==> ConfiguredProfile(index, d.kind) == d.profile)
  }

  function WithSources(f: Filters, ids: seq<string>): Filters {
    f.(scope := f.scope.(sourceIds := ids))
  }

  function IndexedSources(requested: seq<string>, indexed: seq<string>): seq<string> {
    var narrowed := Common(if requested != [] then requested else indexed, indexed);
    if narrowed != [] then narrowed else [NO_ACTIVE_INDEX]
  }

  function Resolve(indexes: map<string, Index>, f: Filters, d: Demand): Filters {
    if f.activeIndex.None? then
      if d.required then WithSources(f, [NO_ACTIVE_INDEX]) else f
    else if f.activeIndex.value !in indexes || !Usable(indexes[f.activeIndex.value], d) then
      WithSources(f, [NO_ACTIVE_INDEX])
    else
      var indexed := indexes[f.activeIndex.value].sourceIds;
      if indexed == [] then f else WithSources(f, IndexedSources(f.scope.sourceIds, indexed))
  }

  /** The index scope on its own: which sources it lets through. */
  predicate IndexAdmits(indexes: map<string, Index>, active: Option<string>, d: Demand, v: string) {
    if active.None? then !d.required
    else active.value in indexes && Usable(indexes[active.value], d) && Open(indexes[active.value].sourceIds, v)
  }

  lemma ResolvedSourcesExact(indexes: map<string, Index>, f: Filters, d: Demand, v: string)
    requires v != NO_ACTIVE_INDEX
    ensures Open(Resolve(indexes, f, d).scope.sourceIds, v) <==>
            Open(f.scope.sourceIds, v) && IndexAdmits(indexes, f.activeIndex, d, v)
  {}

  /** The profile the index records for each kind of retriever. */
  function Recorded(index: Index): set<(string, Option<string>)> {
    {("vector", index.vectorProfile), ("bm25", index.bm25Profile), ("exact", index.exactProfile)}
  }

  /**
   A demand is met by an active index of the kind asked for, or a hybrid one, that records the profile asked
   for under that very kind. Anything else closes the scope, and nothing but the sources is changed.
   */
  lemma OwnProfileOpens(indexes: map<string, Index>, f: Filters, d: Demand)
    requires f.activeIndex.Some? && f.activeIndex.value in indexes
    ensures var r, index := Resolve(indexes, f, d), indexes[f.activeIndex.value];
            var met :=
              && index.active && (d.kind.None? || index.kind in {d.kind.value, "hybrid"})
              && (d.profile.None? || (d.kind.Some? && (d.kind.value, d.profile) in Recorded(index)));
            && r == f.(scope := f.scope.(sourceIds := r.scope.sourceIds))
            && (!met ==> r.scope.sourceIds == [NO_ACTIVE_INDEX])
            && (met ==> forall v :: v != NO_ACTIVE_INDEX ==>
                  (Open(r.scope.sourceIds, v) <==> Open(f.scope.sourceIds, v) && Open(index.sourceIds, v)))
  {
    forall v | v != NO_ACTIVE_INDEX { ResolvedSourcesExact(indexes, f, d, v); }
  }

  lemma MissingIndexCloses(indexes: map<string, Index>, f: Filters, d: Demand)
    requires if f.activeIndex.Some? then f.activeIndex.value !in indexes else d.required
    ensures Resolve(indexes, f, d) == f.(scope := f.scope.(sourceIds := [NO_ACTIVE_INDEX]))
  {}

  lemma IndexedSourcesIdempotent(requested: seq<string>, indexed: seq<string>)
    ensures IndexedSources(IndexedSources(requested, indexed), indexed) == IndexedSources(requested, indexed)
  {
    var asked := if requested != [] then requested else indexed;
    CommonIdempotent(asked, indexed);
    assert Common([NO_ACTIVE_INDEX], indexed) ==
           (if NO_ACTIVE_INDEX in indexed then [NO_ACTIVE_INDEX] else []) + Common([], indexed);
  }

  lemma ResolveIdempotent(indexes: map<string, Index>, f: Filters, d: Demand)
    ensures Resolve(indexes, Resolve(indexes, f, d), d) == Resolve(indexes, f, d)
  {
    if f.activeIndex.Some? && f.activeIndex.value in indexes {
      IndexedSourcesIdempotent(f.scope.sourceIds, indexes[f.activeIndex.value].sourceIds);
    }
  }

  predicate Sentinel(v: string) { v == NO_TRUSTED_MATCH || v == NO_ACTIVE_INDEX }

  /** Narrow-then-resolve and resolve-then-narrow accept the same sources: those all three accept. */
  lemma SourcesAcceptedByAllThree(indexes: map<string, Index>, trusted: Scope, f: Filters, d: Demand, v: string)
    requires !Sentinel(v)
    ensures Open(Resolve(indexes, Narrow(trusted, f), d).scope.sourceIds, v) <==>
            && Open(trusted.sourceIds, v) && Open(f.scope.sourceIds, v)
            && IndexAdmits(indexes, f.activeIndex, d, v)
    ensures Open(Narrow(trusted, Resolve(indexes, f, d)).scope.sourceIds, v) <==>
            Open(Resolve(indexes, Narrow(trusted, f), d).scope.sourceIds, v)
  {
    ResolvedSourcesExact(indexes, f, d, v);
    ResolvedSourcesExact(indexes, Narrow(trusted, f), d, v);
    NarrowedSourcesExact(f.scope.sourceIds, trusted.sourceIds, v);
    NarrowedSourcesExact(Resolve(indexes, f, d).scope.sourceIds, trusted.sourceIds, v);
  }

  /** A retriever resolves with its demand; the chunk scope then narrows and resolves again. */
  function RetrievalFilters(indexes: map<string, Index>, trusted: Scope, f: Filters, d: Demand): Filters {
    Resolve(indexes, Narrow(trusted, Resolve(indexes, f, d)), NO_DEMAND)
  }

  /**
   The retriever's demand survives the later narrowing and re-resolution: a scope closed by a
   missing or wrong index stays closed, and an open one is what the three authorities share.
   */
  lemma RetrievalSourcesExact(indexes: map<string, Index>, trusted: Scope, f: Filters, d: Demand, v: string)
    requires !Sentinel(v)
    ensures Open(RetrievalFilters(indexes, trusted, f, d).scope.sourceIds, v) <==>
            && Open(trusted.sourceIds, v) && Open(f.scope.sourceIds, v)
            && IndexAdmits(indexes, f.activeIndex, d, v)
  {
    var first := Resolve(indexes, f, d);
    SourcesAcceptedByAllThree(indexes, trusted, first, NO_DEMAND, v);
    ResolvedSourcesExact(indexes, f, d, v);
    assert first.activeIndex == f.activeIndex;
    assert IndexAdmits(indexes, f.activeIndex, d, v) ==> IndexAdmits(indexes, f.activeIndex, NO_DEMAND, v);
  }

  // ----- Chunk and citation scopes -----

  datatype Policy = Policy(
    visibility: string, sensitivity: string, licenseStatus: string, licenseId: Option<string>,
    redaction: string, eligibility: string)

  datatype Chunk = Chunk(
    id: string, sourceId: string, sourceType: string, versionId: Option<string>,
    versionLabel: Option<string>, text: Option<string>, allowlisted: bool, policy: Policy, firstSeen: int)

  datatype Citation = Citation(
    id: string, chunkId: string, sourceId: string, sourceType: string, versionId: Option<string>,
    allowlisted: bool, policy: Policy)

  /** `current` holds the chunks with a current membership that carries no tombstone. */
  datatype Corpus = Corpus(
    chunks: set<Chunk>, citations: set<Citation>, current: set<string>, indexes: map<string, Index>)

  predicate PolicyAdmitted(scope: Scope, p: Policy) {
    && p.visibility in scope.visibility
    && p.sensitivity in scope.sensitivity
    && p.licenseStatus in scope.licenseStatuses
    && p.licenseId.Some? && p.licenseId.value in scope.licenseIds
    && p.redaction in scope.redactions
    && p.eligibility in scope.eligibility
  }

  predicate AtLeast(version: Option<string>, floor: string) { version.Some? && !StringLess(version.value, floor) }

  predicate AtMost(version: Option<string>, ceiling: string) { version.Some? && !StringLess(ceiling, version.value) }

  predicate RangesAdmit(f: Filters, c: Chunk) {
    && (f.versionLabels == [] || (c.versionLabel.Some? && c.versionLabel.value in f.versionLabels))
    && (forall floor :: floor in f.labelFloors ==> AtLeast(c.versionLabel, floor))
    && (forall ceiling :: ceiling in f.labelCeilings ==> AtMost(c.versionLabel, ceiling))
    && (f.timeFrom.Some? ==> c.firstSeen >= f.timeFrom.value)
    && (f.timeTo.Some? ==> c.firstSeen <= f.timeTo.value)
    && f.allowlisted
  }

  predicate CitationBacks(scope: Scope, x: Citation, c: Chunk) {
    && x.chunkId == c.id && x.versionId.Some? && x.versionId == c.versionId
    && x.sourceId == c.sourceId && x.sourceType == c.sourceType
    && x.allowlisted && PolicyAdmitted(scope, x.policy)
  }

  /** What every retrieval path asks of a chunk whatever the request says. */
  predicate Presentable(db: Corpus, c: Chunk) {
    c.allowlisted && c.versionId.Some? && c.text.Some? && c.text.value != "" && c.id in db.current
  }

  predicate ChunkAdmitted(db: Corpus, f: Filters, trusted: Scope, c: Chunk) {
    var narrowed := Resolve(db.indexes, Narrow(trusted, f), NO_DEMAND);
    && Presentable(db, c)
    && (exists x :: x in db.citations && CitationBacks(narrowed.scope, x, c))
    && PolicyAdmitted(narrowed.scope, c.policy)
    && Open(narrowed.scope.sourceIds, c.sourceId)
    && Open(narrowed.scope.sourceTypes, c.sourceType)
    && RangesAdmit(narrowed, c)
  }

  function ChunkScope(db: Corpus, f: Filters, trusted: Scope): set<Chunk> {
    set c | c in db.chunks && ChunkAdmitted(db, f, trusted, c)
  }

  /** Built on its own from the chunk scope's ids, sources and versions. */
  predicate CitationAdmitted(scope: set<Chunk>, f: Filters, trusted: Scope, x: Citation) {
    && x.allowlisted && PolicyAdmitted(Narrow(trusted, f).scope, x.policy)
    && exists c :: c in scope && c.id == x.chunkId && c.sourceId == x.sourceId
                   && x.versionId.Some? && c.versionId == x.versionId
  }

  function CitationScope(db: Corpus, f: Filters, trusted: Scope): set<Citation> {
    set x | x in db.citations && CitationAdmitted(ChunkScope(db, f, trusted), f, trusted, x)
  }

  predicate PolicyListsSet(s: Scope) {
    && s.visibility != [] && s.sensitivity != [] && s.licenseStatuses != []
    && s.licenseIds != [] && s.redactions != [] && s.eligibility != []
  }

  predicate PolicyUnmarked(p: Policy) {
    && !Sentinel(p.visibility) && !Sentinel(p.sensitivity) && !Sentinel(p.licenseStatus)
    && (p.licenseId.Some? ==> !Sentinel(p.licenseId.value)) && !Sentinel(p.redaction) && !Sentinel(p.eligibility)
  }

  /** The request's own policy lists, where an empty one says nothing. */
  predicate PolicyRequested(s: Scope, p: Policy) {
    && Open(s.visibility, p.visibility) && Open(s.sensitivity, p.sensitivity)
    && Open(s.licenseStatuses, p.licenseStatus)
    && (s.licenseIds == [] || (p.licenseId.Some? && p.licenseId.value in s.licenseIds))
    && Open(s.redactions, p.redaction) && Open(s.eligibility, p.eligibility)
  }

  lemma NarrowedPolicyAdmits(trusted: Scope, requested: Scope, p: Policy)
    requires PolicyListsSet(trusted) && PolicyUnmarked(p)
    ensures PolicyAdmitted(NarrowScope(trusted, requested), p) <==>
            PolicyAdmitted(trusted, p) && PolicyRequested(requested, p)
  {
    NarrowedPolicyExact(requested.visibility, trusted.visibility, p.visibility);
    NarrowedPolicyExact(requested.sensitivity, trusted.sensitivity, p.sensitivity);
    NarrowedPolicyExact(requested.licenseStatuses, trusted.licenseStatuses, p.licenseStatus);
    if p.licenseId.Some? { NarrowedPolicyExact(requested.licenseIds, trusted.licenseIds, p.licenseId.value); }
    NarrowedPolicyExact(requested.redactions, trusted.redactions, p.redaction);
    NarrowedPolicyExact(requested.eligibility, trusted.eligibility, p.eligibility);
  }

  ghost predicate CitationsUnmarked(db: Corpus) {
    forall x :: x in db.citations ==> PolicyUnmarked(x.policy)
  }

  /** A chunk is in scope exactly when it is presentable and every authority accepts it and a citation of it. */
  lemma ChunkAdmittedExact(db: Corpus, f: Filters, trusted: Scope, c: Chunk)
    requires PolicyListsSet(trusted) && PolicyUnmarked(c.policy) && CitationsUnmarked(db)
    requires !Sentinel(c.sourceId) && !Sentinel(c.sourceType)
    ensures ChunkAdmitted(db, f, trusted, c) <==>
            && Presentable(db, c) && RangesAdmit(f, c)
            && PolicyAdmitted(trusted, c.policy) && PolicyRequested(f.scope, c.policy)
            && Open(trusted.sourceIds, c.sourceId) && Open(f.scope.sourceIds, c.sourceId)
            && IndexAdmits(db.indexes, f.activeIndex, NO_DEMAND, c.sourceId)
            && Open(trusted.sourceTypes, c.sourceType) && Open(f.scope.sourceTypes, c.sourceType)
            && (exists x :: x in db.citations && CitationBacks(trusted, x, c) && PolicyRequested(f.scope, x.policy))
  {
    var narrowed := Resolve(db.indexes, Narrow(trusted, f), NO_DEMAND);
    SourcesAcceptedByAllThree(db.indexes, trusted, f, NO_DEMAND, c.sourceId);
    NarrowedSourcesExact(f.scope.sourceTypes, trusted.sourceTypes, c.sourceType);
    ResolvedPolicyAdmits(db.indexes, f, trusted, c.policy);
    RangesNarrowed(db.indexes, f, trusted, c);
    forall x | x in db.citations
      ensures CitationBacks(narrowed.scope, x, c) <==>
                CitationBacks(trusted, x, c) && PolicyRequested(f.scope, x.policy)
    {
      ResolvedPolicyAdmits(db.indexes, f, trusted, x.policy);
    }
  }

  lemma ResolvedPolicyAdmits(indexes: map<string, Index>, f: Filters, trusted: Scope, p: Policy)
    requires PolicyListsSet(trusted) && PolicyUnmarked(p)
    ensures PolicyAdmitted(Resolve(indexes, Narrow(trusted, f), NO_DEMAND).scope, p) <==>
            PolicyAdmitted(trusted, p) && PolicyRequested(f.scope, p)
  {
    NarrowedPolicyAdmits(trusted, f.scope, p);
    ResolvePolicyKept(indexes, Narrow(trusted, f), p);
  }

  lemma ResolvePolicyKept(indexes: map<string, Index>, f: Filters, p: Policy)
    ensures PolicyAdmitted(Resolve(indexes, f, NO_DEMAND).scope, p) <==> PolicyAdmitted(f.scope, p)
  {}

  lemma RangesNarrowed(indexes: map<string, Index>, f: Filters, trusted: Scope, c: Chunk)
    ensures RangesAdmit(Resolve(indexes, Narrow(trusted, f), NO_DEMAND), c) <==> RangesAdmit(f, c)
    ensures Resolve(indexes, Narrow(trusted, f), NO_DEMAND).scope.sourceTypes
              == NarrowScope(trusted, f.scope).sourceTypes
  {}

  /** The two scopes are built apart and still cover each other: no uncited chunk, no stray citation. */
  lemma ScopesCoverEachOther(db: Corpus, f: Filters, trusted: Scope)
    ensures forall c :: c in ChunkScope(db, f, trusted) ==>
              exists x :: x in CitationScope(db, f, trusted) && x.chunkId == c.id
                && x.sourceId == c.sourceId && x.versionId == c.versionId
    ensures forall x :: x in CitationScope(db, f, trusted) ==>
              exists c :: c in ChunkScope(db, f, trusted) && x.chunkId == c.id
                && x.sourceId == c.sourceId && x.versionId == c.versionId
  {
    forall c | c in ChunkScope(db, f, trusted)
      ensures exists x :: x in CitationScope(db, f, trusted) && x.chunkId == c.id
                && x.sourceId == c.sourceId && x.versionId == c.versionId
    {
      var x := CitationOf(db, f, trusted, c);
    }
  }

  lemma CitationOf(db: Corpus, f: Filters, trusted: Scope, c: Chunk) returns (x: Citation)
    requires c in ChunkScope(db, f, trusted)
    ensures x in CitationScope(db, f, trusted) && x.chunkId == c.id && x.sourceId == c.sourceId
              && x.versionId == c.versionId
  {
    var narrowed := Resolve(db.indexes, Narrow(trusted, f), NO_DEMAND);
    x :| x in db.citations && CitationBacks(narrowed.scope, x, c);
    ResolvePolicyKept(db.indexes, Narrow(trusted, f), x.policy);
  }
}
