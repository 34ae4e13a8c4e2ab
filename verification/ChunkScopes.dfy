/** The chunk scope told field by field on the chunk, the trusted scope and the request. */
module ChunkScopes {
  import opened Ordering
  import opened CorpusFilters
  import opened FilterClauses

  const POLICY := {Visibility, Sensitivity, LicenseStatuses, LicenseIds, Redactions, Eligibility}

  /** What a policy says on one dimension; only the license id may be missing. */
  function Field(p: Policy, d: Dimension): Option<string> {
    match d
    case Visibility => Some(p.visibility)
    case Sensitivity => Some(p.sensitivity)
    case LicenseStatuses => Some(p.licenseStatus)
    case LicenseIds => p.licenseId
    case Redactions => Some(p.redaction)
    case Eligibility => Some(p.eligibility)
    case _ => None
  }

  /** A value that is trusted and, if the request names any, among those it names. */
  predicate Passes(trusted: seq<string>, requested: seq<string>, value: Option<string>) {
    value.Some? && value.value in trusted && (requested == [] || value.value in requested)
  }

  predicate PolicyPasses(trusted: Scope, requested: Scope, p: Policy) {
    forall d :: d in POLICY ==> Passes(Values(trusted, d), Values(requested, d), Field(p, d))
  }

  lemma PolicyPassesIff(trusted: Scope, requested: Scope, p: Policy)
    ensures PolicyPasses(trusted, requested, p) <==> PolicyAdmitted(trusted, p) && PolicyRequested(requested, p)
  {
    if PolicyPasses(trusted, requested, p) {
      forall d | d in POLICY ensures Passes(Values(trusted, d), Values(requested, d), Field(p, d)) {}
      assert Visibility in POLICY && Sensitivity in POLICY && LicenseStatuses in POLICY;
      assert LicenseIds in POLICY && Redactions in POLICY && Eligibility in POLICY;
    }
  }

  /** The citation is of the chunk's own version and source, allowlisted, and passes the policy itself. */
  predicate Cites(trusted: Scope, requested: Scope, x: Citation, c: Chunk) {
    && x.chunkId == c.id && c.versionId.Some? && x.versionId == c.versionId
    && (x.sourceId, x.sourceType) == (c.sourceId, c.sourceType)
    && x.allowlisted && PolicyPasses(trusted, requested, x.policy)
  }

  predicate WithinRanges(f: Filters, c: Chunk) {
    && f.allowlisted
    && (f.versionLabels == [] || (c.versionLabel.Some? && c.versionLabel.value in f.versionLabels))
    && (forall x :: x in f.labelFloors ==> c.versionLabel.Some? && !StringLess(c.versionLabel.value, x))
    && (forall x :: x in f.labelCeilings ==> c.versionLabel.Some? && !StringLess(x, c.versionLabel.value))
    && (f.timeFrom.Some? ==> f.timeFrom.value <= c.firstSeen)
    && (f.timeTo.Some? ==> c.firstSeen <= f.timeTo.value)
  }

  /** The active index, if one is named, is there, active, and limits no source list or has the source. */
  predicate IndexHas(db: Corpus, f: Filters, source: string) {
    f.activeIndex.Some? ==>
      && f.activeIndex.value in db.indexes && db.indexes[f.activeIndex.value].active
      && (db.indexes[f.activeIndex.value].sourceIds == [] || source in db.indexes[f.activeIndex.value].sourceIds)
  }

  predicate OnList(list: seq<string>, v: string) { list == [] || v in list }

  lemma CitedIff(db: Corpus, f: Filters, trusted: Scope, c: Chunk)
    ensures (exists x :: x in db.citations && Cites(trusted, f.scope, x, c)) <==>
            exists x :: x in db.citations && CitationBacks(trusted, x, c) && PolicyRequested(f.scope, x.policy)
  {
    forall x: Citation
      ensures Cites(trusted, f.scope, x, c) <==> CitationBacks(trusted, x, c) && PolicyRequested(f.scope, x.policy)
    {
      PolicyPassesIff(trusted, f.scope, x.policy);
    }
  }

  lemma RangesIff(f: Filters, c: Chunk)
    ensures WithinRanges(f, c) <==> RangesAdmit(f, c)
  {
    assert forall x :: x in f.labelFloors ==>
        (AtLeast(c.versionLabel, x) <==> c.versionLabel.Some? && !StringLess(c.versionLabel.value, x));
    assert forall x :: x in f.labelCeilings ==>
        (AtMost(c.versionLabel, x) <==> c.versionLabel.Some? && !StringLess(x, c.versionLabel.value));
  }

  lemma IndexIff(db: Corpus, f: Filters, source: string)
    ensures IndexHas(db, f, source) <==> IndexAdmits(db.indexes, f.activeIndex, NO_DEMAND, source)
  {}

  /** Kept with a text, a version and a current membership. */
  predicate Stored(db: Corpus, c: Chunk) {
    && c in db.chunks && c.id in db.current && c.allowlisted && c.versionId.Some?
    && c.text.Some? && c.text.value != ""
  }

  /**
   The chunks in scope are those stored for retrieval that pass the policy on every dimension, come from a
   source and of a type nobody excludes, fall within the ranges and have a citation that passes the policy too.
   */
  lemma ChunkInScopeIff(db: Corpus, f: Filters, trusted: Scope, c: Chunk)
    requires PolicyListsSet(trusted) && PolicyUnmarked(c.policy) && CitationsUnmarked(db)
    requires !Sentinel(c.sourceId) && !Sentinel(c.sourceType)
    ensures c in ChunkScope(db, f, trusted) <==>
            && Stored(db, c) && PolicyPasses(trusted, f.scope, c.policy) && WithinRanges(f, c)
            && OnList(trusted.sourceIds, c.sourceId) && OnList(f.scope.sourceIds, c.sourceId)
            && OnList(trusted.sourceTypes, c.sourceType) && OnList(f.scope.sourceTypes, c.sourceType)
            && IndexHas(db, f, c.sourceId)
            && exists x :: x in db.citations && Cites(trusted, f.scope, x, c)
  {
    ChunkAdmittedExact(db, f, trusted, c);
    PolicyPassesIff(trusted, f.scope, c.policy);
    RangesIff(f, c);
    IndexIff(db, f, c.sourceId);
    CitedIff(db, f, trusted, c);
  }

  /** The citations in scope are the allowlisted ones that pass the policy and are of a version of a chunk in scope. */
  lemma CitationInScopeIff(db: Corpus, f: Filters, trusted: Scope, x: Citation)
    requires PolicyListsSet(trusted) && PolicyUnmarked(x.policy)
    ensures x in CitationScope(db, f, trusted) <==>
            && x in db.citations && x.allowlisted && PolicyPasses(trusted, f.scope, x.policy)
            && exists c :: c in ChunkScope(db, f, trusted) && c.versionId.Some?
                           && (c.id, c.sourceId, c.versionId) == (x.chunkId, x.sourceId, x.versionId)
  {
    NarrowedPolicyAdmits(trusted, f.scope, x.policy);
    PolicyPassesIff(trusted, f.scope, x.policy);
  }
}
