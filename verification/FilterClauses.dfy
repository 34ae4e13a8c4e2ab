/** The filters as the service builds them: a dictionary of updates, and a list of SQL clauses grown step by step. */
module FilterClauses {
  import opened Ordering
  import opened CorpusFilters

  // ----- Narrowing -----

  datatype Dimension =
    | SourceIds | SourceTypes | Visibility | Sensitivity | LicenseStatuses | LicenseIds | Redactions | Eligibility

  const DIMENSIONS := [SourceIds, SourceTypes, Visibility, Sensitivity, LicenseStatuses, LicenseIds, Redactions,
                       Eligibility]

  function Values(s: Scope, d: Dimension): seq<string> {
    match d
    case SourceIds => s.sourceIds
    case SourceTypes => s.sourceTypes
    case Visibility => s.visibility
    case Sensitivity => s.sensitivity
    case LicenseStatuses => s.licenseStatuses
    case LicenseIds => s.licenseIds
    case Redactions => s.redactions
    case Eligibility => s.eligibility
  }

  lemma EveryDimensionOnce()
    ensures Distinct(DIMENSIONS) && forall d: Dimension :: d in DIMENSIONS
  {
    assert DIMENSIONS[0] == SourceIds && DIMENSIONS[1] == SourceTypes && DIMENSIONS[2] == Visibility;
    assert DIMENSIONS[3] == Sensitivity && DIMENSIONS[4] == LicenseStatuses && DIMENSIONS[5] == LicenseIds;
    assert DIMENSIONS[6] == Redactions && DIMENSIONS[7] == Eligibility;
    forall d: Dimension ensures d in DIMENSIONS {
      match d
      case SourceIds => case SourceTypes => case Visibility => case Sensitivity =>
      case LicenseStatuses => case LicenseIds => case Redactions => case Eligibility =>
    }
  }

  type Updates = map<Dimension, seq<string>>

  /** The first i dimensions carry their final list, the others their intersection. */
  ghost predicate UpdatedTo(dims: seq<Dimension>, updates: Updates, trusted: Scope, requested: Scope, i: nat)
    requires i <= |dims|
  {
    forall j :: 0 <= j < |dims| ==>
      && dims[j] in updates
      && updates[dims[j]] == if j < i then NarrowList(Values(requested, dims[j]), Values(trusted, dims[j]))
                             else Intersection(Values(requested, dims[j]), Values(trusted, dims[j]))
  }

  /** The sentinel replaces what is left of a request with nothing in common with the trusted list. */
  method MarkEmpty(dims: seq<Dimension>, trusted: Scope, requested: Scope, start: Updates) returns (updates: Updates)
    requires Distinct(dims) && UpdatedTo(dims, start, trusted, requested, 0)
    ensures UpdatedTo(dims, updates, trusted, requested, |dims|)
  {
    updates := start;
    for i := 0 to |dims|
      invariant UpdatedTo(dims, updates, trusted, requested, i)
    {
      MarkedOneMore(dims, updates, trusted, requested, i);
      if Values(requested, dims[i]) != [] && updates[dims[i]] == [] {
        updates := updates[dims[i] := [NO_TRUSTED_MATCH]];
      }
    }
  }

  lemma MarkedOneMore(dims: seq<Dimension>, updates: Updates, trusted: Scope, requested: Scope, i: nat)
    requires Distinct(dims) && i < |dims| && UpdatedTo(dims, updates, trusted, requested, i)
    ensures dims[i] in updates
    ensures UpdatedTo(dims, if Values(requested, dims[i]) != [] && updates[dims[i]] == []
                            then updates[dims[i] := [NO_TRUSTED_MATCH]] else updates, trusted, requested, i + 1)
  {
    assert forall j :: 0 <= j < |dims| && j != i ==> dims[j] != dims[i];
  }

  lemma MarkedValue(dims: seq<Dimension>, updates: Updates, trusted: Scope, requested: Scope, d: Dimension)
    requires d in dims && UpdatedTo(dims, updates, trusted, requested, |dims|)
    ensures d in updates && updates[d] == NarrowList(Values(requested, d), Values(trusted, d))
  {
    var j :| 0 <= j < |dims| && dims[j] == d;
  }

  method Updated(trusted: Scope, requested: Scope) returns (updates: Updates)
    ensures forall d: Dimension :: d in updates && updates[d] == NarrowList(Values(requested, d), Values(trusted, d))
  {
    EveryDimensionOnce();
    updates := map d | d in DIMENSIONS :: Intersection(Values(requested, d), Values(trusted, d));
    updates := MarkEmpty(DIMENSIONS, trusted, requested, updates);
    forall d: Dimension ensures d in updates && updates[d] == NarrowList(Values(requested, d), Values(trusted, d)) {
      MarkedValue(DIMENSIONS, updates, trusted, requested, d);
    }
  }

  /** `narrow_filters`: intersections first, then the sentinel wherever a request is left with nothing. */
  method NarrowFilters(trusted: Scope, f: Filters) returns (narrowed: Filters)
    ensures narrowed == Narrow(trusted, f)
  {
    var updates := Updated(trusted, f.scope);
    narrowed := f.(scope := Scope(updates[SourceIds], updates[SourceTypes], updates[Visibility], updates[Sensitivity],
                                  updates[LicenseStatuses], updates[LicenseIds], updates[Redactions],
                                  updates[Eligibility]));
  }

  // ----- Clauses -----

  type Clause = Chunk -> bool

  ghost predicate AllHold(clauses: seq<Clause>, c: Chunk) {
    forall i :: 0 <= i < |clauses| ==> clauses[i](c)
  }

  method Append(before: seq<Clause>, clause: Clause) returns (clauses: seq<Clause>)
    ensures forall c :: AllHold(clauses, c) <==> AllHold(before, c) && clause(c)
  {
    clauses := before + [clause];
    forall c ensures AllHold(clauses, c) <==> AllHold(before, c) && clause(c) {
      assert clauses[|before|] == clause && forall i :: 0 <= i < |before| ==> clauses[i] == before[i];
    }
  }

  method VersionClauses(narrowed: Filters, before: seq<Clause>) returns (clauses: seq<Clause>)
    ensures forall c :: AllHold(clauses, c) <==>
              AllHold(before, c)
              && (forall floor :: floor in narrowed.labelFloors ==> AtLeast(c.versionLabel, floor))
              && (forall ceiling :: ceiling in narrowed.labelCeilings ==> AtMost(c.versionLabel, ceiling))
  {
    clauses := before;
    for i := 0 to |narrowed.labelFloors|
      invariant forall c :: AllHold(clauses, c) <==>
                  AllHold(before, c) && forall j :: 0 <= j < i ==> AtLeast(c.versionLabel, narrowed.labelFloors[j])
    {
      var floor := narrowed.labelFloors[i];
      clauses := Append(clauses, (c: Chunk) => AtLeast(c.versionLabel, floor));
    }
    ghost var floored := clauses;
    for i := 0 to |narrowed.labelCeilings|
      invariant forall c :: AllHold(clauses, c) <==>
                  AllHold(floored, c) && forall j :: 0 <= j < i ==> AtMost(c.versionLabel, narrowed.labelCeilings[j])
    {
      var ceiling := narrowed.labelCeilings[i];
      clauses := Append(clauses, (c: Chunk) => AtMost(c.versionLabel, ceiling));
    }
  }

  method TimeClauses(narrowed: Filters, before: seq<Clause>) returns (clauses: seq<Clause>)
    ensures forall c :: AllHold(clauses, c) <==>
              AllHold(before, c)
              && (narrowed.timeFrom.Some? ==> c.firstSeen >= narrowed.timeFrom.value)
              && (narrowed.timeTo.Some? ==> c.firstSeen <= narrowed.timeTo.value)
              && narrowed.allowlisted
  {
    clauses := before;
    if narrowed.timeFrom.Some? {
      clauses := Append(clauses, (c: Chunk) => c.firstSeen >= narrowed.timeFrom.value);
    }
    if narrowed.timeTo.Some? {
      clauses := Append(clauses, (c: Chunk) => c.firstSeen <= narrowed.timeTo.value);
    }
    if !narrowed.allowlisted { clauses := Append(clauses, (c: Chunk) => false); }
  }

  method ListClauses(narrowed: Filters, before: seq<Clause>) returns (clauses: seq<Clause>)
    ensures forall c :: AllHold(clauses, c) <==>
              AllHold(before, c)
              && Open(narrowed.scope.sourceIds, c.sourceId) && Open(narrowed.scope.sourceTypes, c.sourceType)
              && (narrowed.versionLabels == []
                   || (c.versionLabel.Some? && c.versionLabel.value in narrowed.versionLabels))
  {
    clauses := before;
    if narrowed.scope.sourceIds != [] {
      clauses := Append(clauses, (c: Chunk) => c.sourceId in narrowed.scope.sourceIds);
    }
    if narrowed.scope.sourceTypes != [] {
      clauses := Append(clauses, (c: Chunk) => c.sourceType in narrowed.scope.sourceTypes);
    }
    if narrowed.versionLabels != [] {
      clauses := Append(clauses, (c: Chunk) => c.versionLabel.Some? && c.versionLabel.value in narrowed.versionLabels);
    }
  }

  /** The clauses that are there whatever the request says. */
  method FixedClauses(db: Corpus, narrowed: Filters) returns (clauses: seq<Clause>)
    ensures forall c :: AllHold(clauses, c) <==>
              && Presentable(db, c) && PolicyAdmitted(narrowed.scope, c.policy)
              && (exists x :: x in db.citations && CitationBacks(narrowed.scope, x, c))
  {
    clauses := Append([], (c: Chunk) => Presentable(db, c));
    clauses := Append(clauses, (c: Chunk) =>
      exists x: Citation :: x in db.citations && CitationBacks(narrowed.scope, x, c));
    clauses := Append(clauses, (c: Chunk) => PolicyAdmitted(narrowed.scope, c.policy));
  }

  /** `chunk_filter_clauses`: together the clauses admit exactly the chunks in scope. */
  method ChunkFilterClauses(db: Corpus, f: Filters, trusted: Scope) returns (clauses: seq<Clause>)
    ensures forall c :: AllHold(clauses, c) <==> ChunkAdmitted(db, f, trusted, c)
  {
    var narrowed := NarrowFilters(trusted, f);
    narrowed := Resolve(db.indexes, narrowed, NO_DEMAND);
    var fixed := FixedClauses(db, narrowed);
    var listed := ListClauses(narrowed, fixed);
    var versioned := VersionClauses(narrowed, listed);
    clauses := TimeClauses(narrowed, versioned);
    forall c ensures AllHold(clauses, c) <==> ChunkAdmitted(db, f, trusted, c) {
      AdmittedInParts(db, f, trusted, narrowed, c);
    }
  }

  lemma AdmittedInParts(db: Corpus, f: Filters, trusted: Scope, narrowed: Filters, c: Chunk)
    requires narrowed == Resolve(db.indexes, Narrow(trusted, f), NO_DEMAND)
    ensures ChunkAdmitted(db, f, trusted, c) <==>
            && Presentable(db, c) && PolicyAdmitted(narrowed.scope, c.policy)
            && (exists x :: x in db.citations && CitationBacks(narrowed.scope, x, c))
            && Open(narrowed.scope.sourceIds, c.sourceId) && Open(narrowed.scope.sourceTypes, c.sourceType)
            && RangesAdmit(narrowed, c)
  {}
}
