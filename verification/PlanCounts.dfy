/** What the planner's answer counts, read off the tables before and after the call. */
module PlanCounts {
  import opened Ordering
  import opened EmbeddingTables
  import opened EmbeddingRuns
  import opened EmbeddingPlanning

  /** Keys with an open job now that had none, or a failed one, before. */
  function NewlyOpen(before: map<Key, Job>, after: map<Key, Job>): set<Key> {
    set k | k in after && after[k].status in {Pending, Running, Retrying}
            && (k !in before || before[k].status == Failed)
  }

  /** Keys whose vector was active before and is not now. */
  function SwitchedOff(before: map<Key, Vector>, after: map<Key, Vector>): set<Key> {
    set k | k in before && before[k].active && !(k in after && after[k].active)
  }

  /** What the chunk's row and its memberships must say for it to be embedded. */
  predicate MayEmbed(db: Db, c: string) {
    && c in db.chunks && db.chunks[c].allowlisted && db.chunks[c].versioned && db.chunks[c].text != ""
    && (db.chunks[c].redaction == "redacted" || db.chunks[c].redaction == "not_required")
    && db.chunks[c].license == "allowed"
    && exists m :: m in db.memberships && m.chunk == c && db.memberships[m] == Membership(true, false)
  }

  lemma MayEmbedIff(db: Db, c: string)
    ensures MayEmbed(db, c) <==> Eligible(db, c)
  {
    assert forall m :: m in db.memberships ==>
        (db.memberships[m] == Membership(true, false) <==> db.memberships[m].current && !db.memberships[m].tombstoned);
  }

  /** Places of the listing whose chunk may not be embedded. */
  function Passed(db: Db, ids: seq<string>): set<nat> {
    set i: nat | i < |ids| && !MayEmbed(db, ids[i])
  }

  // ----- While the rows are read -----

  /** Jobs are as they were, or newly pending where there was none or a failed one. */
  ghost predicate OnlyOpened(before: map<Key, Job>, after: map<Key, Job>) {
    && before.Keys <= after.Keys
    && forall k :: k in after ==>
         || (k in before && after[k] == before[k])
         || ((k !in before || before[k].status == Failed) && after[k].status == Pending)
  }

  ghost predicate Counted(db: Db, model: string, index: string, ids: seq<string>, s: PlanState)
    requires index in db.scopes
  {
    && s.vectors == PlanStart(db, model, index).vectors && s.deactivated == |Unembeddable(db, model, index)|
    && OnlyOpened(db.jobs, s.jobs) && s.created == |s.pending| + |NewlyOpen(db.jobs, s.jobs)|
    && s.skipped == |Passed(db, ids)|
  }

  lemma PassedNext(db: Db, ids: seq<string>)
    requires ids != []
    ensures var last := |ids| - 1;
            |Passed(db, ids)| == |Passed(db, ids[..last])| + if Eligible(db, ids[last]) then 0 else 1
  {
    var last := |ids| - 1;
    MayEmbedIff(db, ids[last]);
    assert Passed(db, ids) == Passed(db, ids[..last]) + if MayEmbed(db, ids[last]) then {} else {last};
  }

  lemma FlushCounts(before: map<Key, Job>, jobs: map<Key, Job>, pending: seq<Key>, clock: int, after: map<Key, Job>)
    requires OnlyOpened(before, jobs) && Flushed(jobs, pending, clock) == Ok(after)
    ensures OnlyOpened(before, after)
    ensures |NewlyOpen(before, after)| == |NewlyOpen(before, jobs)| + |pending|
  {
    FlushKeeps(jobs, pending, clock);
    DistinctCardinality(pending);
    AddedAreOpen(before, jobs, (set k | k in pending), after);
  }

  lemma AddedAreOpen(before: map<Key, Job>, jobs: map<Key, Job>, added: set<Key>, after: map<Key, Job>)
    requires OnlyOpened(before, jobs) && added !! jobs.Keys && after.Keys == jobs.Keys + added
    requires (forall k :: k in added ==> after[k].status == Pending) && forall k :: k in jobs ==> after[k] == jobs[k]
    ensures OnlyOpened(before, after)
    ensures |NewlyOpen(before, after)| == |NewlyOpen(before, jobs)| + |added|
  {
    assert NewlyOpen(before, after) == NewlyOpen(before, jobs) + added;
    assert NewlyOpen(before, jobs) !! added;
  }

  lemma ResetCounts(before: map<Key, Job>, jobs: map<Key, Job>, k: Key)
    requires OnlyOpened(before, jobs) && k in jobs && jobs[k].status == Failed
    ensures var after := jobs[k := ResetJob(jobs[k])];
            OnlyOpened(before, after) && |NewlyOpen(before, after)| == |NewlyOpen(before, jobs)| + 1
  {
    var after := jobs[k := ResetJob(jobs[k])];
    assert NewlyOpen(before, after) == NewlyOpen(before, jobs) + {k} && k !in NewlyOpen(before, jobs);
  }

  lemma StepCounts(db: Db, model: string, index: string, ids: seq<string>, s: PlanState)
    requires index in db.scopes && ids != [] && ids[|ids| - 1] in db.chunks
    requires Counted(db, model, index, ids[..|ids| - 1], s)
    ensures var r := PlanStep(db, model, index, s, ids[|ids| - 1]); r.Ok? ==> Counted(db, model, index, ids, r.value)
  {
    var c := ids[|ids| - 1];
    var k := KeyOf(db, model, index, c);
    PassedNext(db, ids);
    if !Eligible(db, c) {
      SweepLeavesNothing(db, model, index, c);
    } else if k in s.jobs && s.jobs[k].status == Failed {
      ResetCounts(db.jobs, s.jobs, k);
      var reset := s.jobs[k := ResetJob(s.jobs[k])];
      var flushed := Flushed(reset, s.pending, db.clock);
      if flushed.Ok? { FlushCounts(db.jobs, reset, s.pending, db.clock, flushed.value); }
    }
  }

  lemma {:induction false} RowsCount(db: Db, model: string, index: string, ids: seq<string>)
    requires index in db.scopes && forall c :: c in ids ==> c in db.chunks
    ensures var r := PlanRows(db, model, index, ids); r.Ok? ==> Counted(db, model, index, ids, r.value)
  {
    if ids == [] {
      assert NewlyOpen(db.jobs, db.jobs) == {} && Passed(db, ids) == {};
    } else {
      var most := ids[..|ids| - 1];
      RowsCount(db, model, index, most);
      var before := PlanRows(db, model, index, most);
      if before.Ok? { StepCounts(db, model, index, ids, before.value); }
    }
  }

  // ----- The answer -----

  /** Created, skipped and deactivated are what the tables show, whatever rows were read. */
  ghost predicate Tells(db: Db, ids: seq<string>, after: Db, summary: PlanSummary) {
    && summary.created == |NewlyOpen(db.jobs, after.jobs)|
    && summary.skipped == |Passed(db, ids)|
    && summary.deactivated == |SwitchedOff(db.vectors, after.vectors)|
  }

  lemma SummaryTells(db: Db, model: string, index: string, ids: seq<string>)
    requires index in db.scopes && forall c :: c in ids ==> c in db.chunks
    ensures var r := Plan(db, model, index, ids);
            r.Ok? ==>
              && Tells(db, ids, r.value.0, r.value.1) && OnlyOpened(db.jobs, r.value.0.jobs)
              && r.value.0.vectors == Switched(db.vectors, Unembeddable(db, model, index))
              && r.value.0.models == db.models
  {
    RowsCount(db, model, index, ids);
    var rows := PlanRows(db, model, index, ids);
    if rows.Ok? {
      var s := rows.value;
      var flushed := Flushed(s.jobs, s.pending, db.clock);
      if flushed.Ok? {
        FlushCounts(db.jobs, s.jobs, s.pending, db.clock, flushed.value);
        assert SwitchedOff(db.vectors, s.vectors) == Unembeddable(db, model, index);
      }
    }
  }

  /** The job row a planner call leaves at a key, in the columns themselves. */
  ghost predicate RowTells(db: Db, model: string, index: string, ids: seq<string>, k: Key, after: map<Key, Job>)
    requires index in db.scopes
  {
    var due := k.chunk in ids && k.chunk in db.chunks && k == Key(k.chunk, model, index, db.chunks[k.chunk].hash)
               && MayEmbed(db, k.chunk) && !(k in db.vectors && db.vectors[k].active);
    if k !in db.jobs then
      && (k in after <==> due)
      && (k in after ==> after[k].status == Pending && after[k].attempts == 0 && after[k].nextRetry == None
                         && after[k].created == db.clock)
    else
      && k in after && after[k].created == db.jobs[k].created
      && if due && db.jobs[k].status == Failed then
           after[k].status == Pending && after[k].attempts == 0 && after[k].nextRetry == None
         else
           after[k] == db.jobs[k]
  }

  lemma RowsTell(db: Db, model: string, index: string, ids: seq<string>)
    requires index in db.scopes && Distinct(ids) && forall c :: c in ids ==> c in db.chunks && Plannable(db, index, c)
    requires Plan(db, model, index, ids).Ok?
    ensures forall k :: RowTells(db, model, index, ids, k, Plan(db, model, index, ids).value.0.jobs)
  {
    PlanCollidesIff(db, model, index, ids);
    var after := Plan(db, model, index, ids).value.0;
    forall k ensures RowTells(db, model, index, ids, k, after.jobs) {
      MayEmbedIff(db, k.chunk);
      assert k in db.jobs ==> after.jobs[k] == PlannedJob(db, model, index, ids, k);
    }
  }

  /** A chunk read that may be embedded, has no active vector at its hash, and whose job there is done with. */
  ghost predicate JobInTheWay(db: Db, model: string, index: string, ids: seq<string>, k: Key) {
    && k.chunk in ids && MayEmbed(db, k.chunk) && k == Key(k.chunk, model, index, db.chunks[k.chunk].hash)
    && !(k in db.vectors && db.vectors[k].active)
    && k in db.jobs && db.jobs[k].status in {Succeeded, Cancelled}
  }

  lemma ClashTold(db: Db, model: string, index: string, ids: seq<string>, k: Key)
    requires k.chunk in ids
    ensures Clash(db, model, index, k) <==> JobInTheWay(db, model, index, ids, k)
  {
    MayEmbedIff(db, k.chunk);
  }

  /** The call fails if and only if some job is in the way, and names one that is. */
  lemma PlanFailsIff(db: Db, model: string, index: string, ids: seq<string>)
    requires index in db.scopes && Distinct(ids) && forall c :: c in ids ==> c in db.chunks && Plannable(db, index, c)
    ensures var r := Plan(db, model, index, ids);
            && (r.Err? <==> exists k :: JobInTheWay(db, model, index, ids, k))
            && (r.Err? ==> r.error.DuplicateJob? && JobInTheWay(db, model, index, ids, r.error.key))
  {
    PlanCollidesIff(db, model, index, ids);
    forall k: Key | k.chunk in ids { ClashTold(db, model, index, ids, k); }
    if Plan(db, model, index, ids).Err? {
      var k: Key :| k.chunk in ids && Clash(db, model, index, k);
      assert JobInTheWay(db, model, index, ids, k);
      FailureNamed(db, model, index, ids);
    }
  }

  lemma {:induction false} FlushNames(jobs: map<Key, Job>, pending: seq<Key>, clock: int)
    ensures var r := Flushed(jobs, pending, clock); r.Err? ==> r.error.DuplicateJob? && r.error.key in pending
    decreases |pending|
  {
    if pending != [] { FlushNames(jobs[pending[0] := NewJob(clock)], pending[1..], clock); }
  }

  ghost predicate NamesRead(ids: seq<string>, r: Result<PlanState, PlanError>) {
    match r
    case Ok(s) => forall k :: k in s.pending ==> k.chunk in ids
    case Err(error) => error.DuplicateJob? && error.key.chunk in ids
  }

  lemma StepNames(db: Db, model: string, index: string, ids: seq<string>, s: PlanState)
    requires ids != [] && ids[|ids| - 1] in db.chunks && NamesRead(ids[..|ids| - 1], Ok(s))
    ensures NamesRead(ids, PlanStep(db, model, index, s, ids[|ids| - 1]))
  {
    var k := KeyOf(db, model, index, ids[|ids| - 1]);
    if k in s.jobs { FlushNames(s.jobs[k := ResetJob(s.jobs[k])], s.pending, db.clock); }
  }

  lemma {:induction false} RowsName(db: Db, model: string, index: string, ids: seq<string>)
    requires index in db.scopes && forall c :: c in ids ==> c in db.chunks
    ensures NamesRead(ids, PlanRows(db, model, index, ids))
  {
    if ids != [] {
      RowsName(db, model, index, ids[..|ids| - 1]);
      var before := PlanRows(db, model, index, ids[..|ids| - 1]);
      if before.Ok? { StepNames(db, model, index, ids, before.value); }
    }
  }

  lemma FailureNamed(db: Db, model: string, index: string, ids: seq<string>)
    requires index in db.scopes && (forall c :: c in ids ==> c in db.chunks) && Plan(db, model, index, ids).Err?
    ensures Plan(db, model, index, ids).error.DuplicateJob? && Plan(db, model, index, ids).error.key.chunk in ids
  {
    RowsName(db, model, index, ids);
    var rows := PlanRows(db, model, index, ids);
    if rows.Ok? { FlushNames(rows.value.jobs, rows.value.pending, db.clock); }
  }

  // ----- What is read and what is swept -----

  /** The chunk has a version and a source the index takes. */
  predicate Readable(db: Db, index: string, c: string) {
    && index in db.scopes && c in db.chunks && db.chunks[c].versioned
    && (db.scopes[index] == None || db.chunks[c].source in db.scopes[index].value)
  }

  /**
   Chunks are listed in id order, a readable one once for every current membership, with a tombstone or not;
   the first of the list are read, as many as the limit allows.
   */
  lemma ListingTells(db: Db, index: string, ids: seq<string>, limit: Option<nat>)
    requires index in db.scopes && IsListing(db, index, ids)
    ensures var read := Limited(ids, limit);
            read <= ids && (read == ids || limit == Some(|read|)) && (limit.Some? ==> |read| <= limit.value)
    ensures forall i, j :: 0 <= i < j < |ids| ==> !StringLess(ids[j], ids[i])
    ensures forall c :: multiset(ids)[c] ==
                        if Readable(db, index, c)
                        then |set m | m in db.memberships && m.chunk == c && db.memberships[m].current| else 0
  {
    forall c: string
      ensures multiset(ids)[c] ==
              if Readable(db, index, c)
              then |set m | m in db.memberships && m.chunk == c && db.memberships[m].current| else 0
    {
      assert CurrentMemberships(db, c) == set m | m in db.memberships && m.chunk == c && db.memberships[m].current;
    }
  }

  /** Of the model's vectors in the index those stay on that are of a chunk in scope that may be embedded. */
  ghost predicate VectorPlanned(db: Db, model: string, index: string, k: Key, after: map<Key, Vector>) {
    && (k in after <==> k in db.vectors)
    && (k in db.vectors ==>
          var stays := (k.model, k.index) != (model, index)
                       || (MayEmbed(db, k.chunk) && index in db.scopes
                           && (db.scopes[index] == None || db.chunks[k.chunk].source in db.scopes[index].value));
          after[k] == if stays then db.vectors[k] else db.vectors[k].(active := false))
  }

  lemma VectorsPlanned(db: Db, model: string, index: string, ids: seq<string>)
    requires index in db.scopes && (forall c :: c in ids ==> c in db.chunks) && Plan(db, model, index, ids).Ok?
    ensures var after := Plan(db, model, index, ids).value.0;
            && after == db.(vectors := after.vectors, jobs := after.jobs)
            && forall k :: VectorPlanned(db, model, index, k, after.vectors)
  {
    SummaryTells(db, model, index, ids);
    var after := Plan(db, model, index, ids).value.0;
    forall k ensures VectorPlanned(db, model, index, k, after.vectors) { MayEmbedIff(db, k.chunk); }
  }
}
