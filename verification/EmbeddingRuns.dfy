/** What every interleaving of planning, worker passes, chunk edits and clock ticks keeps. */
module EmbeddingRuns {
  import opened Ordering
  import opened EmbeddingTables

  datatype Step =
    | Planning(model: string, index: string, listing: seq<string>, limit: Option<nat>)
    | Working(batch: nat, claimed: seq<Key>, provider: nat -> Outcome)
    | Editing(chunks: map<string, Chunk>, memberships: map<MemberKey, Membership>)
    | Ticking(elapsed: nat)

  /** A step whose query results are ones the tables can give. Chunk rows may be edited but not removed. */
  ghost predicate ValidStep(db: Db, step: Step) {
    match step
    case Planning(_, index, listing, _) => index in db.scopes ==> IsListing(db, index, listing)
    case Working(batch, claimed, _) => IsClaim(db, batch, claimed)
    case Editing(chunks, _) => db.chunks.Keys <= chunks.Keys
    case Ticking(_) => true
  }

  lemma ListingIsStored(db: Db, index: string, ids: seq<string>, limit: Option<nat>, c: string)
    requires index in db.scopes && IsListing(db, index, ids) && c in Limited(ids, limit)
    ensures c in db.chunks && Plannable(db, index, c)
  {
    assert c in ids;
    assert multiset(ids)[c] > 0;
  }

  /** A failed plan is rolled back, so it leaves the tables as they were. */
  ghost function Apply(db: Db, step: Step, maxAttempts: nat): Db
    requires ValidStep(db, step)
  {
    match step
    case Planning(model, index, listing, limit) =>
      if index !in db.scopes then db
      else
        var ids := Limited(listing, limit);
        assert forall c :: c in ids ==> c in db.chunks by {
          forall c | c in ids ensures c in db.chunks { ListingIsStored(db, index, listing, limit, c); }
        }
        var planned := Plan(db, model, index, ids);
        if planned.Ok? then planned.value.0 else db
    case Working(_, claimed, provider) => Pass(db, claimed, provider, maxAttempts).db
    case Editing(chunks, memberships) => db.(chunks := chunks, memberships := memberships)
    case Ticking(elapsed) => db.(clock := db.clock + elapsed)
  }

  ghost predicate ValidRun(db: Db, steps: seq<Step>, maxAttempts: nat)
    decreases |steps|
  {
    steps == [] || (ValidStep(db, steps[0]) && ValidRun(Apply(db, steps[0], maxAttempts), steps[1..], maxAttempts))
  }

  ghost function Run(db: Db, steps: seq<Step>, maxAttempts: nat): Db
    requires ValidRun(db, steps, maxAttempts)
    decreases |steps|
  {
    if steps == [] then db else Run(Apply(db, steps[0], maxAttempts), steps[1..], maxAttempts)
  }

  // ----- Invariants -----

  ghost predicate OneActive(vectors: map<Key, Vector>) {
    forall j, k :: HasActive(vectors, j) && HasActive(vectors, k) && SameTriple(j, k.chunk, k.model, k.index) ==>
      j == k
  }

  /** The unique constraint is on the input hash; it agrees with the content hash every lookup uses. */
  ghost predicate InputHashesAgree(vectors: map<Key, Vector>) {
    forall k :: k in vectors ==> vectors[k].inputHash == k.hash
  }

  predicate JobWellFormed(job: Job, maxAttempts: nat) {
    && job.status != Running
    && (job.status == Pending ==> job.attempts == 0)
    && (job.status == Retrying ==> 1 <= job.attempts < maxAttempts)
    && (job.status == Failed ==> job.attempts == maxAttempts)
    && (job.status in {Succeeded, Cancelled} ==> 1 <= job.attempts <= maxAttempts)
    && (job.nextRetry.Some? <==> job.status == Retrying)
  }

  ghost predicate JobsWellFormed(jobs: map<Key, Job>, maxAttempts: nat) {
    forall k :: k in jobs ==> JobWellFormed(jobs[k], maxAttempts)
  }

  ghost predicate Consistent(db: Db, maxAttempts: nat) {
    OneActive(db.vectors) && InputHashesAgree(db.vectors) && JobsWellFormed(db.jobs, maxAttempts)
  }

  predicate Done(job: Job) { job.status == Succeeded || job.status == Cancelled }

  /** History only grows: no vector or job row goes, and a succeeded or cancelled job is never reopened. */
  ghost predicate Extends(before: Db, after: Db) {
    && before.vectors.Keys <= after.vectors.Keys
    && before.jobs.Keys <= after.jobs.Keys
    && forall k :: k in before.jobs && Done(before.jobs[k]) ==> after.jobs[k] == before.jobs[k]
  }

  lemma SwitchedKeeps(vectors: map<Key, Vector>, stale: set<Key>)
    requires OneActive(vectors) && InputHashesAgree(vectors)
    ensures var r := Switched(vectors, stale);
            r.Keys == vectors.Keys && OneActive(r) && InputHashesAgree(r)
    ensures forall k :: HasActive(Switched(vectors, stale), k) <==> HasActive(vectors, k) && k !in stale
  {
    var r := Switched(vectors, stale);
    assert forall k :: k in vectors ==>
        (HasActive(r, k) ==> HasActive(vectors, k)) && r[k].inputHash == vectors[k].inputHash;
  }

  lemma UpsertedKeeps(vectors: map<Key, Vector>, k: Key, values: seq<real>, dimensions: int, metric: string)
    requires OneActive(vectors) && InputHashesAgree(vectors)
    ensures var r := Upserted(vectors, k, values, dimensions, metric);
            r.Keys == vectors.Keys + {k} && OneActive(r) && InputHashesAgree(r)
    ensures forall j :: HasActive(Upserted(vectors, k, values, dimensions, metric), j) <==>
              j == k || (HasActive(vectors, j) && !SameTriple(j, k.chunk, k.model, k.index))
  {
    var stale := StaleKeys(vectors, k.chunk, k.model, k.index, Some(k.hash));
    SwitchedKeeps(vectors, stale);
    assert forall j :: HasActive(vectors, j) && SameTriple(j, k.chunk, k.model, k.index) && j !in stale ==> j == k;
  }

  lemma DeactivatedKeeps(vectors: map<Key, Vector>, chunk: string, model: string, index: string)
    requires OneActive(vectors) && InputHashesAgree(vectors)
    ensures var r := Deactivated(vectors, chunk, model, index, None);
            r.Keys == vectors.Keys && OneActive(r) && InputHashesAgree(r)
    ensures forall j :: HasActive(Deactivated(vectors, chunk, model, index, None), j) <==>
              HasActive(vectors, j) && !SameTriple(j, chunk, model, index)
  {
    SwitchedKeeps(vectors, StaleKeys(vectors, chunk, model, index, None));
  }

  /** One worker job leaves the vector store consistent and touches one job row only. */
  lemma RunJobKeeps(db: Db, k: Key, outcome: Outcome, maxAttempts: nat)
    requires k in db.jobs && OneActive(db.vectors) && InputHashesAgree(db.vectors)
    requires Claimable(db.jobs[k]) && JobWellFormed(db.jobs[k], maxAttempts) && maxAttempts >= 1
    ensures var after := RunJob(db, k, outcome, maxAttempts);
            && OneActive(after.vectors) && InputHashesAgree(after.vectors)
            && db.vectors.Keys <= after.vectors.Keys
            && JobWellFormed(after.jobs[k], maxAttempts)
            && JobWork(after.jobs[k], maxAttempts) < JobWork(db.jobs[k], maxAttempts)
            && after == db.(vectors := after.vectors, jobs := db.jobs[k := after.jobs[k]])
  {
    if !Runnable(db, k) {
      DeactivatedKeeps(db.vectors, k.chunk, k.model, k.index);
    } else if RightSized(outcome, db.models[k.model]) {
      UpsertedKeeps(db.vectors, k, outcome.values, outcome.dimensions, db.models[k.model].metric);
    }
  }

  ghost predicate ClaimedJobs(db: Db, claimed: seq<Key>) {
    Distinct(claimed) && forall k :: k in claimed ==> k in db.jobs && Claimable(db.jobs[k])
  }

  /** The rows of the jobs still to come are as they were claimed. */
  ghost predicate StillClaimed(db: Db, claimed: seq<Key>, p: Progress, i: nat) {
    && p.db.jobs.Keys == db.jobs.Keys
    && forall j :: i <= j < |claimed| ==> claimed[j] in db.jobs && p.db.jobs[claimed[j]] == db.jobs[claimed[j]]
  }

  lemma StillClaimedNext(db: Db, claimed: seq<Key>, p: Progress, i: nat, outcome: Outcome, maxAttempts: nat)
    requires ClaimedJobs(db, claimed) && i < |claimed| && StillClaimed(db, claimed, p, i)
    ensures claimed[i] in p.db.jobs && Claimable(p.db.jobs[claimed[i]])
    ensures StillClaimed(db, claimed, WorkNext(p, claimed[i], outcome, maxAttempts), i + 1)
  {
    assert claimed[i] in claimed;
  }

  /** An invariant of the worker's loop body holds wherever the pass stands. */
  lemma PassKeeps(inv: (Progress, nat) -> bool, db: Db, claimed: seq<Key>, provider: nat -> Outcome, maxAttempts: nat,
                  n: nat)
    requires n <= |claimed| && ClaimedJobs(db, claimed) && inv(Progress(db, NO_TALLY), 0)
    requires forall p: Progress, i: nat :: i < n && StillClaimed(db, claimed, p, i) && inv(p, i) ==>
               inv(WorkNext(p, claimed[i], provider(i), maxAttempts), i + 1)
    ensures inv(PassTo(db, claimed, provider, maxAttempts, n), n)
    ensures StillClaimed(db, claimed, PassTo(db, claimed, provider, maxAttempts, n), n)
  {
    var both := (p: Progress, i: nat) => StillClaimed(db, claimed, p, i) && inv(p, i);
    var step := WorkAt(claimed, provider, maxAttempts);
    assert StillClaimed(db, claimed, Progress(db, NO_TALLY), 0) by {
      assert forall j :: 0 <= j < |claimed| ==> claimed[j] in claimed;
    }
    forall p: Progress, i: nat | i < n && both(p, i) ensures both(step(p, i), i + 1) {
      StillClaimedNext(db, claimed, p, i, provider(i), maxAttempts);
    }
    FoldKeeps(step, Progress(db, NO_TALLY), both, n);
  }

  /** `after` is `db` with history grown and only vectors and jobs changed, and consistent. */
  ghost predicate WorkedOn(db: Db, after: Db, maxAttempts: nat) {
    Consistent(after, maxAttempts) && Extends(db, after) && after == db.(vectors := after.vectors, jobs := after.jobs)
  }

  lemma WorkedOnStep(db: Db, before: Db, k: Key, outcome: Outcome, maxAttempts: nat)
    requires WorkedOn(db, before, maxAttempts) && maxAttempts >= 1 && k in before.jobs && Claimable(before.jobs[k])
    ensures WorkedOn(db, RunJob(before, k, outcome, maxAttempts), maxAttempts)
  {
    RunJobKeeps(before, k, outcome, maxAttempts);
  }

  lemma PassWorkedOn(db: Db, claimed: seq<Key>, provider: nat -> Outcome, maxAttempts: nat)
    requires ClaimedJobs(db, claimed) && maxAttempts >= 1 && Consistent(db, maxAttempts)
    ensures WorkedOn(db, Pass(db, claimed, provider, maxAttempts).db, maxAttempts)
  {
    var inv := (p: Progress, i: nat) => WorkedOn(db, p.db, maxAttempts);
    forall p: Progress, i: nat | i < |claimed| && StillClaimed(db, claimed, p, i) && inv(p, i)
      ensures inv(WorkNext(p, claimed[i], provider(i), maxAttempts), i + 1)
    {
      StillClaimedNext(db, claimed, p, i, provider(i), maxAttempts);
      WorkedOnStep(db, p.db, claimed[i], provider(i), maxAttempts);
    }
    PassKeeps(inv, db, claimed, provider, maxAttempts, |claimed|);
  }

  lemma {:induction false} FlushKeeps(jobs: map<Key, Job>, pending: seq<Key>, clock: int)
    ensures var r := Flushed(jobs, pending, clock);
            r.Ok? ==>
              && r.value.Keys == jobs.Keys + (set k | k in pending)
              && Distinct(pending)
              && (forall k :: k in pending ==> k !in jobs && r.value[k] == NewJob(clock))
              && (forall k :: k in jobs ==> r.value[k] == jobs[k])
    ensures var r := Flushed(jobs, pending, clock);
            r.Err? ==> r.error.DuplicateJob? && (r.error.key in jobs || !Distinct(pending))
    decreases |pending|
  {
    if pending != [] {
      assert pending == [pending[0]] + pending[1..];
      if pending[0] !in jobs {
        var grown := jobs[pending[0] := NewJob(clock)];
        FlushKeeps(grown, pending[1..], clock);
        var r := Flushed(grown, pending[1..], clock);
        if r.Ok? {
          assert pending[0] !in pending[1..];
        } else if r.error.key == pending[0] {
          DuplicateHead(jobs, pending, clock);
        }
      }
    }
  }

  /** A flush that fails on the key it has just inserted was given that key twice. */
  lemma {:induction false} DuplicateHead(jobs: map<Key, Job>, pending: seq<Key>, clock: int)
    requires pending != [] && pending[0] !in jobs
    requires Flushed(jobs[pending[0] := NewJob(clock)], pending[1..], clock) == Err(DuplicateJob(pending[0]))
    ensures !Distinct(pending)
  {
    FailureIsPending(jobs[pending[0] := NewJob(clock)], pending[1..], clock);
  }

  lemma {:induction false} FailureIsPending(jobs: map<Key, Job>, pending: seq<Key>, clock: int)
    ensures var r := Flushed(jobs, pending, clock);
            r.Err? ==> r.error.DuplicateJob? && r.error.key in pending
    decreases |pending|
  {
    if pending != [] && pending[0] !in jobs {
      FailureIsPending(jobs[pending[0] := NewJob(clock)], pending[1..], clock);
    }
  }

  ghost predicate PlanStateKeeps(db: Db, s: PlanState, maxAttempts: nat) {
    && OneActive(s.vectors) && InputHashesAgree(s.vectors) && JobsWellFormed(s.jobs, maxAttempts)
    && s.vectors.Keys == db.vectors.Keys
    && db.jobs.Keys <= s.jobs.Keys
    && forall k :: k in db.jobs && Done(db.jobs[k]) ==> s.jobs[k] == db.jobs[k]
  }

  lemma FlushStateKeeps(db: Db, s: PlanState, jobs: map<Key, Job>, maxAttempts: nat)
    requires PlanStateKeeps(db, s, maxAttempts) && Flushed(s.jobs, s.pending, db.clock) == Ok(jobs)
    ensures PlanStateKeeps(db, s.(jobs := jobs, pending := []), maxAttempts)
  {
    FlushKeeps(s.jobs, s.pending, db.clock);
    assert forall k :: k in jobs ==> k in s.jobs || k in s.pending;
  }

  lemma ResetStateKeeps(db: Db, s: PlanState, k: Key, maxAttempts: nat)
    requires PlanStateKeeps(db, s, maxAttempts) && k in s.jobs && s.jobs[k].status == Failed
    ensures PlanStateKeeps(db, s.(jobs := s.jobs[k := ResetJob(s.jobs[k])]), maxAttempts)
  {}

  lemma PlanStepKeeps(db: Db, model: string, index: string, s: PlanState, c: string, maxAttempts: nat)
    requires c in db.chunks && PlanStateKeeps(db, s, maxAttempts)
    ensures var r := PlanStep(db, model, index, s, c);
            r.Ok? ==> PlanStateKeeps(db, r.value, maxAttempts)
  {
    var k := KeyOf(db, model, index, c);
    if !Eligible(db, c) {
      DeactivatedKeeps(s.vectors, c, model, index);
    } else if !HasActive(s.vectors, k) && k in s.jobs && s.jobs[k].status == Failed {
      ResetStateKeeps(db, s, k, maxAttempts);
      var reset := s.(jobs := s.jobs[k := ResetJob(s.jobs[k])]);
      var flushed := Flushed(reset.jobs, reset.pending, db.clock);
      if flushed.Ok? { FlushStateKeeps(db, reset, flushed.value, maxAttempts); }
    }
  }

  lemma {:induction false} PlanRowsKeep(db: Db, model: string, index: string, ids: seq<string>, maxAttempts: nat)
    requires index in db.scopes && (forall c :: c in ids ==> c in db.chunks) && Consistent(db, maxAttempts)
    ensures var r := PlanRows(db, model, index, ids);
            r.Ok? ==> PlanStateKeeps(db, r.value, maxAttempts)
  {
    if ids == [] {
      SwitchedKeeps(db.vectors, Unembeddable(db, model, index));
    } else {
      var last := |ids| - 1;
      PlanRowsKeep(db, model, index, ids[..last], maxAttempts);
      var before := PlanRows(db, model, index, ids[..last]);
      if before.Ok? { PlanStepKeeps(db, model, index, before.value, ids[last], maxAttempts); }
    }
  }

  lemma PlanKeeps(db: Db, model: string, index: string, ids: seq<string>, maxAttempts: nat)
    requires (forall c :: c in ids ==> c in db.chunks) && Consistent(db, maxAttempts)
    ensures var r := Plan(db, model, index, ids);
            r.Ok? ==> Consistent(r.value.0, maxAttempts) && Extends(db, r.value.0)
                      && r.value.0 == db.(vectors := r.value.0.vectors, jobs := r.value.0.jobs)
  {
    if index in db.scopes {
      PlanRowsKeep(db, model, index, ids, maxAttempts);
      var rows := PlanRows(db, model, index, ids);
      if rows.Ok? { FlushKeeps(rows.value.jobs, rows.value.pending, db.clock); }
    }
  }

  lemma StepKeeps(db: Db, step: Step, maxAttempts: nat)
    requires ValidStep(db, step) && Consistent(db, maxAttempts) && maxAttempts >= 1
    ensures Consistent(Apply(db, step, maxAttempts), maxAttempts) && Extends(db, Apply(db, step, maxAttempts))
  {
    match step
    case Planning(model, index, listing, limit) =>
      if index in db.scopes {
        var ids := Limited(listing, limit);
        forall c | c in ids ensures c in db.chunks { ListingIsStored(db, index, listing, limit, c); }
        PlanKeeps(db, model, index, ids, maxAttempts);
      }
    case Working(_, claimed, provider) =>
      PassWorkedOn(db, claimed, provider, maxAttempts);
    case _ =>
  }

  /**
   Over every interleaving: at most one active vector per chunk, model and index; job states
   match their attempt counts; and no row of history is lost or reopened.
   */
  lemma {:induction false} RunsKeepInvariants(db: Db, steps: seq<Step>, maxAttempts: nat)
    requires ValidRun(db, steps, maxAttempts) && Consistent(db, maxAttempts) && maxAttempts >= 1
    ensures Consistent(Run(db, steps, maxAttempts), maxAttempts) && Extends(db, Run(db, steps, maxAttempts))
    decreases |steps|
  {
    if steps != [] {
      StepKeeps(db, steps[0], maxAttempts);
      RunsKeepInvariants(Apply(db, steps[0], maxAttempts), steps[1..], maxAttempts);
    }
  }

  /** Every vector row was written by a job that is still there, succeeded for good. */
  ghost predicate VectorsHaveJobs(db: Db) {
    forall k :: k in db.vectors ==> k in db.jobs && db.jobs[k].status == Succeeded
  }

  lemma JobWritesItsVector(db: Db, k: Key, outcome: Outcome, maxAttempts: nat)
    requires VectorsHaveJobs(db) && k in db.jobs && Claimable(db.jobs[k])
    ensures VectorsHaveJobs(RunJob(db, k, outcome, maxAttempts))
  {
    var after := RunJob(db, k, outcome, maxAttempts);
    assert forall j :: j in after.vectors ==> j in db.vectors || (j == k && after.jobs[k].status == Succeeded);
  }

  lemma StepKeepsVectorJobs(db: Db, step: Step, maxAttempts: nat)
    requires ValidStep(db, step) && Consistent(db, maxAttempts) && maxAttempts >= 1 && VectorsHaveJobs(db)
    ensures VectorsHaveJobs(Apply(db, step, maxAttempts))
  {
    match step
    case Working(_, claimed, provider) =>
      var inv := (p: Progress, i: nat) => VectorsHaveJobs(p.db);
      forall p: Progress, i: nat | i < |claimed| && StillClaimed(db, claimed, p, i) && inv(p, i)
        ensures inv(WorkNext(p, claimed[i], provider(i), maxAttempts), i + 1)
      {
        StillClaimedNext(db, claimed, p, i, provider(i), maxAttempts);
        JobWritesItsVector(p.db, claimed[i], provider(i), maxAttempts);
      }
      PassKeeps(inv, db, claimed, provider, maxAttempts, |claimed|);
    case Planning(model, index, listing, limit) =>
      if index in db.scopes { PlanWritesNoVector(db, model, index, listing, limit, maxAttempts); }
    case _ =>
  }

  lemma PlanWritesNoVector(db: Db, model: string, index: string, listing: seq<string>, limit: Option<nat>,
                           maxAttempts: nat)
    requires index in db.scopes && IsListing(db, index, listing) && Consistent(db, maxAttempts) && VectorsHaveJobs(db)
    ensures VectorsHaveJobs(Apply(db, Planning(model, index, listing, limit), maxAttempts))
  {
    var ids := Limited(listing, limit);
    forall c | c in ids ensures c in db.chunks { ListingIsStored(db, index, listing, limit, c); }
    PlanRowsKeep(db, model, index, ids, maxAttempts);
    var rows := PlanRows(db, model, index, ids);
    if rows.Ok? { FlushWritesNoVector(db, rows.value, maxAttempts); }
  }

  lemma FlushWritesNoVector(db: Db, s: PlanState, maxAttempts: nat)
    requires PlanStateKeeps(db, s, maxAttempts) && VectorsHaveJobs(db)
    ensures var r := Flushed(s.jobs, s.pending, db.clock);
            r.Ok? ==> VectorsHaveJobs(db.(vectors := s.vectors, jobs := r.value))
  {
    FlushKeeps(s.jobs, s.pending, db.clock);
  }

  /** Over every interleaving no vector exists without the succeeded job that wrote it. */
  lemma {:induction false} RunsKeepVectorJobs(db: Db, steps: seq<Step>, maxAttempts: nat)
    requires ValidRun(db, steps, maxAttempts) && Consistent(db, maxAttempts) && maxAttempts >= 1 && VectorsHaveJobs(db)
    ensures VectorsHaveJobs(Run(db, steps, maxAttempts))
    decreases |steps|
  {
    if steps != [] {
      StepKeeps(db, steps[0], maxAttempts);
      StepKeepsVectorJobs(db, steps[0], maxAttempts);
      RunsKeepVectorJobs(Apply(db, steps[0], maxAttempts), steps[1..], maxAttempts);
    }
  }

  // ----- Work left -----

  function JobWork(job: Job, maxAttempts: nat): nat {
    if Claimable(job) && job.attempts < maxAttempts then maxAttempts - job.attempts else 0
  }

  /** The attempts all open jobs together still have. */
  ghost function Work(jobs: map<Key, Job>, maxAttempts: nat): nat
    decreases |jobs|
  {
    if jobs == map[] then 0
    else
      var k :| k in jobs;
      JobWork(jobs[k], maxAttempts) + Work(jobs - {k}, maxAttempts)
  }

  lemma {:induction false} WorkSplits(jobs: map<Key, Job>, maxAttempts: nat, k: Key)
    requires k in jobs
    ensures Work(jobs, maxAttempts) == JobWork(jobs[k], maxAttempts) + Work(jobs - {k}, maxAttempts)
    decreases |jobs|
  {
    var p :| p in jobs && Work(jobs, maxAttempts) == JobWork(jobs[p], maxAttempts) + Work(jobs - {p}, maxAttempts);
    if p != k {
      WorkSplits(jobs - {p}, maxAttempts, k);
      WorkSplits(jobs - {k}, maxAttempts, p);
      assert jobs - {p} - {k} == jobs - {k} - {p};
    }
  }

  lemma WorkOfUpdate(jobs: map<Key, Job>, maxAttempts: nat, k: Key, job: Job)
    requires k in jobs
    ensures Work(jobs[k := job], maxAttempts) + JobWork(jobs[k], maxAttempts)
            == Work(jobs, maxAttempts) + JobWork(job, maxAttempts)
  {
    WorkSplits(jobs, maxAttempts, k);
    WorkSplits(jobs[k := job], maxAttempts, k);
    assert jobs[k := job] - {k} == jobs - {k};
  }

  function TallyOf(t: Tally, status: Status): nat {
    match status
    case Succeeded => t.succeeded
    case Failed => t.failed
    case Retrying => t.retrying
    case Cancelled => t.cancelled
    case _ => 0
  }

  /** How many of the first n claimed jobs have the status. */
  function StatusCount(jobs: map<Key, Job>, claimed: seq<Key>, n: nat, status: Status): nat
    requires n <= |claimed|
  {
    if n == 0 then 0
    else
      var k := claimed[n - 1];
      StatusCount(jobs, claimed, n - 1, status) + if k in jobs && jobs[k].status == status then 1 else 0
  }

  lemma {:induction false} StatusCountFrame(jobs: map<Key, Job>, k: Key, job: Job, claimed: seq<Key>, n: nat,
                                            status: Status)
    requires n <= |claimed| && forall i :: 0 <= i < n ==> claimed[i] != k
    ensures StatusCount(jobs[k := job], claimed, n, status) == StatusCount(jobs, claimed, n, status)
  {
    if n > 0 { StatusCountFrame(jobs, k, job, claimed, n - 1, status); }
  }

  /** The tally counts, status by status, the rows the first n claimed jobs ended in. */
  ghost predicate Accounted(jobs: map<Key, Job>, claimed: seq<Key>, n: nat, t: Tally)
    requires n <= |claimed|
  {
    && (forall status :: TallyOf(t, status) == StatusCount(jobs, claimed, n, status))
    && t.succeeded + t.failed + t.retrying + t.cancelled == n
  }

  lemma TallyStep(db: Db, k: Key, outcome: Outcome, maxAttempts: nat, t: Tally, status: Status)
    requires k in db.jobs
    ensures TallyOf(TallyJob(db, k, outcome, maxAttempts, t), status)
            == TallyOf(t, status) + if RunJob(db, k, outcome, maxAttempts).jobs[k].status == status then 1 else 0
  {}

  lemma AccountedStep(p: Progress, claimed: seq<Key>, i: nat, outcome: Outcome, maxAttempts: nat)
    requires Distinct(claimed) && i < |claimed| && claimed[i] in p.db.jobs && Accounted(p.db.jobs, claimed, i, p.tally)
    ensures var q := WorkNext(p, claimed[i], outcome, maxAttempts); Accounted(q.db.jobs, claimed, i + 1, q.tally)
  {
    var q, k := WorkNext(p, claimed[i], outcome, maxAttempts), claimed[i];
    assert q.db.jobs == p.db.jobs[k := q.db.jobs[k]];
    forall status ensures TallyOf(q.tally, status) == StatusCount(q.db.jobs, claimed, i + 1, status) {
      TallyStep(p.db, k, outcome, maxAttempts, p.tally, status);
      StatusCountFrame(p.db.jobs, k, q.db.jobs[k], claimed, i, status);
    }
  }

  lemma WorkFalls(db: Db, k: Key, outcome: Outcome, maxAttempts: nat)
    requires k in db.jobs && Claimable(db.jobs[k]) && maxAttempts >= 1 && Consistent(db, maxAttempts)
    ensures Work(RunJob(db, k, outcome, maxAttempts).jobs, maxAttempts) < Work(db.jobs, maxAttempts)
  {
    RunJobKeeps(db, k, outcome, maxAttempts);
    WorkOfUpdate(db.jobs, maxAttempts, k, RunJob(db, k, outcome, maxAttempts).jobs[k]);
  }

  lemma PassTally(db: Db, claimed: seq<Key>, provider: nat -> Outcome, maxAttempts: nat)
    requires ClaimedJobs(db, claimed)
    ensures var p := Pass(db, claimed, provider, maxAttempts); Accounted(p.db.jobs, claimed, |claimed|, p.tally)
  {
    var inv := (p: Progress, i: nat) => i <= |claimed| && Accounted(p.db.jobs, claimed, i, p.tally);
    forall p: Progress, i: nat | i < |claimed| && StillClaimed(db, claimed, p, i) && inv(p, i)
      ensures inv(WorkNext(p, claimed[i], provider(i), maxAttempts), i + 1)
    {
      StillClaimedNext(db, claimed, p, i, provider(i), maxAttempts);
      AccountedStep(p, claimed, i, provider(i), maxAttempts);
    }
    PassKeeps(inv, db, claimed, provider, maxAttempts, |claimed|);
  }

  lemma PassWork(db: Db, claimed: seq<Key>, provider: nat -> Outcome, maxAttempts: nat)
    requires ClaimedJobs(db, claimed) && maxAttempts >= 1 && Consistent(db, maxAttempts)
    ensures Work(Pass(db, claimed, provider, maxAttempts).db.jobs, maxAttempts) + |claimed|
            <= Work(db.jobs, maxAttempts)
  {
    var inv := (p: Progress, i: nat) =>
      WorkedOn(db, p.db, maxAttempts) && Work(p.db.jobs, maxAttempts) + i <= Work(db.jobs, maxAttempts);
    forall p: Progress, i: nat | i < |claimed| && StillClaimed(db, claimed, p, i) && inv(p, i)
      ensures inv(WorkNext(p, claimed[i], provider(i), maxAttempts), i + 1)
    {
      StillClaimedNext(db, claimed, p, i, provider(i), maxAttempts);
      WorkedOnStep(db, p.db, claimed[i], provider(i), maxAttempts);
      WorkFalls(p.db, claimed[i], provider(i), maxAttempts);
    }
    PassKeeps(inv, db, claimed, provider, maxAttempts, |claimed|);
  }

  /**
   A pass accounts for every job it claims, by the state the job ended in, and uses up at least
   one attempt for each; so passes that claim work cannot go on forever.
   */
  lemma PassAccounts(db: Db, batch: nat, claimed: seq<Key>, provider: nat -> Outcome, maxAttempts: nat)
    requires IsClaim(db, batch, claimed) && maxAttempts >= 1 && Consistent(db, maxAttempts)
    ensures var after := Pass(db, claimed, provider, maxAttempts);
            && Accounted(after.db.jobs, claimed, |claimed|, after.tally)
            && Work(after.db.jobs, maxAttempts) + |claimed| <= Work(db.jobs, maxAttempts)
  {
    PassTally(db, claimed, provider, maxAttempts);
    PassWork(db, claimed, provider, maxAttempts);
  }
}
