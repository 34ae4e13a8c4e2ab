/** Worker passes and waiting in any order after a plan: what each job settles, and invariants of whole schedules. */
module EmbeddingSchedules {
  import opened Ordering
  import opened EmbeddingTables
  import opened EmbeddingRuns
  import opened EmbeddingPlanning

  // ----- Open jobs -----

  ghost function OpenKeys(db: Db, chunk: string, model: string, index: string): set<Key> {
    set k | k in db.jobs && SameTriple(k, chunk, model, index) && Claimable(db.jobs[k])
  }

  ghost function AllOpen(db: Db): set<Key> {
    set k | k in db.jobs && Claimable(db.jobs[k])
  }

  /** From `clock` on, whenever `b` is due `a` is due too. */
  predicate NoLater(a: Job, b: Job, clock: int) {
    || a.nextRetry.None? || a.nextRetry.value <= clock
    || (b.nextRetry.Some? && a.nextRetry.value <= b.nextRetry.value)
  }

  /** Both open, `j` is worked before `k` however the passes fall. */
  predicate GoesBefore(db: Db, j: Key, k: Key) {
    && j in db.jobs && k in db.jobs
    && db.jobs[j].created < db.jobs[k].created && NoLater(db.jobs[j], db.jobs[k], db.clock)
  }

  // ----- Schedules -----

  /** The provider gives every job of a known model a vector of the model's size. */
  predicate Obliging(db: Db, k: Key, outcome: Outcome) {
    k.model in db.models ==> RightSized(outcome, db.models[k.model])
  }

  ghost predicate Answers(db: Db, claimed: seq<Key>, provider: nat -> Outcome) {
    forall i: nat :: i < |claimed| ==> Obliging(db, claimed[i], provider(i))
  }

  ghost predicate WorkerStep(db: Db, step: Step) {
    match step
    case Working(_, claimed, provider) => Answers(db, claimed, provider)
    case Ticking(_) => true
    case _ => false
  }

  /** Passes of any size and waits of any length, in any order, with a provider that answers. */
  ghost predicate Schedule(db: Db, steps: seq<Step>, maxAttempts: nat) {
    ValidRun(db, steps, maxAttempts) && forall i :: 0 <= i < |steps| ==> WorkerStep(db, steps[i])
  }

  function Later(db: Db, elapsed: nat): Db { db.(clock := db.clock + elapsed) }

  /** Only vectors, jobs and the clock may differ. */
  predicate SameRest(db: Db, after: Db) {
    after == db.(vectors := after.vectors, jobs := after.jobs, clock := after.clock)
  }

  // ----- One job -----

  /** What is active for a job's chunk, model and index right after the job is worked. */
  ghost function Settled(db: Db, k: Key): set<string> {
    if Runnable(db, k) then {k.hash} else {}
  }

  lemma UpsertedActive(vectors: map<Key, Vector>, k: Key, values: seq<real>, dimensions: int, metric: string, j: Key)
    ensures HasActive(Upserted(vectors, k, values, dimensions, metric), j) <==>
            j == k || (HasActive(vectors, j) && !SameTriple(j, k.chunk, k.model, k.index))
  {}

  lemma DeactivatedActive(vectors: map<Key, Vector>, chunk: string, model: string, index: string, j: Key)
    ensures HasActive(Deactivated(vectors, chunk, model, index, None), j) <==>
            HasActive(vectors, j) && !SameTriple(j, chunk, model, index)
  {}

  lemma JobActive(db: Db, k: Key, outcome: Outcome, maxAttempts: nat, j: Key)
    requires k in db.jobs && Obliging(db, k, outcome)
    ensures HasActive(RunJob(db, k, outcome, maxAttempts).vectors, j) <==>
            if SameTriple(j, k.chunk, k.model, k.index) then Runnable(db, k) && j == k else HasActive(db.vectors, j)
  {
    if Runnable(db, k) {
      UpsertedActive(db.vectors, k, outcome.values, outcome.dimensions, db.models[k.model].metric, j);
    } else {
      DeactivatedActive(db.vectors, k.chunk, k.model, k.index, j);
    }
  }

  /** Only vectors and k's job differ, and k's job is done. */
  ghost predicate Worked(db: Db, k: Key, after: Db) {
    && k in db.jobs && k in after.jobs
    && after == db.(vectors := after.vectors, jobs := db.jobs[k := after.jobs[k]])
    && Done(after.jobs[k]) && after.jobs[k].created == db.jobs[k].created
  }

  lemma JobWorked(db: Db, k: Key, outcome: Outcome, maxAttempts: nat)
    requires k in db.jobs && Obliging(db, k, outcome)
    ensures Worked(db, k, RunJob(db, k, outcome, maxAttempts))
  {}

  /** A worked job has the last word on its chunk, model and index, and no word on any other. */
  lemma RunJobSettles(db: Db, k: Key, outcome: Outcome, maxAttempts: nat)
    requires k in db.jobs && Obliging(db, k, outcome)
    ensures var after := RunJob(db, k, outcome, maxAttempts);
            && ActiveHashes(after, k.chunk, k.model, k.index) == Settled(db, k)
            && (forall c, m, ix :: !SameTriple(k, c, m, ix) ==>
                 ActiveHashes(after, c, m, ix) == ActiveHashes(db, c, m, ix))
  {
    var after := RunJob(db, k, outcome, maxAttempts);
    forall j { JobActive(db, k, outcome, maxAttempts, j); }
    if Runnable(db, k) { assert HasActive(after.vectors, k); }
    forall c, m, ix | !SameTriple(k, c, m, ix) ensures ActiveHashes(after, c, m, ix) == ActiveHashes(db, c, m, ix) {
      assert forall j :: SameTriple(j, c, m, ix) ==> !SameTriple(j, k.chunk, k.model, k.index);
    }
  }

  lemma WorkedOpens(db: Db, k: Key, after: Db, c: string, m: string, ix: string)
    requires Worked(db, k, after)
    ensures OpenKeys(after, c, m, ix) == OpenKeys(db, c, m, ix) - {k}
    ensures forall j :: Runnable(after, j) == Runnable(db, j)
  {}

  // ----- Invariants of schedules -----

  /** The worker may take the job now: it is due, and no due job of its chunk, model and index is older. */
  ghost predicate Takes(db: Db, k: Key, outcome: Outcome) {
    && k in db.jobs && Due(db.jobs[k], db.clock) && Obliging(db, k, outcome)
    && forall j :: j in OpenKeys(db, k.chunk, k.model, k.index) && Due(db.jobs[j], db.clock) ==>
         db.jobs[k].created <= db.jobs[j].created
  }

  ghost predicate KeptByWork(inv: Db -> bool, maxAttempts: nat) {
    forall db: Db, k: Key, outcome: Outcome ::
      Takes(db, k, outcome) && inv(db) ==> inv(RunJob(db, k, outcome, maxAttempts))
  }

  ghost predicate KeptByTime(inv: Db -> bool) {
    forall db: Db, elapsed: nat :: inv(db) ==> inv(Later(db, elapsed))
  }

  ghost predicate WorkedBefore(claimed: seq<Key>, i: nat, k: Key) {
    exists l :: 0 <= l < i && l < |claimed| && claimed[l] == k
  }

  /** After i jobs of a pass those are done and every other row is as it was. */
  ghost predicate RowsWorked(db: Db, claimed: seq<Key>, after: Db, i: nat) {
    && SameRest(db, after) && after.clock == db.clock && after.jobs.Keys == db.jobs.Keys
    && forall k :: k in db.jobs ==>
         if WorkedBefore(claimed, i, k) then Done(after.jobs[k]) else after.jobs[k] == db.jobs[k]
  }

  lemma RowsWorkedNext(db: Db, claimed: seq<Key>, before: Db, i: nat, after: Db)
    requires i < |claimed| && RowsWorked(db, claimed, before, i) && Worked(before, claimed[i], after)
    ensures RowsWorked(db, claimed, after, i + 1)
  {
    forall k | k in db.jobs
      ensures if WorkedBefore(claimed, i + 1, k) then Done(after.jobs[k]) else after.jobs[k] == db.jobs[k]
    {
      assert WorkedBefore(claimed, i + 1, k) <==> WorkedBefore(claimed, i, k) || k == claimed[i];
    }
  }

  lemma ClaimIsClaimable(db: Db, batch: nat, claimed: seq<Key>)
    requires IsClaim(db, batch, claimed)
    ensures ClaimedJobs(db, claimed)
  {
    assert forall k :: k in claimed ==> k in DueKeys(db);
  }

  /** The next job of a claim is the oldest due one of its chunk, model and index. */
  lemma NextIsTaken(db: Db, batch: nat, claimed: seq<Key>, before: Db, i: nat, outcome: Outcome)
    requires IsClaim(db, batch, claimed) && i < |claimed| && RowsWorked(db, claimed, before, i)
    requires Obliging(db, claimed[i], outcome)
    ensures Takes(before, claimed[i], outcome)
  {
    var k := claimed[i];
    assert k in claimed && k in DueKeys(db) && !WorkedBefore(claimed, i, k);
    forall j | j in OpenKeys(before, k.chunk, k.model, k.index) && Due(before.jobs[j], before.clock)
      ensures before.jobs[k].created <= before.jobs[j].created
    {
      assert !WorkedBefore(claimed, i, j) && j in DueKeys(db);
      if j in claimed {
        var l :| 0 <= l < |claimed| && claimed[l] == j;
        assert l >= i && (l > i ==> !QueueBefore(db, claimed[l], claimed[i]));
      } else {
        assert !QueueBefore(db, j, claimed[i]);
      }
    }
  }

  lemma PassKeepsInvariant(inv: Db -> bool, db: Db, batch: nat, claimed: seq<Key>, provider: nat -> Outcome,
                           maxAttempts: nat)
    requires IsClaim(db, batch, claimed) && Answers(db, claimed, provider) && KeptByWork(inv, maxAttempts) && inv(db)
    ensures inv(Pass(db, claimed, provider, maxAttempts).db)
    ensures RowsWorked(db, claimed, Pass(db, claimed, provider, maxAttempts).db, |claimed|)
  {
    ClaimIsClaimable(db, batch, claimed);
    var both := (p: Progress, i: nat) => RowsWorked(db, claimed, p.db, i) && inv(p.db);
    forall p: Progress, i: nat | i < |claimed| && StillClaimed(db, claimed, p, i) && both(p, i)
      ensures both(WorkNext(p, claimed[i], provider(i), maxAttempts), i + 1)
    {
      StillClaimedNext(db, claimed, p, i, provider(i), maxAttempts);
      NextIsTaken(db, batch, claimed, p.db, i, provider(i));
      JobWorked(p.db, claimed[i], provider(i), maxAttempts);
      RowsWorkedNext(db, claimed, p.db, i, RunJob(p.db, claimed[i], provider(i), maxAttempts));
    }
    PassKeeps(both, db, claimed, provider, maxAttempts, |claimed|);
  }

  /** What single jobs and waiting keep, every schedule keeps. */
  lemma {:induction false} ScheduleKeeps(inv: Db -> bool, db: Db, steps: seq<Step>, maxAttempts: nat)
    requires Schedule(db, steps, maxAttempts) && KeptByWork(inv, maxAttempts) && KeptByTime(inv) && inv(db)
    ensures inv(Run(db, steps, maxAttempts)) && SameRest(db, Run(db, steps, maxAttempts))
    decreases |steps|
  {
    if steps != [] {
      var next := StepOfSchedule(inv, db, steps, maxAttempts);
      ScheduleKeeps(inv, next, steps[1..], maxAttempts);
    }
  }

  lemma StepOfSchedule(inv: Db -> bool, db: Db, steps: seq<Step>, maxAttempts: nat) returns (next: Db)
    requires steps != [] && Schedule(db, steps, maxAttempts) && KeptByWork(inv, maxAttempts) && KeptByTime(inv)
               && inv(db)
    ensures next == Apply(db, steps[0], maxAttempts) && inv(next) && SameRest(db, next)
    ensures Schedule(next, steps[1..], maxAttempts)
  {
    next := Apply(db, steps[0], maxAttempts);
    assert WorkerStep(db, steps[0]);
    match steps[0] {
      case Working(batch, claimed, provider) =>
        PassKeepsInvariant(inv, db, batch, claimed, provider, maxAttempts);
      case Ticking(elapsed) =>
        assert next == Later(db, elapsed);
      case _ =>
    }
    ScheduleGoesOn(db, steps, next, maxAttempts);
  }

  lemma ScheduleGoesOn(db: Db, steps: seq<Step>, next: Db, maxAttempts: nat)
    requires steps != [] && Schedule(db, steps, maxAttempts)
    requires next == Apply(db, steps[0], maxAttempts) && SameRest(db, next)
    ensures Schedule(next, steps[1..], maxAttempts)
  {
    forall i | 0 <= i < |steps[1..]| ensures WorkerStep(next, steps[1..][i]) {
      assert WorkerStep(db, steps[i + 1]);
    }
  }
}
