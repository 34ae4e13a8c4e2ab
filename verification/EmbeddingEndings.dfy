/** How a queue ends: what a spoiled schedule leaves behind, and what any provider at all leaves. */
module EmbeddingEndings {
  import opened Ordering
  import opened EmbeddingTables
  import opened EmbeddingRuns
  import opened EmbeddingPlanning
  import opened EmbeddingSchedules
  import opened EmbeddingConvergence

  // ----- A spoiled chunk stops the planner -----

  /** The current key's job is there, and open or done. */
  ghost predicate Vouched(db: Db, k: Key) {
    OneActive(db.vectors) && k in db.jobs && (Claimable(db.jobs[k]) || Done(db.jobs[k]))
  }

  lemma WorkKeepsVouched(db: Db, j: Key, outcome: Outcome, maxAttempts: nat, k: Key)
    requires Takes(db, j, outcome) && Vouched(db, k)
    ensures Vouched(RunJob(db, j, outcome, maxAttempts), k)
  {
    var after := RunJob(db, j, outcome, maxAttempts);
    JobWorked(db, j, outcome, maxAttempts);
    forall a, b | HasActive(after.vectors, a) && HasActive(after.vectors, b) && SameTriple(a, b.chunk, b.model, b.index)
      ensures a == b
    {
      JobActive(db, j, outcome, maxAttempts, a);
      JobActive(db, j, outcome, maxAttempts, b);
    }
  }

  lemma ScheduleKeepsVouched(db: Db, steps: seq<Step>, maxAttempts: nat, k: Key)
    requires Schedule(db, steps, maxAttempts) && Vouched(db, k)
    ensures Vouched(Run(db, steps, maxAttempts), k) && SameRest(db, Run(db, steps, maxAttempts))
  {
    var inv := (st: Db) => Vouched(st, k);
    forall st: Db, j: Key, outcome: Outcome | Takes(st, j, outcome) && inv(st)
      ensures inv(RunJob(st, j, outcome, maxAttempts))
    {
      WorkKeepsVouched(st, j, outcome, maxAttempts, k);
    }
    ScheduleKeeps(inv, db, steps, maxAttempts);
  }

  /**
   Where a schedule that empties the queue leaves an eligible chunk in scope not as wanted, the current
   vector is missing beside a finished current job: a collision.
   */
  lemma UnwantedIsClash(db: Db, model: string, index: string, steps: seq<Step>, maxAttempts: nat, c: string)
    requires Planned(db, model, index) && VectorsHaveJobs(db) && Drains(db, steps, maxAttempts)
    requires InScope(db, index, c) && Eligible(db, c)
    ensures var after := Run(db, steps, maxAttempts);
            && index in after.scopes
            && (ActiveHashes(after, c, model, index) == Wanted(after, index, c)
                || Clash(after, model, index, KeyOf(db, model, index, c)))
  {
    var after, k := Run(db, steps, maxAttempts), KeyOf(db, model, index, c);
    assert Vouched(db, k);
    ScheduleKeepsVouched(db, steps, maxAttempts, k);
    assert HasCurrent(after, c) == HasCurrent(db, c);
    assert k !in AllOpen(after);
    if HasActive(after.vectors, k) { ActiveIsWanted(after, model, index, c); }
  }

  /** So the next plan over all chunks of the index fails. */
  lemma UnwantedStopsPlanning(db: Db, model: string, index: string, steps: seq<Step>, maxAttempts: nat, c: string,
                              listing: seq<string>)
    requires Planned(db, model, index) && VectorsHaveJobs(db) && Drains(db, steps, maxAttempts) && OneCurrent(db)
    requires InScope(db, index, c) && Eligible(db, c)
    requires var after := Run(db, steps, maxAttempts);
             && index in after.scopes && ActiveHashes(after, c, model, index) != Wanted(after, index, c)
             && IsListing(after, index, listing) && forall x :: x in listing ==> x in after.chunks
    ensures Plan(Run(db, steps, maxAttempts), model, index, listing).Err?
  {
    var after, k := Run(db, steps, maxAttempts), KeyOf(db, model, index, c);
    UnwantedIsClash(db, model, index, steps, maxAttempts, c);
    ScheduleKeepsVouched(db, steps, maxAttempts, k);
    SameRestReads(db, after, index, c);
    ReadIfInScope(after, index, listing, c);
    UnlimitedPlanCovers(after, model, index, listing);
  }

  lemma SameRestReads(db: Db, after: Db, index: string, c: string)
    requires SameRest(db, after) && index in db.scopes
    ensures index in after.scopes && InScope(after, index, c) == InScope(db, index, c)
    ensures Eligible(after, c) == Eligible(db, c) && (OneCurrent(db) ==> OneCurrent(after))
  {
    assert HasCurrent(after, c) == HasCurrent(db, c);
    assert forall x :: CurrentMemberships(after, x) == CurrentMemberships(db, x);
  }

  // ----- Any provider -----

  /** Passes and waits in any order, whatever the provider does. */
  ghost predicate WorkerRun(db: Db, steps: seq<Step>, maxAttempts: nat) {
    ValidRun(db, steps, maxAttempts) && forall i :: 0 <= i < |steps| ==> steps[i].Working? || steps[i].Ticking?
  }

  ghost predicate KeptByJobs(inv: Db -> bool, maxAttempts: nat) {
    forall db: Db, k: Key, outcome: Outcome ::
      k in db.jobs && Claimable(db.jobs[k]) && inv(db) ==> inv(RunJob(db, k, outcome, maxAttempts))
  }

  lemma {:induction false} WorkerRunKeeps(inv: Db -> bool, db: Db, steps: seq<Step>, maxAttempts: nat)
    requires WorkerRun(db, steps, maxAttempts) && KeptByJobs(inv, maxAttempts) && KeptByTime(inv) && inv(db)
    ensures inv(Run(db, steps, maxAttempts))
    decreases |steps|
  {
    if steps != [] {
      StepKeepsInvariant(inv, db, steps[0], maxAttempts);
      WorkerRunKeeps(inv, Apply(db, steps[0], maxAttempts), steps[1..], maxAttempts);
    }
  }

  lemma StepKeepsInvariant(inv: Db -> bool, db: Db, step: Step, maxAttempts: nat)
    requires ValidStep(db, step) && (step.Working? || step.Ticking?)
    requires KeptByJobs(inv, maxAttempts) && KeptByTime(inv) && inv(db)
    ensures inv(Apply(db, step, maxAttempts))
  {
    match step
    case Working(batch, claimed, provider) =>
      ClaimIsClaimable(db, batch, claimed);
      var kept := (p: Progress, i: nat) => inv(p.db);
      forall p: Progress, i: nat | i < |claimed| && StillClaimed(db, claimed, p, i) && kept(p, i)
        ensures kept(WorkNext(p, claimed[i], provider(i), maxAttempts), i + 1)
      {
        StillClaimedNext(db, claimed, p, i, provider(i), maxAttempts);
      }
      PassKeeps(kept, db, claimed, provider, maxAttempts, |claimed|);
    case Ticking(elapsed) =>
      assert Apply(db, step, maxAttempts) == Later(db, elapsed);
  }

  /** The chunk is to be embedded and the job for its current hash has failed for good. */
  predicate FailedCurrent(db: Db, model: string, index: string, c: string)
    requires index in db.scopes
  {
    && InScope(db, index, c) && Eligible(db, c)
    && var k := KeyOf(db, model, index, c);
       k in db.jobs && db.jobs[k].status == Failed
  }

  /** Open jobs fit the chunk, and without one it is as wanted or its job has failed. */
  ghost predicate Explained(db: Db, model: string, index: string, c: string) {
    && index in db.scopes && model in db.models
    && (forall k :: k in OpenKeys(db, c, model, index) && Eligible(db, c) ==>
          InScope(db, index, c) && k == KeyOf(db, model, index, c))
    && (OpenKeys(db, c, model, index) == {} ==>
          ActiveHashes(db, c, model, index) == Wanted(db, index, c) || FailedCurrent(db, model, index, c))
  }

  lemma ErrorLeavesOpenOrFailed(db: Db, k: Key, outcome: Outcome, maxAttempts: nat)
    requires k in db.jobs && Runnable(db, k) && !RightSized(outcome, db.models[k.model])
    ensures var after := RunJob(db, k, outcome, maxAttempts);
            && after == db.(jobs := db.jobs[k := after.jobs[k]])
            && (Claimable(after.jobs[k]) || after.jobs[k].status == Failed)
  {}

  lemma CancelIsSettled(db: Db, k: Key, outcome: Outcome, maxAttempts: nat) returns (any: Outcome)
    requires k in db.jobs && (Runnable(db, k) ==> RightSized(outcome, db.models[k.model]))
    ensures Obliging(db, k, any) && RunJob(db, k, any, maxAttempts) == RunJob(db, k, outcome, maxAttempts)
  {
    if Runnable(db, k) || k.model !in db.models {
      any := outcome;
    } else {
      var n := db.models[k.model].dimensions;
      any := Returned(seq(n, _ => 0.0), n);
    }
  }

  lemma JobKeepsExplained(db: Db, k: Key, outcome: Outcome, maxAttempts: nat, model: string, index: string, c: string)
    requires k in db.jobs && Claimable(db.jobs[k]) && Explained(db, model, index, c)
    ensures Explained(RunJob(db, k, outcome, maxAttempts), model, index, c)
  {
    var after := RunJob(db, k, outcome, maxAttempts);
    if Runnable(db, k) && !RightSized(outcome, db.models[k.model]) {
      ErrorLeavesOpenOrFailed(db, k, outcome, maxAttempts);
      ErrorKeepsExplained(db, k, after, model, index, c);
    } else {
      var any := CancelIsSettled(db, k, outcome, maxAttempts);
      JobWorked(db, k, any, maxAttempts);
      RunJobSettles(db, k, any, maxAttempts);
      SettlingKeepsExplained(db, k, after, model, index, c);
    }
  }

  lemma ErrorKeepsExplained(db: Db, k: Key, after: Db, model: string, index: string, c: string)
    requires k in db.jobs && Claimable(db.jobs[k]) && Runnable(db, k) && Explained(db, model, index, c)
    requires k in after.jobs && after == db.(jobs := db.jobs[k := after.jobs[k]])
    requires Claimable(after.jobs[k]) || after.jobs[k].status == Failed
    ensures Explained(after, model, index, c)
  {
    assert HasCurrent(after, c) == HasCurrent(db, c);
    assert ActiveHashes(after, c, model, index) == ActiveHashes(db, c, model, index);
    assert forall j :: j in OpenKeys(after, c, model, index) ==> j in OpenKeys(db, c, model, index);
    if SameTriple(k, c, model, index) {
      assert k in OpenKeys(db, c, model, index) && k == KeyOf(db, model, index, c);
      if Claimable(after.jobs[k]) {
        assert k in OpenKeys(after, c, model, index);
      } else {
        assert FailedCurrent(after, model, index, c);
      }
    } else {
      assert OpenKeys(after, c, model, index) == OpenKeys(db, c, model, index);
      assert FailedCurrent(db, model, index, c) ==> FailedCurrent(after, model, index, c);
    }
  }

  lemma SettlingKeepsExplained(db: Db, k: Key, after: Db, model: string, index: string, c: string)
    requires Worked(db, k, after) && Claimable(db.jobs[k]) && Explained(db, model, index, c)
    requires ActiveHashes(after, k.chunk, k.model, k.index) == Settled(db, k)
    requires !SameTriple(k, c, model, index) ==>
               ActiveHashes(after, c, model, index) == ActiveHashes(db, c, model, index)
    ensures Explained(after, model, index, c)
  {
    WorkedOpens(db, k, after, c, model, index);
    assert HasCurrent(after, c) == HasCurrent(db, c);
    assert Wanted(after, index, c) == Wanted(db, index, c);
    if SameTriple(k, c, model, index) { assert k in OpenKeys(db, c, model, index); }
  }

  /** What the end of the queue means for every chunk of the index. */
  ghost predicate EndsExplained(db: Db, model: string, index: string) {
    && index in db.scopes
    && forall c :: ActiveHashes(db, c, model, index) == Wanted(db, index, c) || FailedCurrent(db, model, index, c)
  }

  lemma PlannedIsExplained(db: Db, model: string, index: string, c: string)
    requires Planned(db, model, index) && QueueIsCurrent(db, model, index) && model in db.models
    ensures Explained(db, model, index, c)
  {
    assert forall k :: k in OpenKeys(db, c, model, index) ==> k in AllOpen(db);
    if OpenKeys(db, c, model, index) == {} { QuietChunkIsWanted(db, model, index, c); }
  }

  lemma AnyProviderExplained(db: Db, steps: seq<Step>, maxAttempts: nat, model: string, index: string)
    requires Planned(db, model, index) && QueueIsCurrent(db, model, index) && model in db.models
    requires WorkerRun(db, steps, maxAttempts) && AllOpen(Run(db, steps, maxAttempts)) == {}
    ensures EndsExplained(Run(db, steps, maxAttempts), model, index)
  {
    var after := Run(db, steps, maxAttempts);
    forall c ensures Explained(after, model, index, c) {
      var inv := (st: Db) => Explained(st, model, index, c);
      PlannedIsExplained(db, model, index, c);
      forall st: Db, k: Key, outcome: Outcome | k in st.jobs && Claimable(st.jobs[k]) && inv(st)
        ensures inv(RunJob(st, k, outcome, maxAttempts))
      {
        JobKeepsExplained(st, k, outcome, maxAttempts, model, index, c);
      }
      forall st: Db, elapsed: nat | inv(st) ensures inv(Later(st, elapsed)) {
        TimeKeepsExplained(st, elapsed, model, index, c);
      }
      WorkerRunKeeps(inv, db, steps, maxAttempts);
    }
    assert Explained(after, model, index, "");
    forall c
      ensures ActiveHashes(after, c, model, index) == Wanted(after, index, c) || FailedCurrent(after, model, index, c)
    {
      assert Explained(after, model, index, c);
      assert forall k :: k in OpenKeys(after, c, model, index) ==> k in AllOpen(after);
    }
  }

  lemma TimeKeepsExplained(db: Db, elapsed: nat, model: string, index: string, c: string)
    requires Explained(db, model, index, c)
    ensures Explained(Later(db, elapsed), model, index, c)
  {
    var after := Later(db, elapsed);
    assert HasCurrent(after, c) == HasCurrent(db, c);
    assert OpenKeys(after, c, model, index) == OpenKeys(db, c, model, index);
    assert ActiveHashes(after, c, model, index) == ActiveHashes(db, c, model, index);
  }

  /**
   From a current queue and no finished job without its vector, whatever the provider does: once the
   queue is empty every chunk is as wanted, or its current job is there to be seen as failed.
   */
  lemma CurrentQueueExplained(db: Db, model: string, index: string, listing: seq<string>, maxAttempts: nat)
    requires maxAttempts >= 1 && Consistent(db, maxAttempts) && OneCurrent(db)
    requires index in db.scopes && model in db.models
    requires IsListing(db, index, listing) && forall c :: c in listing ==> c in db.chunks
    requires forall k: Key :: k.chunk in listing ==> !Clash(db, model, index, k)
    requires QueueIsCurrent(db, model, index)
    ensures Plan(db, model, index, listing).Ok?
    ensures var planned := Plan(db, model, index, listing).value.0;
            forall steps ::
              WorkerRun(planned, steps, maxAttempts) && AllOpen(Run(planned, steps, maxAttempts)) == {} ==>
                EndsExplained(Run(planned, steps, maxAttempts), model, index)
  {
    UnlimitedPlanCovers(db, model, index, listing);
    ListingDistinct(db, index, listing);
    var planned := Plan(db, model, index, listing).value.0;
    PlanIsPlanned(db, planned, model, index, listing, maxAttempts);
    PlanKeepsQueueCurrent(db, planned, model, index, listing);
    forall steps | WorkerRun(planned, steps, maxAttempts) && AllOpen(Run(planned, steps, maxAttempts)) == {}
      ensures EndsExplained(Run(planned, steps, maxAttempts), model, index)
    {
      AnyProviderExplained(planned, steps, maxAttempts, model, index);
    }
  }
}
