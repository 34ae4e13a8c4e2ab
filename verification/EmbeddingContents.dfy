/** What stored vectors look like, and what one provider answer does to a job and its vector. */
module EmbeddingContents {
  import opened Ordering
  import opened EmbeddingTables
  import opened EmbeddingRuns
  import PlanCounts

  /** The row is for its key's hash and as long as its model asks, in the model's metric. */
  predicate Fits(db: Db, k: Key, v: Vector) {
    && k.model in db.models && v.inputHash == k.hash
    && |v.values| == v.dimensions == db.models[k.model].dimensions
    && v.metric == db.models[k.model].metric
  }

  ghost predicate VectorsFit(db: Db) { forall k :: k in db.vectors ==> Fits(db, k, db.vectors[k]) }

  /** The chunk a job is for is still there to be embedded, with the job's hash, and the model is known. */
  predicate Wanted(db: Db, k: Key) {
    k.model in db.models && PlanCounts.MayEmbed(db, k.chunk) && db.chunks[k.chunk].hash == k.hash
  }

  /** The answer is no vector of the size the job's model asks for. */
  predicate Misfit(db: Db, k: Key, outcome: Outcome) {
    match outcome
    case Raised => true
    case Returned(values, dimensions) =>
      k.model !in db.models || dimensions != db.models[k.model].dimensions || |values| != dimensions
  }

  /** Every column of the job after one job of the worker. */
  ghost predicate JobTells(db: Db, k: Key, outcome: Outcome, maxAttempts: nat, job: Job)
    requires k in db.jobs
  {
    var tried := db.jobs[k].attempts + 1;
    && job.attempts == tried && job.created == db.jobs[k].created
    && (!Wanted(db, k) ==> job.status == Cancelled && job.nextRetry == None)
    && (Wanted(db, k) && Misfit(db, k, outcome) ==>
          if tried >= maxAttempts then job.status == Failed && job.nextRetry == None
          else job.status == Retrying && job.nextRetry == Some(db.clock + 30))
    && (Wanted(db, k) && !Misfit(db, k, outcome) ==> job.status == Succeeded && job.nextRetry == None)
  }

  /** Every column of any vector row after one job of the worker. */
  ghost predicate VectorTells(db: Db, k: Key, outcome: Outcome, j: Key, after: Db) {
    if j == k && Wanted(db, k) && !Misfit(db, k, outcome) then
      && k in after.vectors && after.vectors[k].inputHash == k.hash && after.vectors[k].values == outcome.values
      && after.vectors[k].dimensions == outcome.dimensions && after.vectors[k].active
      && after.vectors[k].metric == db.models[k.model].metric
    else
      && (j in after.vectors <==> j in db.vectors)
      && (j in db.vectors ==>
            after.vectors[j] ==
              if (Wanted(db, k) && Misfit(db, k, outcome))
                 || j.chunk != k.chunk || j.model != k.model || j.index != k.index then db.vectors[j]
              else db.vectors[j].(active := false))
  }

  lemma JobMeans(db: Db, k: Key, outcome: Outcome, maxAttempts: nat)
    requires k in db.jobs
    ensures var after := RunJob(db, k, outcome, maxAttempts);
            && after == db.(vectors := after.vectors, jobs := db.jobs[k := after.jobs[k]])
            && JobTells(db, k, outcome, maxAttempts, after.jobs[k])
  {
    PlanCounts.MayEmbedIff(db, k.chunk);
  }

  lemma VectorMeans(db: Db, k: Key, outcome: Outcome, maxAttempts: nat, j: Key)
    requires k in db.jobs
    ensures VectorTells(db, k, outcome, j, RunJob(db, k, outcome, maxAttempts))
  {
    PlanCounts.MayEmbedIff(db, k.chunk);
  }

  lemma JobKeepsFit(db: Db, k: Key, outcome: Outcome, maxAttempts: nat)
    requires k in db.jobs && VectorsFit(db)
    ensures VectorsFit(RunJob(db, k, outcome, maxAttempts))
  {
    var after := RunJob(db, k, outcome, maxAttempts);
    JobMeans(db, k, outcome, maxAttempts);
    forall j | j in after.vectors ensures Fits(after, j, after.vectors[j]) {
      VectorMeans(db, k, outcome, maxAttempts, j);
    }
  }

  lemma StepKeepsFit(db: Db, step: Step, maxAttempts: nat)
    requires ValidStep(db, step) && VectorsFit(db)
    ensures VectorsFit(Apply(db, step, maxAttempts)) && Apply(db, step, maxAttempts).models == db.models
  {
    match step
    case Working(_, claimed, provider) =>
      var inv := (p: Progress, i: nat) => VectorsFit(p.db) && p.db.models == db.models;
      forall p: Progress, i: nat | i < |claimed| && StillClaimed(db, claimed, p, i) && inv(p, i)
        ensures inv(WorkNext(p, claimed[i], provider(i), maxAttempts), i + 1)
      {
        assert claimed[i] in claimed && claimed[i] in p.db.jobs;
        JobKeepsFit(p.db, claimed[i], provider(i), maxAttempts);
      }
      assert forall k :: k in claimed ==> k in DueKeys(db);
      PassKeeps(inv, db, claimed, provider, maxAttempts, |claimed|);
    case Planning(model, index, listing, limit) =>
      if index in db.scopes { PlanKeepsFit(db, model, index, listing, limit, maxAttempts); }
    case _ =>
  }

  lemma PlanKeepsFit(db: Db, model: string, index: string, listing: seq<string>, limit: Option<nat>, maxAttempts: nat)
    requires index in db.scopes && IsListing(db, index, listing) && VectorsFit(db)
    ensures var after := Apply(db, Planning(model, index, listing, limit), maxAttempts);
            VectorsFit(after) && after.models == db.models
  {
    var ids := Limited(listing, limit);
    forall c | c in ids ensures c in db.chunks { ListingIsStored(db, index, listing, limit, c); }
    PlanCounts.SummaryTells(db, model, index, ids);
  }

  /** Over every run from tables where it holds, as from empty ones, every stored vector fits its key's model. */
  lemma {:induction false} RunsKeepVectorsFit(db: Db, steps: seq<Step>, maxAttempts: nat)
    requires ValidRun(db, steps, maxAttempts) && VectorsFit(db)
    ensures VectorsFit(Run(db, steps, maxAttempts))
    decreases |steps|
  {
    if steps != [] {
      StepKeepsFit(db, steps[0], maxAttempts);
      RunsKeepVectorsFit(Apply(db, steps[0], maxAttempts), steps[1..], maxAttempts);
    }
  }

  // ----- A whole pass -----

  /** Waiting to be tried, for the first time or again, and not before its time. */
  predicate CanStart(job: Job, clock: int) {
    && (job.status == Pending || job.status == Retrying)
    && (job.nextRetry == None || job.nextRetry.value <= clock)
  }

  function Startable(db: Db): set<Key> { set k | k in db.jobs && CanStart(db.jobs[k], db.clock) }

  /** Created no later; of those created together, the chunk id is no greater. */
  predicate NoLater(db: Db, j: Key, k: Key)
    requires j in db.jobs && k in db.jobs
  {
    || db.jobs[j].created < db.jobs[k].created
    || (db.jobs[j].created == db.jobs[k].created && !StringLess(k.chunk, j.chunk))
  }

  /** A pass takes up the oldest jobs that can start, as many as the batch allows, the oldest first. */
  lemma ClaimTells(db: Db, batch: nat, claimed: seq<Key>)
    requires IsClaim(db, batch, claimed)
    ensures Distinct(claimed) && forall k :: k in claimed ==> k in Startable(db)
    ensures |claimed| <= batch && (|claimed| == batch || forall k :: k in Startable(db) ==> k in claimed)
    ensures forall i, j :: 0 <= i < j < |claimed| ==> claimed[i] in db.jobs && claimed[j] in db.jobs
                                                      && NoLater(db, claimed[i], claimed[j])
    ensures forall i, k :: 0 <= i < |claimed| && k in Startable(db) && k !in claimed ==>
                             claimed[i] in db.jobs && NoLater(db, claimed[i], k)
  {
    StringLessTotal();
    assert DueKeys(db) == Startable(db);
    forall i | 0 <= i < |claimed| ensures claimed[i] in db.jobs { assert claimed[i] in claimed; }
    if |claimed| < batch {
      forall k | k in Startable(db) ensures k in claimed { AllTaken(claimed, Startable(db), k); }
    }
  }

  lemma AllTaken(claimed: seq<Key>, due: set<Key>, k: Key)
    requires Distinct(claimed) && |claimed| == |due| && (forall j :: j in claimed ==> j in due) && k in due
    ensures k in claimed
  {
    DistinctCardinality(claimed);
    if k !in claimed { SubsetCardinality((set j | j in claimed) + {k}, due); }
  }

  /** The vector row of k is as it was, but for having been switched off perhaps. */
  ghost predicate RowKept(before: map<Key, Vector>, after: map<Key, Vector>, k: Key) {
    && (k in after <==> k in before)
    && (k in before ==> after[k] == before[k] || after[k] == before[k].(active := false))
  }

  ghost predicate Refused(db: Db, now: Db, k: Key, worked: bool) {
    && now.models == db.models && RowKept(db.vectors, now.vectors, k) && k in now.jobs
    && (worked ==> now.jobs[k].status != Succeeded)
  }

  function Past(i: nat, at: nat): bool { at < i }

  lemma JobKeepsRefused(db: Db, now: Db, k: Key, worked: bool, j: Key, outcome: Outcome, maxAttempts: nat)
    requires Refused(db, now, k, worked) && j in now.jobs && (j == k ==> Misfit(db, k, outcome))
    ensures Refused(db, RunJob(now, j, outcome, maxAttempts), k, worked || j == k)
  {
    JobMeans(now, j, outcome, maxAttempts);
    var after := RunJob(now, j, outcome, maxAttempts);
    VectorMeans(now, j, outcome, maxAttempts, k);
    assert j != k ==> after.jobs[k] == now.jobs[k];
  }

  /** One job adds one to the counter of its new status, and a cancelled one the vectors it switched off. */
  lemma TallyMeans(db: Db, k: Key, outcome: Outcome, maxAttempts: nat, t: Tally)
    requires k in db.jobs
    ensures var after, now := RunJob(db, k, outcome, maxAttempts), TallyJob(db, k, outcome, maxAttempts, t);
            var status := after.jobs[k].status;
            && now.succeeded == t.succeeded + (if status == Succeeded then 1 else 0)
            && now.failed == t.failed + (if status == Failed then 1 else 0)
            && now.retrying == t.retrying + (if status == Retrying then 1 else 0)
            && now.cancelled == t.cancelled + (if status == Cancelled then 1 else 0)
            && now.deactivated == t.deactivated + CancelledOff(db, k, after)
  {
    if !Runnable(db, k) {
      assert PlanCounts.SwitchedOff(db.vectors, RunJob(db, k, outcome, maxAttempts).vectors)
             == StaleKeys(db.vectors, k.chunk, k.model, k.index, None);
    }
  }

  function CancelledOff(before: Db, k: Key, after: Db): nat {
    if k in after.jobs && after.jobs[k].status == Cancelled then
      |PlanCounts.SwitchedOff(before.vectors, after.vectors)|
    else 0
  }

  /** Vectors switched off by the cancelled ones among the first n jobs of a pass. */
  function AllCancelledOff(db: Db, claimed: seq<Key>, provider: nat -> Outcome, maxAttempts: nat, n: nat): nat
    requires n <= |claimed|
  {
    if n == 0 then 0
    else
      AllCancelledOff(db, claimed, provider, maxAttempts, n - 1)
      + CancelledOff(PassTo(db, claimed, provider, maxAttempts, n - 1).db, claimed[n - 1],
                     PassTo(db, claimed, provider, maxAttempts, n).db)
  }

  /** The worker's count of deactivated vectors is theirs. */
  lemma {:induction false} DeactivatedAccounts(db: Db, claimed: seq<Key>, provider: nat -> Outcome, maxAttempts: nat,
                                               n: nat)
    requires n <= |claimed| && ClaimedJobs(db, claimed)
    ensures PassTo(db, claimed, provider, maxAttempts, n).tally.deactivated
            == AllCancelledOff(db, claimed, provider, maxAttempts, n)
  {
    if n > 0 {
      DeactivatedAccounts(db, claimed, provider, maxAttempts, n - 1);
      var p := PassTo(db, claimed, provider, maxAttempts, n - 1);
      PassKeeps((q: Progress, i: nat) => true, db, claimed, provider, maxAttempts, n - 1);
      assert claimed[n - 1] in p.db.jobs;
      TallyMeans(p.db, claimed[n - 1], provider(n - 1), maxAttempts, p.tally);
    }
  }

  /** A claimed job whose answer is of another size does not succeed, and its vector row is not written. */
  lemma MisfitStoresNothing(db: Db, batch: nat, claimed: seq<Key>, provider: nat -> Outcome, maxAttempts: nat, at: nat)
    requires IsClaim(db, batch, claimed) && at < |claimed| && Misfit(db, claimed[at], provider(at))
    ensures var after := Pass(db, claimed, provider, maxAttempts).db;
            && claimed[at] in after.jobs && after.jobs[claimed[at]].status != Succeeded
            && RowKept(db.vectors, after.vectors, claimed[at])
  {
    var k := claimed[at];
    assert forall j :: j in claimed ==> j in DueKeys(db);
    assert k in claimed;
    var inv := (p: Progress, i: nat) => Refused(db, p.db, k, Past(i, at));
    forall p: Progress, i: nat | i < |claimed| && StillClaimed(db, claimed, p, i) && inv(p, i)
      ensures inv(WorkNext(p, claimed[i], provider(i), maxAttempts), i + 1)
    {
      assert claimed[i] in claimed && claimed[i] in p.db.jobs && (claimed[i] == k ==> i == at);
      JobKeepsRefused(db, p.db, k, Past(i, at), claimed[i], provider(i), maxAttempts);
    }
    PassKeeps(inv, db, claimed, provider, maxAttempts, |claimed|);
  }
}
