/** One plan, then any schedule that empties the queue: exactly when the right vectors are active at the end. */
module EmbeddingConvergence {
  import opened Ordering
  import opened EmbeddingTables
  import opened EmbeddingRuns
  import opened EmbeddingPlanning
  import opened EmbeddingSchedules
  import opened EmbeddingOverruns

  /** One active vector at the current hash for each eligible chunk in scope, and nothing else. */
  ghost function Wanted(db: Db, index: string, c: string): set<string>
    requires index in db.scopes
  {
    if InScope(db, index, c) && Eligible(db, c) then {db.chunks[c].hash} else {}
  }

  ghost predicate Converged(db: Db, model: string, index: string)
    requires index in db.scopes
  {
    forall c :: ActiveHashes(db, c, model, index) == Wanted(db, index, c)
  }

  /** A job that, worked last, leaves an eligible chunk as it should not be: stale in scope, or current out of scope. */
  predicate Wrong(db: Db, k: Key)
    requires k.index in db.scopes
  {
    Eligible(db, k.chunk) && (Runnable(db, k) <==> !InScope(db, k.index, k.chunk))
  }

  /** Every open wrong job is bound to be worked before an open right one of its chunk, model and index. */
  ghost predicate Corrected(db: Db, k: Key)
    requires k.index in db.scopes
  {
    exists j :: j in OpenKeys(db, k.chunk, k.model, k.index) && !Wrong(db, j) && GoesBefore(db, k, j)
  }

  ghost predicate RightOneLast(db: Db, c: string, model: string, index: string)
    requires index in db.scopes
  {
    forall k :: k in OpenKeys(db, c, model, index) && Wrong(db, k) ==> Corrected(db, k)
  }

  /** The condition on the planned tables: for every chunk a right job has the last word. */
  ghost predicate QueueEndsRight(db: Db, model: string, index: string)
    requires index in db.scopes
  {
    forall c :: RightOneLast(db, c, model, index)
  }

  // ----- The condition suffices -----

  /** Either the chunk is settled as wanted, or its queue will settle it so. */
  ghost predicate OnCourse(db: Db, c: string, model: string, index: string) {
    && index in db.scopes && RightOneLast(db, c, model, index)
    && (OpenKeys(db, c, model, index) == {} ==> ActiveHashes(db, c, model, index) == Wanted(db, index, c))
  }

  lemma RightJobSettlesWanted(db: Db, k: Key)
    requires k.index in db.scopes && !Wrong(db, k)
    ensures Settled(db, k) == Wanted(db, k.index, k.chunk)
  {}

  lemma WrongJobSettlesUnwanted(db: Db, k: Key)
    requires k.index in db.scopes && Wrong(db, k)
    ensures Settled(db, k) != Wanted(db, k.index, k.chunk)
  {
    if Runnable(db, k) {
      assert k.hash in Settled(db, k);
    } else {
      assert db.chunks[k.chunk].hash in Wanted(db, k.index, k.chunk);
    }
  }

  lemma WorkKeepsRightLast(db: Db, k: Key, outcome: Outcome, after: Db, c: string, model: string, index: string)
    requires Takes(db, k, outcome) && Worked(db, k, after)
    requires index in db.scopes && RightOneLast(db, c, model, index)
    ensures RightOneLast(after, c, model, index)
  {
    WorkedOpens(db, k, after, c, model, index);
    forall x | x in OpenKeys(after, c, model, index) && Wrong(after, x) ensures Corrected(after, x) {
      assert Wrong(db, x) && x in OpenKeys(db, c, model, index);
      var j :| j in OpenKeys(db, c, model, index) && !Wrong(db, j) && GoesBefore(db, x, j);
      if j == k { NotTakenFirst(db, x, k, outcome); }
      assert j in OpenKeys(after, c, model, index) && !Wrong(after, j) && GoesBefore(after, x, j);
    }
  }

  lemma LastOneIsRight(db: Db, k: Key, c: string, model: string, index: string)
    requires index in db.scopes && RightOneLast(db, c, model, index) && OpenKeys(db, c, model, index) == {k}
    ensures Settled(db, k) == Wanted(db, index, c)
  {
    assert k in OpenKeys(db, c, model, index);
    assert !Corrected(db, k);
    RightJobSettlesWanted(db, k);
  }

  lemma WorkKeepsOnCourse(db: Db, k: Key, outcome: Outcome, maxAttempts: nat, c: string, model: string, index: string)
    requires Takes(db, k, outcome) && OnCourse(db, c, model, index)
    ensures OnCourse(RunJob(db, k, outcome, maxAttempts), c, model, index)
  {
    var after := RunJob(db, k, outcome, maxAttempts);
    JobWorked(db, k, outcome, maxAttempts);
    WorkedOpens(db, k, after, c, model, index);
    RunJobSettles(db, k, outcome, maxAttempts);
    WorkKeepsRightLast(db, k, outcome, after, c, model, index);
    assert Wanted(after, index, c) == Wanted(db, index, c);
    if OpenKeys(after, c, model, index) == {} && SameTriple(k, c, model, index) {
      assert k in OpenKeys(db, c, model, index);
      assert OpenKeys(db, c, model, index) == {k};
      LastOneIsRight(db, k, c, model, index);
    }
  }

  /** A job that another open one goes before is not taken first. */
  lemma NotTakenFirst(db: Db, x: Key, k: Key, outcome: Outcome)
    requires x in OpenKeys(db, k.chunk, k.model, k.index) && GoesBefore(db, x, k)
    ensures !Takes(db, k, outcome)
  {
    if Due(db.jobs[k], db.clock) { assert Due(db.jobs[x], db.clock); }
  }

  lemma TimeKeepsOnCourse(db: Db, elapsed: nat, c: string, model: string, index: string)
    requires OnCourse(db, c, model, index)
    ensures OnCourse(Later(db, elapsed), c, model, index)
  {
    var after := Later(db, elapsed);
    assert OpenKeys(after, c, model, index) == OpenKeys(db, c, model, index);
    assert ActiveHashes(after, c, model, index) == ActiveHashes(db, c, model, index);
    assert HasCurrent(after, c) == HasCurrent(db, c);
    forall x | x in OpenKeys(after, c, model, index) && Wrong(after, x) ensures Corrected(after, x) {
      assert Wrong(db, x);
      var j :| j in OpenKeys(db, c, model, index) && !Wrong(db, j) && GoesBefore(db, x, j);
      assert j in OpenKeys(after, c, model, index) && !Wrong(after, j) && GoesBefore(after, x, j);
    }
  }

  lemma ScheduleKeepsOnCourse(db: Db, steps: seq<Step>, maxAttempts: nat, c: string, model: string, index: string)
    requires Schedule(db, steps, maxAttempts) && OnCourse(db, c, model, index)
    ensures OnCourse(Run(db, steps, maxAttempts), c, model, index)
  {
    var inv := (st: Db) => OnCourse(st, c, model, index);
    forall st: Db, k: Key, outcome: Outcome | Takes(st, k, outcome) && inv(st)
      ensures inv(RunJob(st, k, outcome, maxAttempts))
    {
      WorkKeepsOnCourse(st, k, outcome, maxAttempts, c, model, index);
    }
    forall st: Db, elapsed: nat | inv(st) ensures inv(Later(st, elapsed)) {
      TimeKeepsOnCourse(st, elapsed, c, model, index);
    }
    ScheduleKeeps(inv, db, steps, maxAttempts);
  }

  lemma ActiveIsWanted(db: Db, model: string, index: string, c: string)
    requires index in db.scopes && InScope(db, index, c) && Eligible(db, c) && OneActive(db.vectors)
    requires HasActive(db.vectors, KeyOf(db, model, index, c))
    ensures ActiveHashes(db, c, model, index) == Wanted(db, index, c)
  {
    var k := KeyOf(db, model, index, c);
    forall h ensures h in ActiveHashes(db, c, model, index) <==> h == k.hash {
      if h in ActiveHashes(db, c, model, index) {
        var j :| HasActive(db.vectors, j) && SameTriple(j, c, model, index) && j.hash == h;
      }
    }
  }

  /** After an unlimited plan a chunk without open jobs is as wanted. */
  lemma QuietChunkIsWanted(db: Db, model: string, index: string, c: string)
    requires index in db.scopes && Swept(db, model, index) && Covered(db, model, index)
    requires OneActive(db.vectors) && OpenKeys(db, c, model, index) == {}
    requires forall k :: k in db.jobs ==> db.jobs[k].status != Running
    ensures ActiveHashes(db, c, model, index) == Wanted(db, index, c)
  {
    if InScope(db, index, c) && Eligible(db, c) {
      var k := KeyOf(db, model, index, c);
      assert k in db.jobs && Open(db.jobs[k]) ==> k in OpenKeys(db, c, model, index);
      ActiveIsWanted(db, model, index, c);
    } else {
      assert forall j :: SameTriple(j, c, model, index) ==> !HasActive(db.vectors, j);
    }
  }

  /** What a successful unlimited plan leaves, and all the theorem needs of it. */
  ghost predicate Planned(db: Db, model: string, index: string) {
    && index in db.scopes && Swept(db, model, index) && Covered(db, model, index) && OneActive(db.vectors)
    && forall k :: k in db.jobs ==> db.jobs[k].status != Running
  }

  ghost predicate Drains(db: Db, steps: seq<Step>, maxAttempts: nat) {
    Schedule(db, steps, maxAttempts) && AllOpen(Run(db, steps, maxAttempts)) == {}
  }

  lemma EveryScheduleConverges(db: Db, steps: seq<Step>, maxAttempts: nat, model: string, index: string)
    requires Planned(db, model, index) && QueueEndsRight(db, model, index) && Drains(db, steps, maxAttempts)
    ensures var after := Run(db, steps, maxAttempts); index in after.scopes && Converged(after, model, index)
  {
    var after := Run(db, steps, maxAttempts);
    forall c ensures OnCourse(after, c, model, index) {
      if OpenKeys(db, c, model, index) == {} { QuietChunkIsWanted(db, model, index, c); }
      ScheduleKeepsOnCourse(db, steps, maxAttempts, c, model, index);
    }
    assert OnCourse(after, "", model, index);
    forall c ensures ActiveHashes(after, c, model, index) == Wanted(after, index, c) {
      assert OnCourse(after, c, model, index);
      assert OpenKeys(after, c, model, index) <= AllOpen(after);
    }
  }

  // ----- The condition is needed -----

  lemma WantedSame(db: Db, after: Db, index: string, c: string)
    requires SameRest(db, after) && index in db.scopes
    ensures index in after.scopes && Wanted(after, index, c) == Wanted(db, index, c)
  {
    assert HasCurrent(after, c) == HasCurrent(db, c);
  }

  /** A wrong job nothing is bound to correct has the last word in some schedule. */
  lemma UncorrectedBreaks(db: Db, x: Key, maxAttempts: nat) returns (steps: seq<Step>)
    requires x.index in db.scopes && x in AllOpen(db) && Wrong(db, x) && !Corrected(db, x)
    ensures Drains(db, steps, maxAttempts) && !ConvergesBy(db, steps, maxAttempts, x.model, x.index)
  {
    forall y | y in AllOpen(db) && Rival(db, x, y) ensures !GoesBefore(db, x, y) {
      assert y in OpenKeys(db, x.chunk, x.model, x.index) && !Wrong(db, y);
    }
    var after, z;
    steps, after, z := Overrun(db, x, maxAttempts);
    assert Wrong(db, z);
    WrongJobSettlesUnwanted(db, z);
    WantedSame(db, after, x.index, x.chunk);
  }

  ghost predicate ConvergesBy(db: Db, steps: seq<Step>, maxAttempts: nat, model: string, index: string)
    requires Drains(db, steps, maxAttempts)
  {
    var after := Run(db, steps, maxAttempts);
    index in after.scopes && Converged(after, model, index)
  }

  lemma PlanIsPlanned(db: Db, planned: Db, model: string, index: string, listing: seq<string>, maxAttempts: nat)
    requires maxAttempts >= 1 && Consistent(db, maxAttempts) && OneCurrent(db) && index in db.scopes
    requires IsListing(db, index, listing) && forall c :: c in listing ==> c in db.chunks
    requires Plan(db, model, index, listing).Ok? && planned == Plan(db, model, index, listing).value.0
    ensures Planned(planned, model, index) && PlannedAs(db, model, index, listing, planned)
  {
    UnlimitedPlanCovers(db, model, index, listing);
    PlanKeeps(db, model, index, listing, maxAttempts);
  }

  /**
   After an unlimited plan, every schedule of passes and waits that empties the queue leaves exactly
   the eligible chunks in scope active, one vector each at the current hash, if and only if every
   open stale job of such a chunk is older than an open current one and due no later, and every
   open current job of an eligible chunk out of scope is so followed by a stale one.
   */
  lemma ConvergesIff(db: Db, planned: Db, model: string, index: string, listing: seq<string>, maxAttempts: nat)
    requires maxAttempts >= 1 && Consistent(db, maxAttempts) && OneCurrent(db) && index in db.scopes
    requires IsListing(db, index, listing) && forall c :: c in listing ==> c in db.chunks
    requires Plan(db, model, index, listing).Ok? && planned == Plan(db, model, index, listing).value.0
    ensures index in planned.scopes
    ensures (forall steps :: Drains(planned, steps, maxAttempts) ==>
              ConvergesBy(planned, steps, maxAttempts, model, index))
            <==> QueueEndsRight(planned, model, index)
  {
    PlanIsPlanned(db, planned, model, index, listing, maxAttempts);
    if QueueEndsRight(planned, model, index) {
      forall steps | Drains(planned, steps, maxAttempts)
        ensures ConvergesBy(planned, steps, maxAttempts, model, index)
      {
        EveryScheduleConverges(planned, steps, maxAttempts, model, index);
      }
    } else {
      var c :| !RightOneLast(planned, c, model, index);
      var x :| x in OpenKeys(planned, c, model, index) && Wrong(planned, x) && !Corrected(planned, x);
      var steps := UncorrectedBreaks(planned, x, maxAttempts);
    }
  }

  // ----- Chunks that no schedule gets right -----

  /** Only wrong jobs are open for x's chunk, or none and it is not as wanted. */
  ghost predicate OffCourse(db: Db, x: Key) {
    && x.index in db.scopes
    && (forall y :: y in OpenKeys(db, x.chunk, x.model, x.index) ==> Wrong(db, y))
    && (OpenKeys(db, x.chunk, x.model, x.index) == {} ==>
          ActiveHashes(db, x.chunk, x.model, x.index) != Wanted(db, x.index, x.chunk))
  }

  lemma WorkKeepsOffCourse(db: Db, k: Key, outcome: Outcome, maxAttempts: nat, x: Key)
    requires Takes(db, k, outcome) && OffCourse(db, x)
    ensures OffCourse(RunJob(db, k, outcome, maxAttempts), x)
  {
    var after := RunJob(db, k, outcome, maxAttempts);
    JobWorked(db, k, outcome, maxAttempts);
    WorkedOpens(db, k, after, x.chunk, x.model, x.index);
    RunJobSettles(db, k, outcome, maxAttempts);
    WantedSame(db, after, x.index, x.chunk);
    if SameTriple(k, x.chunk, x.model, x.index) {
      assert k in OpenKeys(db, x.chunk, x.model, x.index);
      WrongJobSettlesUnwanted(db, k);
    }
  }

  lemma TimeKeepsOffCourse(db: Db, elapsed: nat, x: Key)
    requires OffCourse(db, x)
    ensures OffCourse(Later(db, elapsed), x)
  {
    var after := Later(db, elapsed);
    WantedSame(db, after, x.index, x.chunk);
    assert OpenKeys(after, x.chunk, x.model, x.index) == OpenKeys(db, x.chunk, x.model, x.index);
    assert ActiveHashes(after, x.chunk, x.model, x.index) == ActiveHashes(db, x.chunk, x.model, x.index);
  }

  /**
   A wrong job without any right one open beside it is never made good: a stale job beside a current
   vector that is already active, or a current job of a chunk out of scope, spoils every schedule.
   */
  lemma OnlyWrongOnesNeverConverge(db: Db, x: Key, steps: seq<Step>, maxAttempts: nat)
    requires x.index in db.scopes && x in AllOpen(db) && Drains(db, steps, maxAttempts)
    requires forall y :: y in OpenKeys(db, x.chunk, x.model, x.index) ==> Wrong(db, y)
    ensures !ConvergesBy(db, steps, maxAttempts, x.model, x.index)
  {
    var inv := (st: Db) => OffCourse(st, x);
    assert x in OpenKeys(db, x.chunk, x.model, x.index);
    forall st: Db, k: Key, outcome: Outcome | Takes(st, k, outcome) && inv(st)
      ensures inv(RunJob(st, k, outcome, maxAttempts))
    {
      WorkKeepsOffCourse(st, k, outcome, maxAttempts, x);
    }
    forall st: Db, elapsed: nat | inv(st) ensures inv(Later(st, elapsed)) {
      TimeKeepsOffCourse(st, elapsed, x);
    }
    ScheduleKeeps(inv, db, steps, maxAttempts);
    var after := Run(db, steps, maxAttempts);
    assert OffCourse(after, x) && OpenKeys(after, x.chunk, x.model, x.index) <= AllOpen(after);
  }

  /** In particular a stale open job next to an active current vector, in any state runs can reach. */
  lemma StaleBesideCurrentVector(db: Db, x: Key, steps: seq<Step>, maxAttempts: nat)
    requires VectorsHaveJobs(db) && x.index in db.scopes && InScope(db, x.index, x.chunk) && Eligible(db, x.chunk)
    requires HasActive(db.vectors, KeyOf(db, x.model, x.index, x.chunk))
    requires x in AllOpen(db) && Drains(db, steps, maxAttempts)
    ensures !ConvergesBy(db, steps, maxAttempts, x.model, x.index)
  {
    forall y | y in OpenKeys(db, x.chunk, x.model, x.index) ensures Wrong(db, y) {
      assert y != KeyOf(db, x.model, x.index, x.chunk);
    }
    OnlyWrongOnesNeverConverge(db, x, steps, maxAttempts);
  }

  // ----- A queue without stale jobs -----

  /** Open jobs of eligible chunks are for chunks in scope at their current hash. */
  ghost predicate QueueIsCurrent(db: Db, model: string, index: string)
    requires index in db.scopes
  {
    forall k :: k in AllOpen(db) && k.model == model && k.index == index && Eligible(db, k.chunk) ==>
      CurrentKey(db, model, index, k) && InScope(db, index, k.chunk)
  }

  lemma PlanKeepsQueueCurrent(db: Db, planned: Db, model: string, index: string, listing: seq<string>)
    requires index in db.scopes && PlannedAs(db, model, index, listing, planned) && QueueIsCurrent(db, model, index)
    requires forall c :: c in listing ==> c in db.chunks && Plannable(db, index, c)
    ensures index in planned.scopes && QueueIsCurrent(planned, model, index)
  {
    forall k | k in AllOpen(planned) && k.model == model && k.index == index && Eligible(planned, k.chunk)
      ensures CurrentKey(planned, model, index, k) && InScope(planned, index, k.chunk)
    {
      assert HasCurrent(planned, k.chunk) == HasCurrent(db, k.chunk);
      if k in db.jobs {
        assert planned.jobs[k] == PlannedJob(db, model, index, listing, k);
        assert Claimable(db.jobs[k]) ==> k in AllOpen(db);
      }
    }
  }

  /**
   From a current queue and no finished job without its vector, the plan succeeds and every schedule long
   enough converges.
   */
  lemma CurrentQueueConverges(db: Db, model: string, index: string, listing: seq<string>, maxAttempts: nat)
    requires maxAttempts >= 1 && Consistent(db, maxAttempts) && OneCurrent(db)
    requires index in db.scopes && model in db.models
    requires IsListing(db, index, listing) && forall c :: c in listing ==> c in db.chunks
    requires forall k: Key :: k.chunk in listing ==> !Clash(db, model, index, k)
    requires QueueIsCurrent(db, model, index)
    ensures Plan(db, model, index, listing).Ok?
    ensures var planned := Plan(db, model, index, listing).value.0;
            forall steps, due :: Schedule(planned, steps, maxAttempts) && AllDueBy(planned, due)
                                 && LateCapacity(planned.clock, steps, due) >= |AllOpen(planned)| ==>
              Drains(planned, steps, maxAttempts) && ConvergesBy(planned, steps, maxAttempts, model, index)
  {
    UnlimitedPlanCovers(db, model, index, listing);
    ListingDistinct(db, index, listing);
    var planned := Plan(db, model, index, listing).value.0;
    PlanIsPlanned(db, planned, model, index, listing, maxAttempts);
    PlanKeepsQueueCurrent(db, planned, model, index, listing);
    forall c, k | k in OpenKeys(planned, c, model, index) ensures !Wrong(planned, k) {
      assert k in AllOpen(planned);
    }
    forall steps, due | Schedule(planned, steps, maxAttempts) && AllDueBy(planned, due)
                        && LateCapacity(planned.clock, steps, due) >= |AllOpen(planned)|
      ensures Drains(planned, steps, maxAttempts) && ConvergesBy(planned, steps, maxAttempts, model, index)
    {
      EnoughPassesDrain(planned, steps, maxAttempts, due);
      EveryScheduleConverges(planned, steps, maxAttempts, model, index);
    }
  }
}
