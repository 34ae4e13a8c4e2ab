/** Schedules built on purpose: one that empties any queue, and one in which a chosen job is not overtaken. */
module EmbeddingOverruns {
  import opened Ordering
  import opened EmbeddingTables
  import opened EmbeddingRuns
  import opened EmbeddingPlanning
  import opened EmbeddingSchedules

  // ----- Claims -----

  datatype Turn = Turn(created: int, chunk: string, favoured: bool)

  /** Queue order, ties going against the favoured job. */
  predicate TurnLess(a: Turn, b: Turn) {
    || a.created < b.created
    || (a.created == b.created && StringLess(a.chunk, b.chunk))
    || (a.created == b.created && a.chunk == b.chunk && !a.favoured && b.favoured)
  }

  lemma TurnOrderWeak()
    ensures StrictWeakOrder(TurnLess)
  {
    StringLessTotal();
    TotalIsWeak(TurnLess);
  }

  function TurnOf(db: Db, last: Key, k: Key): Turn {
    Turn(if k in db.jobs then db.jobs[k].created else 0, k.chunk, k == last)
  }

  /** A claim of everything due in which `last` comes after whatever it may come after. */
  lemma ClaimAll(db: Db, last: Key) returns (claimed: seq<Key>)
    ensures IsClaim(db, |DueKeys(db)|, claimed) && forall k :: k in claimed <==> k in DueKeys(db)
    ensures forall i, j :: 0 <= i < j < |claimed| && claimed[i] == last ==> QueueBefore(db, last, claimed[j])
  {
    var listing := SetListing(DueKeys(db));
    var less := (a: Key, b: Key) => TurnLess(TurnOf(db, last, a), TurnOf(db, last, b));
    TurnOrderWeak();
    WeakByKey(TurnLess, k => TurnOf(db, last, k), less);
    claimed := Sort(less, listing);
    SortPermutes(less, listing);
    SortAscends(less, listing);
    PermutedDistinct(listing, claimed);
    forall i, j | 0 <= i < j < |claimed|
      ensures !QueueBefore(db, claimed[j], claimed[i])
      ensures claimed[i] == last ==> QueueBefore(db, last, claimed[j])
    {
      assert claimed[i] in claimed && claimed[j] in claimed && claimed[i] != claimed[j];
      assert !less(claimed[j], claimed[i]);
      StringLessTotal();
    }
  }

  /** A provider that answers every claimed job. */
  lemma AnsweringProvider(db: Db, claimed: seq<Key>) returns (provider: nat -> Outcome)
    ensures Answers(db, claimed, provider)
  {
    provider := (i: nat) =>
      if i < |claimed| && claimed[i].model in db.models then
        var d := db.models[claimed[i].model].dimensions;
        Returned(seq(d, _ => 0.0), d)
      else Raised;
  }

  // ----- Waiting, then one pass over everything due -----

  /** Wait, then work all that is due, `last` as late as the queue order allows. */
  lemma WaitAndWork(db: Db, elapsed: nat, last: Key, maxAttempts: nat)
    returns (steps: seq<Step>, claimed: seq<Key>, after: Db)
    ensures Schedule(db, steps, maxAttempts) && after == Run(db, steps, maxAttempts)
    ensures IsClaim(Later(db, elapsed), |DueKeys(Later(db, elapsed))|, claimed)
    ensures forall k :: k in claimed <==> k in DueKeys(Later(db, elapsed))
    ensures forall i, j :: 0 <= i < j < |claimed| && claimed[i] == last ==> QueueBefore(db, last, claimed[j])
    ensures RowsWorked(Later(db, elapsed), claimed, after, |claimed|)
    ensures exists provider ::
              Answers(db, claimed, provider) && after == Pass(Later(db, elapsed), claimed, provider, maxAttempts).db
  {
    var ready := Later(db, elapsed);
    claimed := ClaimAll(ready, last);
    var provider := AnsweringProvider(ready, claimed);
    var batch := |DueKeys(ready)|;
    steps := [Ticking(elapsed), Working(batch, claimed, provider)];
    after := Pass(ready, claimed, provider, maxAttempts).db;
    assert Answers(db, claimed, provider);
    WaitThenPass(db, elapsed, batch, claimed, provider, maxAttempts);
    PassKeepsInvariant((st: Db) => true, ready, batch, claimed, provider, maxAttempts);
  }

  lemma WaitThenPass(db: Db, elapsed: nat, batch: nat, claimed: seq<Key>, provider: nat -> Outcome, maxAttempts: nat)
    requires IsClaim(Later(db, elapsed), batch, claimed) && Answers(db, claimed, provider)
    ensures var steps := [Ticking(elapsed), Working(batch, claimed, provider)];
            && Schedule(db, steps, maxAttempts)
            && Run(db, steps, maxAttempts) == Pass(Later(db, elapsed), claimed, provider, maxAttempts).db
  {
    var steps := [Ticking(elapsed), Working(batch, claimed, provider)];
    assert Apply(db, steps[0], maxAttempts) == Later(db, elapsed);
    RunTwo(db, steps, maxAttempts);
    assert forall i :: 0 <= i < |steps| ==> WorkerStep(db, steps[i]);
  }

  lemma RunTwo(db: Db, steps: seq<Step>, maxAttempts: nat)
    requires |steps| == 2 && ValidStep(db, steps[0]) && ValidStep(Apply(db, steps[0], maxAttempts), steps[1])
    ensures ValidRun(db, steps, maxAttempts)
    ensures Run(db, steps, maxAttempts) == Apply(Apply(db, steps[0], maxAttempts), steps[1], maxAttempts)
  {
    RunOne(Apply(db, steps[0], maxAttempts), steps[1..], maxAttempts);
  }

  lemma RunOne(db: Db, steps: seq<Step>, maxAttempts: nat)
    requires |steps| == 1 && ValidStep(db, steps[0])
    ensures ValidRun(db, steps, maxAttempts) && Run(db, steps, maxAttempts) == Apply(db, steps[0], maxAttempts)
  {
    assert steps[1..] == [];
  }

  lemma {:induction false} SchedulesJoin(db: Db, first: seq<Step>, second: seq<Step>, maxAttempts: nat)
    requires Schedule(db, first, maxAttempts) && Schedule(Run(db, first, maxAttempts), second, maxAttempts)
    ensures Schedule(db, first + second, maxAttempts)
    ensures Run(db, first + second, maxAttempts) == Run(Run(db, first, maxAttempts), second, maxAttempts)
    decreases |first|
  {
    if first == [] {
      assert first + second == second;
    } else {
      var inv := (st: Db) => true;
      var next := StepOfSchedule(inv, db, first, maxAttempts);
      SchedulesJoin(next, first[1..], second, maxAttempts);
      assert (first + second)[1..] == first[1..] + second && (first + second)[0] == first[0];
      forall i | 0 <= i < |first + second| ensures WorkerStep(db, (first + second)[i]) {
        if i > 0 { assert WorkerStep(next, (first[1..] + second)[i - 1]); }
      }
    }
  }

  lemma InClaim(claimed: seq<Key>, k: Key)
    ensures k in claimed <==> WorkedBefore(claimed, |claimed|, k)
  {}

  // ----- The last job of a chunk worked in a pass -----

  /** Position of the last claimed job of the chunk, model and index. */
  ghost predicate LastAt(claimed: seq<Key>, x: Key, p: nat) {
    && p < |claimed| && SameTriple(claimed[p], x.chunk, x.model, x.index)
    && forall i :: p < i < |claimed| ==> !SameTriple(claimed[i], x.chunk, x.model, x.index)
  }

  lemma LastExists(claimed: seq<Key>, x: Key) returns (p: nat)
    requires x in claimed
    ensures LastAt(claimed, x, p)
  {
    p := |claimed| - 1;
    while !SameTriple(claimed[p], x.chunk, x.model, x.index)
      invariant p < |claimed| && forall i :: p < i < |claimed| ==> !SameTriple(claimed[i], x.chunk, x.model, x.index)
      decreases p
    {
      assert p > 0 by { assert exists i :: 0 <= i < |claimed| && claimed[i] == x; }
      p := p - 1;
    }
  }

  ghost predicate SettledBy(db: Db, after: Db, x: Key, last: Key, p: nat, i: nat) {
    SameRest(db, after) && (i > p ==> ActiveHashes(after, x.chunk, x.model, x.index) == Settled(db, last))
  }

  /** What is active at the end of a pass is what the last of its jobs for the chunk settled. */
  lemma LastOneSettles(db: Db, batch: nat, claimed: seq<Key>, provider: nat -> Outcome, maxAttempts: nat, x: Key,
                       p: nat)
    requires IsClaim(db, batch, claimed) && Answers(db, claimed, provider) && LastAt(claimed, x, p)
    ensures ActiveHashes(Pass(db, claimed, provider, maxAttempts).db, x.chunk, x.model, x.index)
              == Settled(db, claimed[p])
  {
    ClaimIsClaimable(db, batch, claimed);
    var last := claimed[p];
    var inv := (s: Progress, i: nat) => SettledBy(db, s.db, x, last, p, i);
    forall s: Progress, i: nat | i < |claimed| && StillClaimed(db, claimed, s, i) && inv(s, i)
      ensures inv(WorkNext(s, claimed[i], provider(i), maxAttempts), i + 1)
    {
      StillClaimedNext(db, claimed, s, i, provider(i), maxAttempts);
      assert Obliging(db, claimed[i], provider(i)) && Obliging(s.db, claimed[i], provider(i));
      RunJobSettles(s.db, claimed[i], provider(i), maxAttempts);
      RunnableSame(db, s.db, claimed[i]);
    }
    PassKeeps(inv, db, claimed, provider, maxAttempts, |claimed|);
  }

  lemma RunnableSame(db: Db, after: Db, k: Key)
    requires SameRest(db, after)
    ensures Runnable(after, k) == Runnable(db, k) && Settled(after, k) == Settled(db, k)
  {
    assert HasCurrent(after, k.chunk) == HasCurrent(db, k.chunk);
  }

  // ----- A job that is not overtaken -----

  /** Jobs of x's chunk, model and index that would settle it otherwise. */
  predicate Rival(db: Db, x: Key, y: Key) {
    SameTriple(y, x.chunk, x.model, x.index) && (Runnable(db, y) <==> !Runnable(db, x))
  }

  /** Wait until just before x is due and work the rest: whatever rival is left is no younger than x. */
  lemma HoldBack(db: Db, x: Key, maxAttempts: nat) returns (steps: seq<Step>, after: Db)
    requires x in AllOpen(db)
    requires forall y :: y in AllOpen(db) && Rival(db, x, y) ==> !GoesBefore(db, x, y)
    ensures Schedule(db, steps, maxAttempts) && after == Run(db, steps, maxAttempts) && SameRest(db, after)
    ensures x in AllOpen(after)
    ensures forall y :: y in AllOpen(after) && Rival(db, x, y) ==> after.jobs[y].created <= after.jobs[x].created
  {
    if Due(db.jobs[x], db.clock) {
      steps, after := [], db;
    } else {
      var elapsed := db.jobs[x].nextRetry.value - 1 - db.clock;
      var claimed;
      steps, claimed, after := WaitAndWork(db, elapsed, x, maxAttempts);
      var ready := Later(db, elapsed);
      assert x !in DueKeys(ready) && !WorkedBefore(claimed, |claimed|, x);
      forall y | y in AllOpen(after) && Rival(db, x, y) ensures after.jobs[y].created <= after.jobs[x].created {
        InClaim(claimed, y);
        assert y in AllOpen(db) && y !in DueKeys(ready);
      }
    }
  }

  lemma Latest(db: Db) returns (due: int)
    ensures due >= db.clock && forall k :: k in AllOpen(db) ==> Due(db.jobs[k], due)
  {
    due := LatestOf(db, AllOpen(db));
  }

  lemma {:induction false} LatestOf(db: Db, keys: set<Key>) returns (due: int)
    requires keys <= AllOpen(db)
    ensures due >= db.clock && forall k :: k in keys ==> Due(db.jobs[k], due)
  {
    due := db.clock;
    if keys != {} {
      var k :| k in keys;
      due := LatestOf(db, keys - {k});
      if db.jobs[k].nextRetry.Some? && db.jobs[k].nextRetry.value > due { due := db.jobs[k].nextRetry.value; }
    }
  }

  /** Wait until all is due and work it all; x, or one that settles alike, comes last for its chunk. */
  lemma WorkAll(db: Db, x: Key, maxAttempts: nat) returns (steps: seq<Step>, after: Db, z: Key)
    requires x in AllOpen(db)
    requires forall y :: y in AllOpen(db) && Rival(db, x, y) ==> db.jobs[y].created <= db.jobs[x].created
    ensures Schedule(db, steps, maxAttempts) && after == Run(db, steps, maxAttempts) && AllOpen(after) == {}
    ensures SameTriple(z, x.chunk, x.model, x.index) && (Runnable(db, z) <==> Runnable(db, x))
    ensures ActiveHashes(after, x.chunk, x.model, x.index) == Settled(db, z)
  {
    var due := Latest(db);
    var claimed;
    var ready := Later(db, due - db.clock);
    steps, claimed, after := WaitAndWork(db, due - db.clock, x, maxAttempts);
    assert DueKeys(ready) == AllOpen(db);
    AllWorked(ready, claimed, after);
    var provider :| Answers(db, claimed, provider) && after == Pass(ready, claimed, provider, maxAttempts).db;
    z := LastLike(db, ready, claimed, provider, x, maxAttempts);
  }

  lemma AllWorked(db: Db, claimed: seq<Key>, after: Db)
    requires RowsWorked(db, claimed, after, |claimed|) && forall k :: k in AllOpen(db) ==> k in claimed
    ensures AllOpen(after) == {}
  {
    forall k ensures k !in AllOpen(after) { InClaim(claimed, k); }
  }

  lemma LastLike(db: Db, ready: Db, claimed: seq<Key>, provider: nat -> Outcome, x: Key, maxAttempts: nat)
    returns (z: Key)
    requires SameRest(db, ready) && db.jobs == ready.jobs && x in claimed
               && (forall k :: k in claimed ==> k in AllOpen(db))
    requires IsClaim(ready, |DueKeys(ready)|, claimed) && Answers(db, claimed, provider)
    requires forall i, j :: 0 <= i < j < |claimed| && claimed[i] == x ==> QueueBefore(db, x, claimed[j])
    requires forall y :: y in AllOpen(db) && Rival(db, x, y) ==> db.jobs[y].created <= db.jobs[x].created
    ensures SameTriple(z, x.chunk, x.model, x.index) && (Runnable(db, z) <==> Runnable(db, x))
    ensures ActiveHashes(Pass(ready, claimed, provider, maxAttempts).db, x.chunk, x.model, x.index) == Settled(db, z)
  {
    var p := LastExists(claimed, x);
    z := claimed[p];
    RivalNotLast(db, claimed, x, p);
    LastOneSettles(ready, |DueKeys(ready)|, claimed, provider, maxAttempts, x, p);
    RunnableSame(db, ready, z);
  }

  lemma RivalNotLast(db: Db, claimed: seq<Key>, x: Key, p: nat)
    requires LastAt(claimed, x, p) && x in claimed && forall k :: k in claimed ==> k in AllOpen(db)
    requires forall i, j :: 0 <= i < j < |claimed| && claimed[i] == x ==> QueueBefore(db, x, claimed[j])
    requires forall y :: y in AllOpen(db) && Rival(db, x, y) ==> db.jobs[y].created <= db.jobs[x].created
    ensures !Rival(db, x, claimed[p])
  {
    var i :| 0 <= i < |claimed| && claimed[i] == x;
    assert claimed[p] in claimed;
    StringLessTotal();
    assert i < p ==> QueueBefore(db, x, claimed[p]);
  }

  /** If no rival is bound to come after x, some schedule empties the queue with x, or one like it, last. */
  lemma Overrun(db: Db, x: Key, maxAttempts: nat) returns (steps: seq<Step>, after: Db, z: Key)
    requires x in AllOpen(db)
    requires forall y :: y in AllOpen(db) && Rival(db, x, y) ==> !GoesBefore(db, x, y)
    ensures Schedule(db, steps, maxAttempts) && after == Run(db, steps, maxAttempts) && AllOpen(after) == {}
    ensures SameRest(db, after)
    ensures SameTriple(z, x.chunk, x.model, x.index) && (Runnable(db, z) <==> Runnable(db, x))
    ensures ActiveHashes(after, x.chunk, x.model, x.index) == Settled(db, z)
  {
    var first, mid := HoldBack(db, x, maxAttempts);
    forall y ensures Rival(mid, x, y) == Rival(db, x, y) {
      RunnableSame(db, mid, x);
      RunnableSame(db, mid, y);
    }
    var second;
    second, after, z := WorkAll(mid, x, maxAttempts);
    SchedulesJoin(db, first, second, maxAttempts);
    steps := first + second;
    RunnableSame(db, mid, x);
    RunnableSame(db, mid, z);
    ScheduleKeeps((st: Db) => true, db, steps, maxAttempts);
  }

  // ----- Enough passes -----

  /** The jobs the passes can take from the time on when everything is due. */
  function LateCapacity(clock: int, steps: seq<Step>, due: int): nat
    decreases |steps|
  {
    if steps == [] then 0
    else match steps[0]
      case Ticking(elapsed) => LateCapacity(clock + elapsed, steps[1..], due)
      case Working(batch, _, _) => (if due <= clock then batch else 0) + LateCapacity(clock, steps[1..], due)
      case _ => LateCapacity(clock, steps[1..], due)
  }

  ghost predicate AllDueBy(db: Db, due: int) { forall k :: k in AllOpen(db) ==> Due(db.jobs[k], due) }

  lemma DifferenceSize<T>(a: set<T>, b: set<T>)
    requires b <= a
    ensures |a - b| == |a| - |b|
  {
    assert a == b + (a - b);
  }

  lemma PassShrinksQueue(db: Db, batch: nat, claimed: seq<Key>, after: Db, due: int)
    requires IsClaim(db, batch, claimed) && RowsWorked(db, claimed, after, |claimed|) && AllDueBy(db, due)
    ensures AllDueBy(after, due) && |AllOpen(after)| <= |AllOpen(db)|
    ensures due <= db.clock ==> |AllOpen(after)| == if batch < |AllOpen(db)| then |AllOpen(db)| - batch else 0
  {
    var done := set k | k in claimed;
    OpenAfterPass(db, batch, claimed, after);
    DistinctCardinality(claimed);
    DifferenceSize(AllOpen(db), done);
    if due <= db.clock { assert AllOpen(db) == DueKeys(db); }
  }

  lemma OpenAfterPass(db: Db, batch: nat, claimed: seq<Key>, after: Db)
    requires IsClaim(db, batch, claimed) && RowsWorked(db, claimed, after, |claimed|)
    ensures (set k | k in claimed) <= AllOpen(db) && AllOpen(after) == AllOpen(db) - set k | k in claimed
    ensures forall k :: k in AllOpen(after) ==> after.jobs[k] == db.jobs[k]
  {
    assert forall k :: k in claimed ==> k in DueKeys(db);
    forall k ensures k in AllOpen(after) <==> k in AllOpen(db) && k !in claimed { InClaim(claimed, k); }
  }

  lemma StepLeavesEnough(db: Db, steps: seq<Step>, maxAttempts: nat, due: int) returns (next: Db)
    requires steps != [] && Schedule(db, steps, maxAttempts) && AllDueBy(db, due)
    requires LateCapacity(db.clock, steps, due) >= |AllOpen(db)|
    ensures next == Apply(db, steps[0], maxAttempts) && Schedule(next, steps[1..], maxAttempts)
    ensures AllDueBy(next, due) && LateCapacity(next.clock, steps[1..], due) >= |AllOpen(next)|
  {
    var inv := (st: Db) => true;
    next := StepOfSchedule(inv, db, steps, maxAttempts);
    assert WorkerStep(db, steps[0]);
    match steps[0] {
      case Working(batch, claimed, provider) =>
        PassKeepsInvariant(inv, db, batch, claimed, provider, maxAttempts);
        PassShrinksQueue(db, batch, claimed, next, due);
      case Ticking(elapsed) =>
        assert next == Later(db, elapsed);
        assert AllOpen(next) == AllOpen(db);
      case _ =>
    }
  }

  /** Passes that together can take the whole queue once everything is due empty it. */
  lemma {:induction false} EnoughPassesDrain(db: Db, steps: seq<Step>, maxAttempts: nat, due: int)
    requires Schedule(db, steps, maxAttempts) && AllDueBy(db, due)
               && LateCapacity(db.clock, steps, due) >= |AllOpen(db)|
    ensures AllOpen(Run(db, steps, maxAttempts)) == {}
    decreases |steps|
  {
    if steps != [] {
      var next := StepLeavesEnough(db, steps, maxAttempts, due);
      EnoughPassesDrain(next, steps[1..], maxAttempts, due);
    }
  }
}
