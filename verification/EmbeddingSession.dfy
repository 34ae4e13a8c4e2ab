/** The planner, the worker and the vector repository over one session, updating rows in place. */
module EmbeddingSession {
  import opened Ordering
  import opened EmbeddingTables
  import opened EmbeddingRuns
  import PlanCounts

  lemma {:induction false} QueueHeadExists(db: Db, keys: set<Key>) returns (head: Key)
    requires keys != {} && keys <= db.jobs.Keys
    ensures head in keys && forall k :: k in keys ==> !QueueBefore(db, k, head)
  {
    StringLessTotal();
    var k :| k in keys;
    head := k;
    if keys != {k} {
      assert keys == {k} + (keys - {k});
      var other := QueueHeadExists(db, keys - {k});
      if QueueBefore(db, other, k) { head := other; }
      if !QueueBefore(db, other, k) {
        forall j | j in keys ensures !QueueBefore(db, j, k) {
          if j != k { QueueOrder(db, j, other, k); }
        }
      } else {
        QueueOrder(db, k, other, k);
      }
    }
  }

  lemma QueueOrder(db: Db, a: Key, b: Key, c: Key)
    ensures !QueueBefore(db, a, b) && !QueueBefore(db, b, c) && b in db.jobs ==> !QueueBefore(db, a, c)
    ensures QueueBefore(db, b, c) ==> !QueueBefore(db, c, b)
  {
    StringLessTotal();
    TotalIsWeak(StringLess);
  }

  lemma {:induction false} ConstantCounts<T>(copies: seq<T>, x: T)
    requires forall i :: 0 <= i < |copies| ==> copies[i] == x
    ensures forall y :: multiset(copies)[y] == if y == x then |copies| else 0
  {
    if copies != [] {
      var last := |copies| - 1;
      ConstantCounts(copies[..last], x);
      assert copies == copies[..last] + [copies[last]];
    }
  }

  /** Copies of the next string go after copies of smaller ones. */
  lemma CopiesListed(sorted: seq<string>, i: nat, ids: seq<string>, n: nat)
    requires i < |sorted| && StrictlyAscending(StringLess, sorted) && Ascending(StringLess, ids)
    requires forall c :: c in ids ==> c in sorted[..i]
    ensures sorted[i] !in sorted[..i] && Ascending(StringLess, ids + seq(n, _ => sorted[i]))
    ensures forall c :: c in ids + seq(n, _ => sorted[i]) ==> c in ids || c == sorted[i]
    ensures forall c :: multiset(ids + seq(n, _ => sorted[i]))[c] == multiset(ids)[c] + if c == sorted[i] then n else 0
  {
    StringLessTotal();
    TotalIsWeak(StringLess);
    var copies := seq(n, _ => sorted[i]);
    ConstantCounts(copies, sorted[i]);
    forall a, b | 0 <= a < |ids| && 0 <= b < n ensures !StringLess(copies[b], ids[a]) {
      assert ids[a] in sorted[..i];
      assert StringLess(ids[a], sorted[i]);
    }
  }

  lemma SwitchedTwice(vectors: map<Key, Vector>, a: set<Key>, b: set<Key>)
    ensures Switched(Switched(vectors, a), b) == Switched(vectors, a + b)
  {}

  /** The part of the sweep that concerns chunks no longer waiting in `rest`. */
  ghost function SweptSo(db: Db, model: string, index: string, rest: set<string>): set<Key>
    requires index in db.scopes
  {
    set k | k in Unembeddable(db, model, index) && k.chunk !in rest
  }

  lemma SweepOfChunk(db: Db, model: string, index: string, rest: set<string>, c: string)
    requires index in db.scopes && c in rest
    ensures var done, after := SweptSo(db, model, index, rest), SweptSo(db, model, index, rest - {c});
            if InScope(db, index, c) && Eligible(db, c) then after == done
            else var stale := StaleKeys(Switched(db.vectors, done), c, model, index, None);
                 after == done + stale && |after| == |done| + |stale|
                 && Switched(db.vectors, after) == Switched(Switched(db.vectors, done), stale)
  {
    var done, after := SweptSo(db, model, index, rest), SweptSo(db, model, index, rest - {c});
    if !(InScope(db, index, c) && Eligible(db, c)) {
      var left := Switched(db.vectors, done);
      assert forall k :: k in left && k.chunk == c ==> left[k] == db.vectors[k];
      var stale := StaleKeys(left, c, model, index, None);
      assert stale == set k | k in Unembeddable(db, model, index) && k.chunk == c;
      assert after == done + stale && done !! stale;
      SwitchedTwice(db.vectors, done, stale);
    } else {
      assert after == done;
    }
  }

  /** What becomes of the tables and the counters once a started job is done with. */
  ghost predicate Finished(db: Db, k: Key, outcome: Outcome, maxAttempts: nat, before: Tally,
                           vectors: map<Key, Vector>, jobs: map<Key, Job>, after: Tally)
    requires k in db.jobs
  {
    if !Runnable(db, k) then
      && vectors == Deactivated(db.vectors, k.chunk, k.model, k.index, None)
      && jobs == db.jobs[k := CancelledJob(db.jobs[k])]
      && after == before.(cancelled := before.cancelled + 1,
                          deactivated := before.deactivated + |StaleKeys(db.vectors, k.chunk, k.model, k.index, None)|)
    else if !RightSized(outcome, db.models[k.model]) then
      && vectors == db.vectors && jobs == db.jobs[k := ErroredJob(db.jobs[k], maxAttempts, db.clock)]
      && after == if db.jobs[k].attempts >= maxAttempts then before.(failed := before.failed + 1)
                  else before.(retrying := before.retrying + 1)
    else
      && vectors == Upserted(db.vectors, k, outcome.values, outcome.dimensions, db.models[k.model].metric)
      && jobs == db.jobs[k := SucceededJob(db.jobs[k])]
      && after == before.(succeeded := before.succeeded + 1)
  }

  /** Starting a job and finishing it is the job's step. */
  lemma StartedThenFinished(db: Db, k: Key, outcome: Outcome, maxAttempts: nat, before: Tally,
                            vectors: map<Key, Vector>, jobs: map<Key, Job>, after: Tally)
    requires k in db.jobs
    requires Finished(db.(jobs := db.jobs[k := Started(db.jobs[k])]), k, outcome, maxAttempts, before, vectors, jobs,
                      after)
    ensures db.(vectors := vectors, jobs := jobs) == RunJob(db, k, outcome, maxAttempts)
    ensures after == TallyJob(db, k, outcome, maxAttempts, before)
  {
    var started := db.(jobs := db.jobs[k := Started(db.jobs[k])]);
    assert HasCurrent(started, k.chunk) == HasCurrent(db, k.chunk);
    assert jobs == db.jobs[k := jobs[k]];
  }

  /** The listing read so far holds each chunk of the first n as often as it has current memberships. */
  ghost predicate ListedTo(db: Db, sorted: seq<string>, n: nat, ids: seq<string>)
    requires n <= |sorted|
  {
    && Ascending(StringLess, ids) && (forall c :: c in ids ==> c in sorted[..n])
    && forall c :: multiset(ids)[c] == if c in sorted[..n] then |CurrentMemberships(db, c)| else 0
  }

  lemma ListedNext(db: Db, sorted: seq<string>, n: nat, ids: seq<string>, more: seq<string>)
    requires n < |sorted| && StrictlyAscending(StringLess, sorted) && ListedTo(db, sorted, n, ids)
    requires more == seq(|CurrentMemberships(db, sorted[n])|, _ => sorted[n])
    ensures ListedTo(db, sorted, n + 1, ids + more)
  {
    assert sorted[..n + 1] == sorted[..n] + [sorted[n]];
    CopiesListed(sorted, n, ids, |more|);
  }

  class Session {
    var chunks: map<string, Chunk>
    var memberships: map<MemberKey, Membership>
    var models: map<string, Model>
    var scopes: map<string, Option<set<string>>>
    var vectors: map<Key, Vector>
    var jobs: map<Key, Job>
    var clock: int

    constructor (db: Db)
      ensures View() == db
    {
      chunks, memberships, models, scopes := db.chunks, db.memberships, db.models, db.scopes;
      vectors, jobs, clock := db.vectors, db.jobs, db.clock;
    }

    function View(): Db
      reads this
    {
      Db(chunks, memberships, models, scopes, vectors, jobs, clock)
    }

    // ----- EmbeddingVectorRepository -----

    method DeactivateStaleVectors(chunk: string, model: string, index: string, keep: Option<string>)
      returns (count: nat)
      modifies this`vectors
      ensures vectors == Deactivated(old(vectors), chunk, model, index, keep)
      ensures count == |StaleKeys(old(vectors), chunk, model, index, keep)|
      ensures keep.None? ==> forall k :: SameTriple(k, chunk, model, index) ==> !HasActive(vectors, k)
      ensures keep.Some? ==>
                forall k :: SameTriple(k, chunk, model, index) && HasActive(vectors, k) ==> k.hash == keep.value
      ensures vectors.Keys == old(vectors.Keys)
    {
      var rows := set k | k in vectors && SameTriple(k, chunk, model, index) && vectors[k].active;
      var stale := set k | k in rows && (keep.None? || k.hash != keep.value);
      assert stale == StaleKeys(vectors, chunk, model, index, keep);
      count := |stale|;
      if stale == {} {
        assert vectors == Switched(vectors, stale);
        return;
      }
      vectors := map k | k in vectors :: if k in stale then vectors[k].(active := false) else vectors[k];
    }

    method UpsertVector(k: Key, values: seq<real>, dimensions: int, metric: string)
      modifies this`vectors
      ensures vectors == Upserted(old(vectors), k, values, dimensions, metric)
      ensures forall j :: HasActive(vectors, j) && SameTriple(j, k.chunk, k.model, k.index) ==> j == k
      ensures HasActive(vectors, k) && vectors[k].values == values
      ensures old(vectors.Keys) <= vectors.Keys
    {
      var _ := DeactivateStaleVectors(k.chunk, k.model, k.index, Some(k.hash));
      if k !in vectors {
        vectors := vectors[k := Vector(k.hash, values, dimensions, metric, true)];
      } else {
        vectors := vectors[k := vectors[k].(inputHash := k.hash, values := values, dimensions := dimensions,
                                            metric := metric, active := true)];
      }
    }

    // ----- Planner -----

    /** One round of the sweep: the chunk's vectors go unless it may still be embedded. */
    method SweepChunk(c: string, model: string, index: string, ghost before: Db, ghost rest: set<string>)
      returns (count: nat)
      requires index in scopes && c in rest && View() == before.(vectors := vectors)
      requires vectors == Switched(before.vectors, SweptSo(before, model, index, rest))
      modifies this`vectors
      ensures vectors == Switched(before.vectors, SweptSo(before, model, index, rest - {c}))
      ensures |SweptSo(before, model, index, rest)| + count == |SweptSo(before, model, index, rest - {c})|
    {
      count := 0;
      SweepOfChunk(before, model, index, rest, c);
      assert HasCurrent(View(), c) == HasCurrent(before, c);
      if c !in chunks || !InScope(View(), index, c) || !Embeddable(chunks[c]) || !HasCurrent(View(), c) {
        count := DeactivateStaleVectors(c, model, index, None);
      }
    }

    method DeactivateUnembeddable(model: string, index: string) returns (count: nat)
      requires index in scopes
      modifies this`vectors
      ensures vectors == Switched(old(vectors), Unembeddable(old(View()), model, index))
      ensures count == |Unembeddable(old(View()), model, index)|
    {
      ghost var before := View();
      var active := set k | k in vectors && k.model == model && k.index == index && vectors[k].active :: k.chunk;
      var rest := active;
      ghost var done := SweptSo(before, model, index, active);
      count := 0;
      assert done == {} && vectors == Switched(before.vectors, {});
      while rest != {}
        invariant done == SweptSo(before, model, index, rest)
        invariant vectors == Switched(before.vectors, done)
        invariant count == |done|
        decreases |rest|
      {
        var c :| c in rest;
        var n := SweepChunk(c, model, index, before, rest);
        rest, count := rest - {c}, count + n;
        done := SweptSo(before, model, index, rest);
      }
      assert done == Unembeddable(before, model, index);
    }

    method SelectPlannable(index: string) returns (ids: seq<string>)
      requires index in scopes
      ensures IsListing(View(), index, ids)
      ensures forall c :: c in ids ==> c in chunks
    {
      var sorted := SortedStrings(set c | c in chunks && Plannable(View(), index, c));
      ids := [];
      for i := 0 to |sorted|
        invariant ListedTo(View(), sorted, i, ids)
      {
        var more := seq(|CurrentMemberships(View(), sorted[i])|, _ => sorted[i]);
        ListedNext(View(), sorted, i, ids, more);
        ids := ids + more;
      }
      assert sorted[..|sorted|] == sorted;
    }

    /** `session.flush()` on the pending job inserts. */
    method FlushJobs(pending: seq<Key>) returns (duplicate: Option<Key>)
      modifies this`jobs
      ensures Flushed(old(jobs), pending, clock) ==
              if duplicate.Some? then Err(DuplicateJob(duplicate.value)) else Ok(jobs)
    {
      for i := 0 to |pending|
        invariant Flushed(old(jobs), pending, clock) == Flushed(jobs, pending[i..], clock)
      {
        if pending[i] in jobs { return Some(pending[i]); }
        jobs := jobs[pending[i] := NewJob(clock)];
        assert pending[i..][1..] == pending[i + 1..];
      }
      return None;
    }

    /** One round of the planner's loop; `flushed` reports a duplicate met by the flush after a reset. */
    method PlanChunk(model: string, index: string, c: string, ghost before: Db, pending: seq<Key>,
                     created: nat, skipped: nat, deactivated: nat)
      returns (r: Result<(seq<Key>, nat, nat, nat), PlanError>)
      requires c in chunks && View() == before.(vectors := vectors, jobs := jobs)
      modifies this`vectors, this`jobs
      ensures View() == before.(vectors := vectors, jobs := jobs)
      ensures var s := PlanState(old(vectors), old(jobs), pending, created, skipped, deactivated);
              match r
              case Ok((p, n, k, d)) => PlanStep(before, model, index, s, c) == Ok(PlanState(vectors, jobs, p, n, k, d))
              case Err(error) => PlanStep(before, model, index, s, c) == Err(error)
    {
      var k := Key(c, model, index, chunks[c].hash);
      assert HasCurrent(View(), c) == HasCurrent(before, c);
      if !Embeddable(chunks[c]) || !HasCurrent(View(), c) {
        var n := DeactivateStaleVectors(c, model, index, None);
        return Ok((pending, created, skipped + 1, deactivated + n));
      }
      if HasActive(vectors, k) { return Ok((pending, created, skipped, deactivated)); }
      if k in jobs && Open(jobs[k]) { return Ok((pending, created, skipped, deactivated)); }
      if k in jobs && jobs[k].status == Failed {
        jobs := jobs[k := jobs[k].(status := Pending, attempts := 0, nextRetry := None)];
        var duplicate := FlushJobs(pending);
        if duplicate.Some? { return Err(DuplicateJob(duplicate.value)); }
        return Ok(([], created + 1, skipped, deactivated));
      }
      return Ok((pending + [k], created + 1, skipped, deactivated));
    }

    /** The planner's loop and its closing flush. */
    method PlanListed(model: string, index: string, ids: seq<string>) returns (r: Result<PlanSummary, PlanError>)
      requires index in scopes && forall c :: c in ids ==> c in chunks
      modifies this`vectors, this`jobs
      ensures var planned := Plan(old(View()), model, index, ids);
              match planned
              case Ok((after, summary)) => r == Ok(summary) && View() == after
              case Err(error) => r == Err(error)
    {
      ghost var before := View();
      var deactivated := DeactivateUnembeddable(model, index);
      var created, skipped, pending := 0, 0, [];
      assert ids[..0] == [];
      for i := 0 to |ids|
        invariant View() == before.(vectors := vectors, jobs := jobs)
        invariant PlanRows(before, model, index, ids[..i])
                  == Ok(PlanState(vectors, jobs, pending, created, skipped, deactivated))
      {
        assert ids[i] in ids;
        OneMoreRow(before, model, index, ids, i);
        var step := PlanChunk(model, index, ids[i], before, pending, created, skipped, deactivated);
        if step.Err? {
          PlanRowsErrorStays(before, model, index, ids, i + 1);
          return Err(step.error);
        }
        pending, created, skipped, deactivated := step.value.0, step.value.1, step.value.2, step.value.3;
      }
      assert ids[..|ids|] == ids;
      var duplicate := FlushJobs(pending);
      r := if duplicate.Some? then Err(DuplicateJob(duplicate.value))
          else Ok(PlanSummary(created, skipped, deactivated));
    }

    /** A raised error ends the transaction, so the tables go back to what they were. */
    method CreateJobs(model: string, index: string, limit: Option<nat>)
      returns (r: Result<PlanSummary, PlanError>, ghost listing: seq<string>)
      modifies this`vectors, this`jobs
      ensures index in scopes ==> IsListing(old(View()), index, listing)
      ensures forall c :: c in Limited(listing, limit) ==> c in old(chunks)
      ensures var planned := Plan(old(View()), model, index, Limited(listing, limit));
              match planned
              case Ok((after, summary)) => r == Ok(summary) && View() == after
              case Err(error) => r == Err(error) && View() == old(View())
      ensures r.Ok? ==> PlanCounts.Tells(old(View()), Limited(listing, limit), View(), r.value)
    {
      if index !in scopes { return Err(UnknownIndex), []; }
      var savedVectors, savedJobs := vectors, jobs;
      var selected := SelectPlannable(index);
      listing := selected;
      var ids := Limited(selected, limit);
      assert forall c :: c in ids ==> c in selected;
      PlanCounts.SummaryTells(View(), model, index, ids);
      r := PlanListed(model, index, ids);
      if r.Err? { vectors, jobs := savedVectors, savedJobs; }
    }

    // ----- Worker -----

    method ClaimJobs(batch: nat) returns (claimed: seq<Key>)
      ensures IsClaim(View(), batch, claimed)
      ensures forall k :: k in claimed ==> k in jobs
    {
      var due := set k | k in jobs && Due(jobs[k], clock);
      var rest := due;
      claimed := [];
      while |claimed| < batch && rest != {}
        invariant rest <= due && due == DueKeys(View())
        invariant forall k :: k in due <==> k in rest || k in claimed
        invariant Distinct(claimed) && |claimed| + |rest| == |due| && |claimed| <= batch
        invariant forall i, k :: 0 <= i < |claimed| && k in rest ==>
                    k != claimed[i] && !QueueBefore(View(), k, claimed[i])
        invariant forall i, j :: 0 <= i < j < |claimed| ==> !QueueBefore(View(), claimed[j], claimed[i])
        decreases |rest|
      {
        ghost var head := QueueHeadExists(View(), rest);
        var next :| next in rest && forall k :: k in rest ==> !QueueBefore(View(), k, next);
        claimed := claimed + [next];
        rest := rest - {next};
      }
    }

    method CancelJob(k: Key)
      requires k in jobs
      modifies this`jobs
      ensures jobs == old(jobs)[k := CancelledJob(old(jobs)[k])]
    {
      jobs := jobs[k := jobs[k].(status := Cancelled, nextRetry := None)];
    }

    method RecordJobError(k: Key, maxAttempts: nat)
      requires k in jobs
      modifies this`jobs
      ensures jobs == old(jobs)[k := ErroredJob(old(jobs)[k], maxAttempts, clock)]
      ensures jobs[k].nextRetry.Some? <==> jobs[k].status == Retrying
    {
      if jobs[k].attempts >= maxAttempts {
        jobs := jobs[k := jobs[k].(status := Failed, nextRetry := None)];
      } else {
        jobs := jobs[k := jobs[k].(status := Retrying, nextRetry := Some(clock + RETRY_DELAY))];
      }
    }

    method CancelWork(k: Key, before: Tally) returns (tally: Tally)
      requires k in jobs
      modifies this`vectors, this`jobs
      ensures vectors == Deactivated(old(vectors), k.chunk, k.model, k.index, None)
      ensures jobs == old(jobs)[k := CancelledJob(old(jobs)[k])]
      ensures tally == before.(cancelled := before.cancelled + 1,
                               deactivated :=
                                 before.deactivated + |StaleKeys(old(vectors), k.chunk, k.model, k.index, None)|)
    {
      var n := DeactivateStaleVectors(k.chunk, k.model, k.index, None);
      CancelJob(k);
      tally := before.(cancelled := before.cancelled + 1, deactivated := before.deactivated + n);
    }

    /** Use the provider's answer for a job whose chunk is still the one it was made for. */
    method UseOutcome(k: Key, outcome: Outcome, model: Model, maxAttempts: nat, before: Tally) returns (tally: Tally)
      requires k in jobs
      modifies this`vectors, this`jobs
      ensures RightSized(outcome, model) ==>
                && vectors == Upserted(old(vectors), k, outcome.values, outcome.dimensions, model.metric)
                && jobs == old(jobs)[k := SucceededJob(old(jobs)[k])]
                && tally == before.(succeeded := before.succeeded + 1)
      ensures !RightSized(outcome, model) ==>
                && vectors == old(vectors)
                && jobs == old(jobs)[k := ErroredJob(old(jobs)[k], maxAttempts, clock)]
                && tally == if old(jobs)[k].attempts >= maxAttempts then before.(failed := before.failed + 1)
                            else before.(retrying := before.retrying + 1)
    {
      if outcome.Raised? || outcome.dimensions != model.dimensions || |outcome.values| != model.dimensions {
        RecordJobError(k, maxAttempts);
        tally := if jobs[k].status == Retrying then before.(retrying := before.retrying + 1)
                 else before.(failed := before.failed + 1);
      } else {
        UpsertVector(k, outcome.values, outcome.dimensions, model.metric);
        jobs := jobs[k := jobs[k].(status := Succeeded, nextRetry := None)];
        tally := before.(succeeded := before.succeeded + 1);
      }
    }

    /** Embed or cancel a job once it is started. */
    method FinishJob(k: Key, outcome: Outcome, maxAttempts: nat, before: Tally) returns (tally: Tally)
      requires k in jobs
      modifies this`vectors, this`jobs
      ensures Finished(old(View()), k, outcome, maxAttempts, before, vectors, jobs, tally)
    {
      if k.chunk !in chunks || k.model !in models || !Embeddable(chunks[k.chunk]) || !HasCurrent(View(), k.chunk) {
        tally := CancelWork(k, before);
      } else if chunks[k.chunk].hash != k.hash {
        tally := CancelWork(k, before);
      } else {
        tally := UseOutcome(k, outcome, models[k.model], maxAttempts, before);
      }
    }

    /** The body of the worker's loop for one claimed job. */
    method WorkJob(k: Key, outcome: Outcome, maxAttempts: nat, before: Tally) returns (tally: Tally)
      requires k in jobs
      modifies this`vectors, this`jobs
      ensures View() == RunJob(old(View()), k, outcome, maxAttempts)
      ensures tally == TallyJob(old(View()), k, outcome, maxAttempts, before)
    {
      ghost var start := View();
      jobs := jobs[k := jobs[k].(status := Running, attempts := jobs[k].attempts + 1)];
      assert jobs == start.jobs[k := Started(start.jobs[k])];
      tally := FinishJob(k, outcome, maxAttempts, before);
      StartedThenFinished(start, k, outcome, maxAttempts, before, vectors, jobs, tally);
    }

    method RunOnce(provider: nat -> Outcome, batch: nat, maxAttempts: nat)
      returns (claimed: seq<Key>, tally: Tally)
      modifies this`vectors, this`jobs
      ensures IsClaim(old(View()), batch, claimed) && (forall k :: k in claimed ==> k in old(jobs))
      ensures Progress(View(), tally) == Pass(old(View()), claimed, provider, maxAttempts)
    {
      ghost var start := View();
      claimed := ClaimJobs(batch);
      tally := NO_TALLY;
      for i := 0 to |claimed|
        invariant Progress(View(), tally) == PassTo(start, claimed, provider, maxAttempts, i)
        invariant jobs.Keys == start.jobs.Keys
      {
        assert claimed[i] in claimed;
        tally := WorkJob(claimed[i], provider(i), maxAttempts, tally);
      }
    }
  }

  lemma OneMoreRow(db: Db, model: string, index: string, ids: seq<string>, n: nat)
    requires index in db.scopes && (forall c :: c in ids ==> c in db.chunks) && n < |ids|
    requires PlanRows(db, model, index, ids[..n]).Ok?
    ensures PlanRows(db, model, index, ids[..n + 1])
            == PlanStep(db, model, index, PlanRows(db, model, index, ids[..n]).value, ids[n])
  {
    assert ids[..n + 1][..n] == ids[..n] && ids[..n + 1][n] == ids[n];
  }

  lemma {:induction false} PlanRowsErrorStays(db: Db, model: string, index: string, ids: seq<string>, n: nat)
    requires index in db.scopes && (forall c :: c in ids ==> c in db.chunks) && n <= |ids|
    requires PlanRows(db, model, index, ids[..n]).Err?
    ensures PlanRows(db, model, index, ids) == PlanRows(db, model, index, ids[..n])
  {
    if n == |ids| {
      assert ids[..n] == ids;
    } else {
      assert ids[..|ids| - 1][..n] == ids[..n];
      PlanRowsErrorStays(db, model, index, ids[..|ids| - 1], n);
    }
  }
}
