/** What one planner call achieves, and exactly when its insert collides with the unique job key. */
module EmbeddingPlanning {
  import opened Ordering
  import opened EmbeddingTables
  import opened EmbeddingRuns

  /** The chunk's current key, the only one the planner looks at. */
  ghost predicate CurrentKey(db: Db, model: string, index: string, k: Key) {
    k.chunk in db.chunks && k == KeyOf(db, model, index, k.chunk)
  }

  ghost predicate LacksVector(db: Db, model: string, index: string, k: Key) {
    CurrentKey(db, model, index, k) && Eligible(db, k.chunk) && !HasActive(db.vectors, k)
  }

  /** The planner inserts here, whether or not a finished job of the same key is in the table. */
  ghost predicate InsertKey(db: Db, model: string, index: string, k: Key) {
    LacksVector(db, model, index, k) && (k in db.jobs ==> Done(db.jobs[k]))
  }

  ghost predicate ResetKey(db: Db, model: string, index: string, k: Key) {
    LacksVector(db, model, index, k) && k in db.jobs && db.jobs[k].status == Failed
  }

  ghost predicate Clash(db: Db, model: string, index: string, k: Key) {
    InsertKey(db, model, index, k) && k in db.jobs
  }

  ghost function PlannedJob(db: Db, model: string, index: string, ids: seq<string>, k: Key): Job
    requires k in db.jobs
  {
    if k.chunk in ids && ResetKey(db, model, index, k) then ResetJob(db.jobs[k]) else db.jobs[k]
  }

  ghost predicate Shape(db: Db, model: string, index: string, ids: seq<string>, s: PlanState)
    requires index in db.scopes
  {
    && s.vectors == PlanStart(db, model, index).vectors
    && Distinct(s.pending)
    && (forall k :: k in s.pending ==>
         k.chunk in ids && InsertKey(db, model, index, k) && (k in s.jobs ==> k in db.jobs))
    && (forall k :: k in db.jobs ==> k in s.jobs && s.jobs[k] == PlannedJob(db, model, index, ids, k))
    && (forall k :: k in s.jobs && k !in db.jobs ==>
          k.chunk in ids && InsertKey(db, model, index, k) && s.jobs[k] == NewJob(db.clock))
    && (forall k: Key :: k.chunk in ids && InsertKey(db, model, index, k) ==>
          k in s.pending || (k in s.jobs && k !in db.jobs))
  }

  lemma SweepSparesEligible(db: Db, model: string, index: string, k: Key)
    requires index in db.scopes && InScope(db, index, k.chunk) && Eligible(db, k.chunk)
    ensures HasActive(PlanStart(db, model, index).vectors, k) <==> HasActive(db.vectors, k)
  {}

  /** After the sweep nothing is left to switch off for a chunk that is not embeddable. */
  lemma SweepLeavesNothing(db: Db, model: string, index: string, c: string)
    requires index in db.scopes && !Eligible(db, c)
    ensures var vectors := PlanStart(db, model, index).vectors;
            StaleKeys(vectors, c, model, index, None) == {} && Deactivated(vectors, c, model, index, None) == vectors
  {
    var vectors := PlanStart(db, model, index).vectors;
    assert StaleKeys(vectors, c, model, index, None) == {};
  }

  /** One flush of the pending inserts: it succeeds exactly when none of them clashes. */
  lemma FlushShape(db: Db, model: string, index: string, ids: seq<string>, s: PlanState)
    requires index in db.scopes && Shape(db, model, index, ids, s)
    ensures var r := Flushed(s.jobs, s.pending, db.clock);
            && (r.Ok? ==> Shape(db, model, index, ids, s.(jobs := r.value, pending := [])))
            && (r.Ok? <==> forall k: Key :: k.chunk in ids ==> !Clash(db, model, index, k))
            && (r.Err? ==> r.error.DuplicateJob? && r.error.key.chunk in ids && Clash(db, model, index, r.error.key))
  {
    FlushKeeps(s.jobs, s.pending, db.clock);
    FailureIsPending(s.jobs, s.pending, db.clock);
    var r := Flushed(s.jobs, s.pending, db.clock);
    if r.Ok? {
      forall k: Key | k.chunk in ids ensures !Clash(db, model, index, k) {
        assert InsertKey(db, model, index, k) && k in db.jobs ==> k in s.pending;
      }
    }
  }

  lemma ShapePassesOver(db: Db, model: string, index: string, ids: seq<string>, s: PlanState, c: string)
    requires index in db.scopes && c in db.chunks && c !in ids && Shape(db, model, index, ids, s)
    requires var k := KeyOf(db, model, index, c); !InsertKey(db, model, index, k) && !ResetKey(db, model, index, k)
    ensures Shape(db, model, index, ids + [c], s)
  {
    assert forall j :: CurrentKey(db, model, index, j) && j.chunk == c ==> j == KeyOf(db, model, index, c);
  }

  lemma ShapeInserts(db: Db, model: string, index: string, ids: seq<string>, s: PlanState, c: string)
    requires index in db.scopes && c in db.chunks && c !in ids && Shape(db, model, index, ids, s)
    requires InsertKey(db, model, index, KeyOf(db, model, index, c))
    ensures Shape(db, model, index, ids + [c], s.(pending := s.pending + [KeyOf(db, model, index, c)]))
  {
    assert forall j :: CurrentKey(db, model, index, j) && j.chunk == c ==> j == KeyOf(db, model, index, c);
  }

  lemma ResetInsertsNone(db: Db, model: string, index: string, ids: seq<string>, c: string, j: Key)
    requires c in db.chunks && ResetKey(db, model, index, KeyOf(db, model, index, c))
    ensures j.chunk in ids + [c] && InsertKey(db, model, index, j) <==>
              j.chunk in ids && InsertKey(db, model, index, j)
  {
    assert j.chunk in ids + [c] <==> j.chunk in ids || j.chunk == c;
    assert CurrentKey(db, model, index, j) && j.chunk == c ==> j == KeyOf(db, model, index, c);
  }

  lemma ResetPlansOne(db: Db, model: string, index: string, ids: seq<string>, c: string, j: Key)
    requires c in db.chunks && c !in ids && ResetKey(db, model, index, KeyOf(db, model, index, c)) && j in db.jobs
    ensures PlannedJob(db, model, index, ids + [c], j)
              == if j == KeyOf(db, model, index, c) then ResetJob(db.jobs[j]) else PlannedJob(db, model, index, ids, j)
  {
    assert j.chunk in ids + [c] <==> j.chunk in ids || j.chunk == c;
    assert CurrentKey(db, model, index, j) && j.chunk == c ==> j == KeyOf(db, model, index, c);
  }

  lemma ShapeResets(db: Db, model: string, index: string, ids: seq<string>, s: PlanState, c: string)
    requires index in db.scopes && c in db.chunks && c !in ids && Shape(db, model, index, ids, s)
    requires ResetKey(db, model, index, KeyOf(db, model, index, c))
    ensures var k := KeyOf(db, model, index, c);
            k in s.jobs && Shape(db, model, index, ids + [c], s.(jobs := s.jobs[k := ResetJob(s.jobs[k])]))
  {
    forall j: Key { ResetInsertsNone(db, model, index, ids, c, j); }
    forall j: Key | j in db.jobs { ResetPlansOne(db, model, index, ids, c, j); }
  }

  /** The planner's test on the session's own view agrees with the tables it started from. */
  lemma ShapeReads(db: Db, model: string, index: string, ids: seq<string>, s: PlanState, c: string)
    requires index in db.scopes && c in db.chunks && Plannable(db, index, c) && c !in ids
               && Shape(db, model, index, ids, s)
    ensures var k := KeyOf(db, model, index, c);
            && (k in s.jobs <==> k in db.jobs)
            && (k in db.jobs ==> s.jobs[k] == db.jobs[k])
            && (Eligible(db, c) ==> (HasActive(s.vectors, k) <==> HasActive(db.vectors, k)))
  {
    if Eligible(db, c) { SweepSparesEligible(db, model, index, KeyOf(db, model, index, c)); }
  }

  lemma PlanStepShape(db: Db, model: string, index: string, ids: seq<string>, s: PlanState, c: string)
    requires index in db.scopes && c in db.chunks && Plannable(db, index, c) && c !in ids
    requires Shape(db, model, index, ids, s)
    ensures var r := PlanStep(db, model, index, s, c);
            && (r.Ok? ==> Shape(db, model, index, ids + [c], r.value))
            && (r.Err? ==> r.error.DuplicateJob? && r.error.key.chunk in ids && Clash(db, model, index, r.error.key))
  {
    var k := KeyOf(db, model, index, c);
    ShapeReads(db, model, index, ids, s, c);
    if !Eligible(db, c) {
      SweepLeavesNothing(db, model, index, c);
      ShapePassesOver(db, model, index, ids, s, c);
    } else if HasActive(s.vectors, k) || (k in s.jobs && Open(s.jobs[k])) {
      ShapePassesOver(db, model, index, ids, s, c);
    } else if k in s.jobs && s.jobs[k].status == Failed {
      ShapeResets(db, model, index, ids, s, c);
      FlushShape(db, model, index, ids + [c], s.(jobs := s.jobs[k := ResetJob(s.jobs[k])]));
      assert forall j :: Clash(db, model, index, j) && j.chunk == c ==> j == k;
    } else {
      ShapeInserts(db, model, index, ids, s, c);
    }
  }

  lemma {:induction false} PlanRowsShape(db: Db, model: string, index: string, ids: seq<string>)
    requires index in db.scopes && Distinct(ids) && forall c :: c in ids ==> c in db.chunks && Plannable(db, index, c)
    ensures var r := PlanRows(db, model, index, ids);
            && (r.Ok? ==> Shape(db, model, index, ids, r.value))
            && (r.Err? ==> r.error.DuplicateJob? && r.error.key.chunk in ids && Clash(db, model, index, r.error.key))
  {
    if ids != [] {
      var last := |ids| - 1;
      PlanRowsShape(db, model, index, ids[..last]);
      var before := PlanRows(db, model, index, ids[..last]);
      assert ids == ids[..last] + [ids[last]];
      if before.Ok? { PlanStepShape(db, model, index, ids[..last], before.value, ids[last]); }
    }
  }

  /** What a planner call that read these rows leaves behind. */
  ghost predicate PlannedAs(db: Db, model: string, index: string, ids: seq<string>, after: Db)
    requires index in db.scopes
  {
    && after == db.(vectors := Switched(db.vectors, Unembeddable(db, model, index)), jobs := after.jobs)
    && (forall k :: k in db.jobs ==> k in after.jobs && after.jobs[k] == PlannedJob(db, model, index, ids, k))
    && (forall k :: k in after.jobs && k !in db.jobs <==> k.chunk in ids && InsertKey(db, model, index, k))
    && (forall k :: k in after.jobs && k !in db.jobs ==> after.jobs[k] == NewJob(db.clock))
  }

  /**
   A planner call fails exactly when a chunk it reads is eligible, has no active vector at its
   current hash and already has a succeeded or cancelled job at that hash.
   */
  lemma PlanCollidesIff(db: Db, model: string, index: string, ids: seq<string>)
    requires index in db.scopes && Distinct(ids) && forall c :: c in ids ==> c in db.chunks && Plannable(db, index, c)
    ensures var r := Plan(db, model, index, ids);
            && (r.Err? <==> exists k: Key :: k.chunk in ids && Clash(db, model, index, k))
            && (r.Err? ==> r.error.DuplicateJob? && Clash(db, model, index, r.error.key))
            && (r.Ok? ==> PlannedAs(db, model, index, ids, r.value.0))
  {
    PlanRowsShape(db, model, index, ids);
    var rows := PlanRows(db, model, index, ids);
    if rows.Ok? {
      FlushShape(db, model, index, ids, rows.value);
      var r := Plan(db, model, index, ids);
      if r.Ok? {
        var after := r.value.0;
        assert Shape(db, model, index, ids, rows.value.(jobs := after.jobs, pending := []));
        forall k ensures k in after.jobs && k !in db.jobs <==> k.chunk in ids && InsertKey(db, model, index, k) {
          assert !(k.chunk in ids && Clash(db, model, index, k));
        }
      }
    }
  }

  ghost predicate OneCurrent(db: Db) {
    forall c, j, k :: j in CurrentMemberships(db, c) && k in CurrentMemberships(db, c) ==> j == k
  }

  /** With one current membership per chunk the planner's query returns each chunk once. */
  lemma ListingDistinct(db: Db, index: string, ids: seq<string>)
    requires index in db.scopes && IsListing(db, index, ids) && OneCurrent(db)
    ensures Distinct(ids)
    ensures forall c :: c in ids <==> Plannable(db, index, c) && CurrentMemberships(db, c) != {}
  {
    forall c ensures multiset(ids)[c] <= 1 {
      AtMostOne(CurrentMemberships(db, c));
    }
    forall i, j | 0 <= i < j < |ids| ensures ids[i] != ids[j] {
      assert ids == ids[..i] + [ids[i]] + ids[i + 1..j] + [ids[j]] + ids[j + 1..];
      assert ids[i] == ids[j] ==> multiset(ids)[ids[i]] >= 2;
    }
    forall c ensures c in ids <==> Plannable(db, index, c) && CurrentMemberships(db, c) != {} {
      assert c in ids <==> multiset(ids)[c] > 0;
    }
  }

  lemma AtMostOne<T>(s: set<T>)
    requires forall x, y :: x in s && y in s ==> x == y
    ensures |s| <= 1
  {
    if s != {} {
      var x :| x in s;
      assert s == {x};
    }
  }

  // ----- A chunk read twice -----

  /** The planner, reading the chunk of this key now, would insert a job for it. */
  ghost predicate WouldInsert(s: PlanState, k: Key) {
    !HasActive(s.vectors, k) && (k in s.jobs ==> Done(s.jobs[k])) && k !in s.pending
  }

  lemma OtherChunkRead(db: Db, model: string, index: string, s: PlanState, c: string, k: Key)
    requires c in db.chunks && c != k.chunk && WouldInsert(s, k)
    ensures var r := PlanStep(db, model, index, s, c); r.Ok? ==> WouldInsert(r.value, k)
  {
    var own := KeyOf(db, model, index, c);
    if own in s.jobs { FlushKeeps(s.jobs[own := ResetJob(s.jobs[own])], s.pending, db.clock); }
  }

  lemma {:induction false} NotYetRead(db: Db, model: string, index: string, ids: seq<string>, k: Key)
    requires index in db.scopes && (forall c :: c in ids ==> c in db.chunks) && k.chunk !in ids
    requires InsertKey(db, model, index, k)
    ensures var r := PlanRows(db, model, index, ids); r.Ok? ==> WouldInsert(r.value, k)
  {
    if ids != [] {
      var most, c := ids[..|ids| - 1], ids[|ids| - 1];
      NotYetRead(db, model, index, most, k);
      var before := PlanRows(db, model, index, most);
      if before.Ok? { OtherChunkRead(db, model, index, before.value, c, k); }
    }
  }

  lemma RepetitionStays(db: Db, model: string, index: string, s: PlanState, c: string)
    requires c in db.chunks && !Distinct(s.pending)
    ensures var r := PlanStep(db, model, index, s, c); r.Ok? ==> !Distinct(r.value.pending)
  {
    var k := KeyOf(db, model, index, c);
    if k in s.jobs { FlushKeeps(s.jobs[k := ResetJob(s.jobs[k])], s.pending, db.clock); }
    var more := s.pending + [k];
    assert forall i :: 0 <= i < |s.pending| ==> more[i] == s.pending[i];
  }

  lemma RepetitionAppears(db: Db, model: string, index: string, ids: seq<string>, i: nat)
    requires index in db.scopes && (forall c :: c in ids ==> c in db.chunks)
    requires i + 2 <= |ids| && ids[i] == ids[i + 1] && ids[i] !in ids[..i]
    requires InsertKey(db, model, index, KeyOf(db, model, index, ids[i]))
    ensures var r := PlanRows(db, model, index, ids[..i + 2]); r.Ok? ==> !Distinct(r.value.pending)
  {
    var k := KeyOf(db, model, index, ids[i]);
    NotYetRead(db, model, index, ids[..i], k);
    assert ids[..i + 2][..i + 1] == ids[..i + 1] && ids[..i + 1][..i] == ids[..i];
    var before := PlanRows(db, model, index, ids[..i]);
    if before.Ok? {
      var once := before.value.pending + [k];
      assert (once + [k])[|once| - 1] == (once + [k])[|once|];
    }
  }

  lemma RepetitionGoesOn(db: Db, model: string, index: string, ids: seq<string>, n: nat)
    requires index in db.scopes && (forall c :: c in ids ==> c in db.chunks) && 0 < n <= |ids|
    requires var r := PlanRows(db, model, index, ids[..n - 1]); r.Ok? ==> !Distinct(r.value.pending)
    ensures var r := PlanRows(db, model, index, ids[..n]); r.Ok? ==> !Distinct(r.value.pending)
  {
    assert ids[..n][..n - 1] == ids[..n - 1];
    var before := PlanRows(db, model, index, ids[..n - 1]);
    if before.Ok? { RepetitionStays(db, model, index, before.value, ids[n - 1]); }
  }

  lemma {:induction false} RepetitionPending(db: Db, model: string, index: string, ids: seq<string>, i: nat, n: nat)
    requires index in db.scopes && (forall c :: c in ids ==> c in db.chunks)
    requires i + 2 <= n <= |ids| && ids[i] == ids[i + 1] && ids[i] !in ids[..i]
    requires InsertKey(db, model, index, KeyOf(db, model, index, ids[i]))
    ensures var r := PlanRows(db, model, index, ids[..n]); r.Ok? ==> !Distinct(r.value.pending)
  {
    if n > i + 2 {
      RepetitionPending(db, model, index, ids, i, n - 1);
      RepetitionGoesOn(db, model, index, ids, n);
    } else {
      RepetitionAppears(db, model, index, ids, i);
    }
  }

  /**
   Rows in id order that read a chunk more than once, when it lacks job and vector, make the plan collide
   with itself.
   */
  lemma ChunkReadTwiceCollides(db: Db, model: string, index: string, ids: seq<string>, i: nat, j: nat)
    requires index in db.scopes && (forall c :: c in ids ==> c in db.chunks) && Ascending(StringLess, ids)
    requires i < j < |ids| && ids[i] == ids[j] && InsertKey(db, model, index, KeyOf(db, model, index, ids[i]))
    ensures Plan(db, model, index, ids).Err?
  {
    var first := FirstAt(ids, ids[i], i);
    StringLessTotal();
    assert !StringLess(ids[first + 1], ids[first]);
    assert first + 1 < j ==> !StringLess(ids[j], ids[first + 1]);
    assert ids[first + 1] == ids[first];
    RepetitionPending(db, model, index, ids, first, |ids|);
    assert ids[..|ids|] == ids;
    var rows := PlanRows(db, model, index, ids);
    if rows.Ok? { FlushKeeps(rows.value.jobs, rows.value.pending, db.clock); }
  }

  lemma FirstAt(ids: seq<string>, c: string, i: nat) returns (first: nat)
    requires i < |ids| && ids[i] == c
    ensures first <= i && ids[first] == c && c !in ids[..first]
  {
    first := 0;
    while ids[first] != c
      invariant first <= i && c !in ids[..first]
      decreases i - first
    {
      assert ids[..first + 1] == ids[..first] + [ids[first]];
      first := first + 1;
    }
  }

  /** Every eligible chunk in scope is embedded or queued at its current hash. */
  ghost predicate Covered(db: Db, model: string, index: string)
    requires index in db.scopes
  {
    forall c :: InScope(db, index, c) && Eligible(db, c) ==>
      var k := KeyOf(db, model, index, c);
      HasActive(db.vectors, k) || (k in db.jobs && Open(db.jobs[k]))
  }

  /** No vector of the index is active for a chunk that is out of scope or not eligible. */
  ghost predicate Swept(db: Db, model: string, index: string)
    requires index in db.scopes
  {
    forall k :: HasActive(db.vectors, k) && k.model == model && k.index == index ==>
      InScope(db, index, k.chunk) && Eligible(db, k.chunk)
  }

  /** The outcome of an unlimited plan, over any rows its query can return. */
  lemma UnlimitedPlanCovers(db: Db, model: string, index: string, listing: seq<string>)
    requires index in db.scopes && IsListing(db, index, listing) && OneCurrent(db)
    requires forall c :: c in listing ==> c in db.chunks
    ensures var r := Plan(db, model, index, listing);
            && (r.Err? <==> exists k: Key :: k.chunk in listing && Clash(db, model, index, k))
            && (r.Ok? ==> Swept(r.value.0, model, index) && Covered(r.value.0, model, index))
            && (r.Ok? ==> PlannedAs(db, model, index, listing, r.value.0))
  {
    ListingDistinct(db, index, listing);
    PlanCollidesIff(db, model, index, listing);
    var r := Plan(db, model, index, listing);
    if r.Ok? {
      var after := r.value.0;
      PlanCovers(db, model, index, listing, after);
      assert Swept(after, model, index);
    }
  }

  lemma ReadIfInScope(db: Db, index: string, listing: seq<string>, c: string)
    requires index in db.scopes && IsListing(db, index, listing) && InScope(db, index, c) && Eligible(db, c)
    ensures c in listing
  {
    var m :| m in db.memberships && m.chunk == c && db.memberships[m].current && !db.memberships[m].tombstoned;
    assert m in CurrentMemberships(db, c);
    assert multiset(listing)[c] > 0;
  }

  lemma PlanCovers(db: Db, model: string, index: string, listing: seq<string>, after: Db)
    requires index in db.scopes && IsListing(db, index, listing) && PlannedAs(db, model, index, listing, after)
    requires forall k: Key :: k.chunk in listing ==> !Clash(db, model, index, k)
    ensures index in after.scopes && Covered(after, model, index)
  {
    forall c | InScope(after, index, c) && Eligible(after, c)
      ensures var k := KeyOf(after, model, index, c);
              HasActive(after.vectors, k) || (k in after.jobs && Open(after.jobs[k]))
    {
      var k := KeyOf(db, model, index, c);
      assert Eligible(db, c) && InScope(db, index, c);
      ReadIfInScope(db, index, listing, c);
      SweepSparesEligible(db, model, index, k);
      if !HasActive(db.vectors, k) {
        assert LacksVector(db, model, index, k);
        assert k in db.jobs ==> Open(db.jobs[k]) || Done(db.jobs[k]) || db.jobs[k].status == Failed;
      }
    }
  }

  // ----- A collision does not clear by itself -----

  ghost predicate NoEdits(steps: seq<Step>) { forall i :: 0 <= i < |steps| ==> !steps[i].Editing? }

  lemma StepLeavesClash(db: Db, step: Step, maxAttempts: nat, model: string, index: string, k: Key)
    requires ValidStep(db, step) && !step.Editing? && Consistent(db, maxAttempts) && maxAttempts >= 1
    requires Clash(db, model, index, k)
    ensures Clash(Apply(db, step, maxAttempts), model, index, k)
  {
    StepKeeps(db, step, maxAttempts);
    match step
    case Planning(m, ix, listing, limit) =>
      if ix in db.scopes {
        var ids := Limited(listing, limit);
        forall c | c in ids ensures c in db.chunks { ListingIsStored(db, ix, listing, limit, c); }
        PlanKeeps(db, m, ix, ids, maxAttempts);
        PlanRowsNeverActivate(db, m, ix, ids);
      }
    case Working(_, claimed, provider) =>
      PassWorkedOn(db, claimed, provider, maxAttempts);
      PassActivatesOnly(db, claimed, provider, maxAttempts);
    case Ticking(_) =>
  }

  lemma {:induction false} PlanRowsNeverActivate(db: Db, model: string, index: string, ids: seq<string>)
    requires index in db.scopes && forall c :: c in ids ==> c in db.chunks
    ensures var r := PlanRows(db, model, index, ids);
            r.Ok? ==> forall k :: HasActive(r.value.vectors, k) ==> HasActive(db.vectors, k)
  {
    if ids != [] { PlanRowsNeverActivate(db, model, index, ids[..|ids| - 1]); }
  }

  lemma PassActivatesOnly(db: Db, claimed: seq<Key>, provider: nat -> Outcome, maxAttempts: nat)
    requires ClaimedJobs(db, claimed)
    ensures forall k :: HasActive(Pass(db, claimed, provider, maxAttempts).db.vectors, k) ==>
              HasActive(db.vectors, k) || k in claimed
  {
    var inv := (p: Progress, i: nat) =>
      forall k :: HasActive(p.db.vectors, k) ==> HasActive(db.vectors, k) || k in claimed;
    PassKeeps(inv, db, claimed, provider, maxAttempts, |claimed|);
  }

  /**
   A chunk whose finished job lost its vector stays uncovered: however often planning, worker
   passes and time go on, nothing re-embeds it, and every unlimited plan that reads it fails.
   */
  lemma {:induction false} ClashPersists(db: Db, steps: seq<Step>, maxAttempts: nat, model: string, index: string,
                                         k: Key)
    requires ValidRun(db, steps, maxAttempts) && NoEdits(steps) && Consistent(db, maxAttempts) && maxAttempts >= 1
    requires Clash(db, model, index, k)
    ensures Clash(Run(db, steps, maxAttempts), model, index, k)
    decreases |steps|
  {
    if steps != [] {
      assert !steps[0].Editing?;
      StepLeavesClash(db, steps[0], maxAttempts, model, index, k);
      StepKeeps(db, steps[0], maxAttempts);
      var rest := steps[1..];
      assert forall i :: 0 <= i < |rest| ==> rest[i] == steps[i + 1];
      ClashPersists(Apply(db, steps[0], maxAttempts), rest, maxAttempts, model, index, k);
    }
  }
}
