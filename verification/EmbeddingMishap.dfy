/** One provider error and one edit: a run from empty tables that loses a correct vector for good. */
module EmbeddingMishap {
  import opened Ordering
  import opened EmbeddingTables
  import opened EmbeddingRuns
  import opened EmbeddingPlanning
  import opened EmbeddingConvergence

  const MAX := 3
  const OLD := Key("c", "m", "i", "old")
  const NEW := Key("c", "m", "i", "new")
  const MEMBERS := map[MemberKey("c", "v") := Membership(true, false)]

  function Chunks(hash: string): map<string, Chunk> {
    map["c" := Chunk("s", true, true, "text", "redacted", "allowed", hash)]
  }

  function State(hash: string, vectors: map<Key, Vector>, jobs: map<Key, Job>, clock: int): Db {
    Db(Chunks(hash), MEMBERS, map["m" := Model(1, "cosine")], map["i" := None], vectors, jobs, clock)
  }

  function Embedded(active: bool): map<Key, Vector> { map[NEW := Vector("new", [1.0], 1, "cosine", active)] }

  const RETRIED := Job(Retrying, 1, Some(30), 0)
  const FINISHED := Job(Succeeded, 1, None, 0)
  const DROPPED := Job(Cancelled, 2, None, 0)

  const EMPTY := State("old", map[], map[], 0)
  const QUEUED := State("old", map[], map[OLD := NewJob(0)], 0)
  const FAILED_ONCE := State("old", map[], map[OLD := RETRIED], 0)
  const EDITED := State("new", map[], map[OLD := RETRIED], 0)
  const REQUEUED := State("new", map[], map[OLD := RETRIED, NEW := NewJob(0)], 0)
  const EMBEDDED := State("new", Embedded(true), map[OLD := RETRIED, NEW := FINISHED], 0)
  const WAITED := State("new", Embedded(true), map[OLD := RETRIED, NEW := FINISHED], 30)
  const LOST := State("new", Embedded(false), map[OLD := DROPPED, NEW := FINISHED], 30)

  const PLAN := Planning("m", "i", ["c"], None)

  function Work(k: Key, outcome: Outcome): Step { Working(1, [k], _ => outcome) }

  lemma Listed(db: Db, hash: string)
    requires db.chunks == Chunks(hash) && db.memberships == MEMBERS && db.scopes == map["i" := None]
    ensures IsListing(db, "i", ["c"]) && Eligible(db, "c")
  {
    assert MemberKey("c", "v") in db.memberships;
    forall c ensures multiset(["c"])[c] == if Plannable(db, "i", c) then |CurrentMemberships(db, c)| else 0 {
      if c == "c" { assert CurrentMemberships(db, c) == {MemberKey("c", "v")}; }
    }
  }

  lemma FlushOne(jobs: map<Key, Job>, k: Key)
    requires k !in jobs
    ensures Flushed(jobs, [k], 0) == Ok(jobs[k := NewJob(0)])
  {
    var grown := jobs[k := NewJob(0)];
    assert Flushed(grown, [], 0) == Ok(grown);
    assert [k][0] == k && [k][1..] == [];
  }

  /** The plan inserts one job, if neither vector nor job of the current key is there. */
  lemma PlanInserts(db: Db, hash: string)
    requires db == State(hash, map[], db.jobs, 0) && Key("c", "m", "i", hash) !in db.jobs
    ensures ValidStep(db, PLAN) && Apply(db, PLAN, MAX) == db.(jobs := db.jobs[Key("c", "m", "i", hash) := NewJob(0)])
  {
    Listed(db, hash);
    var k := Key("c", "m", "i", hash);
    assert ["c"][..0] == [] && PlanRows(db, "m", "i", []) == Ok(PlanStart(db, "m", "i"));
    var s := PlanStart(db, "m", "i");
    assert Unembeddable(db, "m", "i") == {};
    assert Switched(map[], {}) == map[];
    assert s == PlanState(map[], db.jobs, [], 0, 0, 0);
    assert KeyOf(db, "m", "i", "c") == k && s.pending + [k] == [k];
    assert PlanStep(db, "m", "i", s, "c") == Ok(PlanState(map[], db.jobs, [k], 1, 0, 0));
    FlushOne(db.jobs, k);
    assert Limited(["c"], None) == ["c"];
  }

  /** A pass over the only job due is that job's step. */
  lemma WorkOne(db: Db, k: Key, outcome: Outcome)
    requires k in db.jobs && DueKeys(db) == {k}
    ensures ValidStep(db, Work(k, outcome)) && Apply(db, Work(k, outcome), MAX) == RunJob(db, k, outcome, MAX)
  {
    var start := Progress(db, NO_TALLY);
    var step := WorkAt([k], Work(k, outcome).provider, MAX);
    assert Fold(step, start, 0) == start;
    assert Fold(step, start, 1) == step(start, 0);
  }

  lemma QueueOld()
    ensures ValidStep(QUEUED, Work(OLD, Raised)) && Apply(QUEUED, Work(OLD, Raised), MAX) == FAILED_ONCE
  {
    Listed(QUEUED, "old");
    assert DueKeys(QUEUED) == {OLD};
    WorkOne(QUEUED, OLD, Raised);
    assert Runnable(QUEUED, OLD);
  }

  lemma EmbedNew()
    ensures ValidStep(REQUEUED, Work(NEW, Returned([1.0], 1)))
    ensures Apply(REQUEUED, Work(NEW, Returned([1.0], 1)), MAX) == EMBEDDED
  {
    Listed(REQUEUED, "new");
    assert DueKeys(REQUEUED) == {NEW};
    WorkOne(REQUEUED, NEW, Returned([1.0], 1));
    assert Runnable(REQUEUED, NEW);
  }

  lemma CancelOld()
    ensures ValidStep(WAITED, Work(OLD, Raised)) && Apply(WAITED, Work(OLD, Raised), MAX) == LOST
  {
    assert DueKeys(WAITED) == {OLD};
    WorkOne(WAITED, OLD, Raised);
    CancelsStale();
  }

  lemma CancelsStale()
    ensures RunJob(WAITED, OLD, Raised, MAX) == LOST
  {
    SwitchedOff();
    assert !Runnable(WAITED, OLD);
    assert WAITED.jobs[OLD := DROPPED] == LOST.jobs;
  }

  lemma SwitchedOff()
    ensures Deactivated(Embedded(true), "c", "m", "i", None) == Embedded(false)
  {
    assert StaleKeys(Embedded(true), "c", "m", "i", None) == {NEW};
  }

  ghost predicate Leads(before: Db, step: Step, after: Db) {
    ValidStep(before, step) && Apply(before, step, MAX) == after
  }

  lemma RunCons(db: Db, step: Step, next: Db, rest: seq<Step>, end: Db)
    requires Leads(db, step, next) && ValidRun(next, rest, MAX) && Run(next, rest, MAX) == end
    ensures ValidRun(db, [step] + rest, MAX) && Run(db, [step] + rest, MAX) == end
  {
    assert ([step] + rest)[1..] == rest;
  }

  lemma SevenSteps(a: Db, b: Db, c: Db, d: Db, e: Db, f: Db, g: Db, end: Db, ab: Step, bc: Step, cd: Step, de: Step,
                   ef: Step, fg: Step, gEnd: Step)
    returns (steps: seq<Step>)
    requires Leads(a, ab, b) && Leads(b, bc, c) && Leads(c, cd, d) && Leads(d, de, e) && Leads(e, ef, f)
               && Leads(f, fg, g)
    requires Leads(g, gEnd, end)
    ensures ValidRun(a, steps, MAX) && Run(a, steps, MAX) == end
  {
    steps := [];
    RunCons(g, gEnd, end, steps, end);
    steps := [gEnd] + steps;
    RunCons(f, fg, g, steps, end);
    steps := [fg] + steps;
    RunCons(e, ef, f, steps, end);
    steps := [ef] + steps;
    RunCons(d, de, e, steps, end);
    steps := [de] + steps;
    RunCons(c, cd, d, steps, end);
    steps := [cd] + steps;
    RunCons(b, bc, c, steps, end);
    steps := [bc] + steps;
    RunCons(a, ab, b, steps, end);
    steps := [ab] + steps;
  }

  lemma StoryRuns() returns (steps: seq<Step>)
    ensures ValidRun(EMPTY, steps, MAX) && Run(EMPTY, steps, MAX) == LOST
  {
    PlanInserts(EMPTY, "old");
    QueueOld();
    PlanInserts(EDITED, "new");
    EmbedNew();
    CancelOld();
    steps := SevenSteps(EMPTY, QUEUED, FAILED_ONCE, EDITED, REQUEUED, EMBEDDED, WAITED, LOST, PLAN, Work(OLD, Raised),
                        Editing(Chunks("new"), MEMBERS), PLAN, Work(NEW, Returned([1.0], 1)), Ticking(30),
                        Work(OLD, Raised));
  }

  lemma LostForGood(end: Db)
    requires end == LOST
    ensures Eligible(end, "c") && Clash(end, "m", "i", NEW) && Plan(end, "m", "i", ["c"]).Err?
    ensures forall k :: k in end.jobs ==> Done(end.jobs[k])
  {
    Listed(end, "new");
    NewIsLost(end);
    PlanCollidesIff(end, "m", "i", ["c"]);
  }

  lemma NewIsLost(end: Db)
    requires end == LOST && Eligible(end, "c")
    ensures Clash(end, "m", "i", NEW) && KeyOf(end, "m", "i", "c") == NEW
  {
    assert !HasActive(end.vectors, NEW) && end.jobs[NEW] == FINISHED;
  }

  /**
   From tables without vectors and jobs: the current vector is switched off by a job for the text
   before the edit, no job is open, and the next plan that reads the chunk fails.
   */
  lemma CorrectVectorLost() returns (start: Db, steps: seq<Step>, end: Db)
    ensures start.vectors == map[] && start.jobs == map[]
    ensures ValidRun(start, steps, MAX) && end == Run(start, steps, MAX)
    ensures Eligible(end, "c") && Clash(end, "m", "i", NEW) && Plan(end, "m", "i", ["c"]).Err?
    ensures forall k :: k in end.jobs ==> Done(end.jobs[k])
  {
    steps := StoryRuns();
    start, end := EMPTY, LOST;
    LostForGood(end);
  }
}
