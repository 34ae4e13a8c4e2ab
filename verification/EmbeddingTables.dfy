/** The embedding tables and, as functions on their values, what one planner or worker step does. */
module EmbeddingTables {
  import opened Ordering

  /** Row identifiers are digests of these four fields, so the fields stand for the identifier. */
  datatype Key = Key(chunk: string, model: string, index: string, hash: string)

  datatype Vector = Vector(inputHash: string, values: seq<real>, dimensions: int, metric: string, active: bool)

  datatype Status = Pending | Running | Succeeded | Retrying | Failed | Cancelled

  datatype Job = Job(status: Status, attempts: nat, nextRetry: Option<int>, created: int)

  datatype Chunk = Chunk(
    source: string, versioned: bool, allowlisted: bool, text: string,
    redaction: string, license: string, hash: string)

  datatype MemberKey = MemberKey(chunk: string, version: string)

  datatype Membership = Membership(current: bool, tombstoned: bool)

  datatype Model = Model(dimensions: nat, metric: string)

  /** `scopes` maps an index version to its source ids; None is an index without a source list. */
  datatype Db = Db(
    chunks: map<string, Chunk>, memberships: map<MemberKey, Membership>, models: map<string, Model>,
    scopes: map<string, Option<set<string>>>, vectors: map<Key, Vector>, jobs: map<Key, Job>, clock: int)

  const RETRY_DELAY := 30

  // ----- Eligibility -----

  predicate Embeddable(c: Chunk) {
    && c.allowlisted && c.versioned && c.text != ""
    && c.redaction in {"redacted", "not_required"}
    && c.license in {"allowed"}
  }

  predicate HasCurrent(db: Db, c: string) {
    exists k :: k in db.memberships && k.chunk == c && db.memberships[k].current && !db.memberships[k].tombstoned
  }

  predicate Eligible(db: Db, c: string) {
    c in db.chunks && Embeddable(db.chunks[c]) && HasCurrent(db, c)
  }

  /** To the planner a missing source list is every source and an empty one is none. */
  predicate InScope(db: Db, index: string, c: string)
    requires index in db.scopes
  {
    c in db.chunks && (db.scopes[index].Some? ==> db.chunks[c].source in db.scopes[index].value)
  }

  // ----- Vector repository -----

  predicate SameTriple(k: Key, chunk: string, model: string, index: string) {
    k.chunk == chunk && k.model == model && k.index == index
  }

  function StaleKeys(vectors: map<Key, Vector>, chunk: string, model: string, index: string,
                     keep: Option<string>): set<Key>
  {
    set k | k in vectors && SameTriple(k, chunk, model, index) && vectors[k].active && keep != Some(k.hash)
  }

  function Switched(vectors: map<Key, Vector>, stale: set<Key>): map<Key, Vector> {
    map k | k in vectors :: if k in stale then vectors[k].(active := false) else vectors[k]
  }

  function Deactivated(vectors: map<Key, Vector>, chunk: string, model: string, index: string,
                       keep: Option<string>): map<Key, Vector>
  {
    Switched(vectors, StaleKeys(vectors, chunk, model, index, keep))
  }

  function Upserted(vectors: map<Key, Vector>, k: Key, values: seq<real>, dimensions: int, metric: string)
    : map<Key, Vector>
  {
    Deactivated(vectors, k.chunk, k.model, k.index, Some(k.hash))[k := Vector(k.hash, values, dimensions, metric, true)]
  }

  ghost function ActiveHashes(db: Db, chunk: string, model: string, index: string): set<string> {
    set k | k in db.vectors && SameTriple(k, chunk, model, index) && db.vectors[k].active :: k.hash
  }

  // ----- Planner -----

  predicate Open(job: Job) { job.status !in {Succeeded, Failed, Cancelled} }

  predicate HasActive(vectors: map<Key, Vector>, k: Key) { k in vectors && vectors[k].active }

  function KeyOf(db: Db, model: string, index: string, c: string): Key
    requires c in db.chunks
  {
    Key(c, model, index, db.chunks[c].hash)
  }

  /** The planner's query reads one row for each current membership, tombstoned or not. */
  predicate Plannable(db: Db, index: string, c: string)
    requires index in db.scopes
  {
    InScope(db, index, c) && db.chunks[c].versioned
  }

  function CurrentMemberships(db: Db, c: string): set<MemberKey> {
    set k | k in db.memberships && k.chunk == c && db.memberships[k].current
  }

  ghost predicate IsListing(db: Db, index: string, ids: seq<string>)
    requires index in db.scopes
  {
    && Ascending(StringLess, ids)
    && forall c :: multiset(ids)[c] == if Plannable(db, index, c) then |CurrentMemberships(db, c)| else 0
  }

  function Limited(ids: seq<string>, limit: Option<nat>): seq<string> {
    if limit.Some? && limit.value < |ids| then ids[..limit.value] else ids
  }

  /** `pending` holds the inserts the session has not flushed; queries do not see them. */
  datatype PlanState = PlanState(
    vectors: map<Key, Vector>, jobs: map<Key, Job>, pending: seq<Key>,
    created: nat, skipped: nat, deactivated: nat)

  datatype PlanError = UnknownIndex | DuplicateJob(key: Key)

  function NewJob(clock: int): Job { Job(Pending, 0, None, clock) }

  function ResetJob(job: Job): Job { job.(status := Pending, attempts := 0, nextRetry := None) }

  function Flushed(jobs: map<Key, Job>, pending: seq<Key>, clock: int): Result<map<Key, Job>, PlanError>
    decreases |pending|
  {
    if pending == [] then Ok(jobs)
    else if pending[0] in jobs then Err(DuplicateJob(pending[0]))
    else Flushed(jobs[pending[0] := NewJob(clock)], pending[1..], clock)
  }

  /** Active vectors of the model and index whose chunk is gone, out of scope or not embeddable. */
  function Unembeddable(db: Db, model: string, index: string): set<Key>
    requires index in db.scopes
  {
    set k | k in db.vectors && k.model == model && k.index == index && db.vectors[k].active
            && !(InScope(db, index, k.chunk) && Eligible(db, k.chunk))
  }

  function PlanStart(db: Db, model: string, index: string): PlanState
    requires index in db.scopes
  {
    var swept := Unembeddable(db, model, index);
    PlanState(Switched(db.vectors, swept), db.jobs, [], 0, 0, |swept|)
  }

  function PlanStep(db: Db, model: string, index: string, s: PlanState, c: string): Result<PlanState, PlanError>
    requires c in db.chunks
  {
    var k := KeyOf(db, model, index, c);
    if !Eligible(db, c) then
      Ok(s.(vectors := Deactivated(s.vectors, c, model, index, None),
            deactivated := s.deactivated + |StaleKeys(s.vectors, c, model, index, None)|,
            skipped := s.skipped + 1))
    else if HasActive(s.vectors, k) || (k in s.jobs && Open(s.jobs[k])) then Ok(s)
    else if k in s.jobs && s.jobs[k].status == Failed then
      var flushed := Flushed(s.jobs[k := ResetJob(s.jobs[k])], s.pending, db.clock);
      if flushed.Err? then Err(flushed.error)
      else Ok(s.(jobs := flushed.value, pending := [], created := s.created + 1))
    else Ok(s.(pending := s.pending + [k], created := s.created + 1))
  }

  function PlanRows(db: Db, model: string, index: string, ids: seq<string>): Result<PlanState, PlanError>
    requires index in db.scopes && forall c :: c in ids ==> c in db.chunks
  {
    if ids == [] then Ok(PlanStart(db, model, index))
    else
      var before := PlanRows(db, model, index, ids[..|ids| - 1]);
      if before.Err? then before else PlanStep(db, model, index, before.value, ids[|ids| - 1])
  }

  datatype PlanSummary = PlanSummary(created: nat, skipped: nat, deactivated: nat)

  /** One planner call over the rows its query returned; an error rolls everything back. */
  function Plan(db: Db, model: string, index: string, ids: seq<string>): Result<(Db, PlanSummary), PlanError>
    requires forall c :: c in ids ==> c in db.chunks
  {
    if index !in db.scopes then Err(UnknownIndex)
    else
      var rows := PlanRows(db, model, index, ids);
      if rows.Err? then Err(rows.error)
      else
        var s := rows.value;
        var flushed := Flushed(s.jobs, s.pending, db.clock);
        if flushed.Err? then Err(flushed.error)
        else Ok((db.(vectors := s.vectors, jobs := flushed.value), PlanSummary(s.created, s.skipped, s.deactivated)))
  }

  // ----- Worker -----

  datatype Outcome = Raised | Returned(values: seq<real>, dimensions: int)

  datatype Tally = Tally(succeeded: nat, failed: nat, retrying: nat, cancelled: nat, deactivated: nat)

  predicate Claimable(job: Job) { job.status == Pending || job.status == Retrying }

  predicate Due(job: Job, clock: int) {
    Claimable(job) && (job.nextRetry.Some? ==> job.nextRetry.value <= clock)
  }

  function DueKeys(db: Db): set<Key> {
    set k | k in db.jobs && Due(db.jobs[k], db.clock)
  }

  predicate QueueBefore(db: Db, a: Key, b: Key) {
    && a in db.jobs && b in db.jobs
    && (|| db.jobs[a].created < db.jobs[b].created
        || (db.jobs[a].created == db.jobs[b].created && StringLess(a.chunk, b.chunk)))
  }

  /** Any result the claiming query may return: due jobs in queue order, ties in any order. */
  ghost predicate IsClaim(db: Db, batch: nat, claimed: seq<Key>) {
    && Distinct(claimed)
    && (forall k :: k in claimed ==> k in DueKeys(db))
    && (forall i, j :: 0 <= i < j < |claimed| ==> !QueueBefore(db, claimed[j], claimed[i]))
    && (forall i, k :: 0 <= i < |claimed| && k in DueKeys(db) && k !in claimed ==> !QueueBefore(db, k, claimed[i]))
    && |claimed| == if batch < |DueKeys(db)| then batch else |DueKeys(db)|
  }

  function Started(job: Job): Job { job.(status := Running, attempts := job.attempts + 1) }

  function CancelledJob(job: Job): Job { job.(status := Cancelled, nextRetry := None) }

  function ErroredJob(job: Job, maxAttempts: nat, clock: int): Job {
    if job.attempts >= maxAttempts then job.(status := Failed, nextRetry := None)
    else job.(status := Retrying, nextRetry := Some(clock + RETRY_DELAY))
  }

  function SucceededJob(job: Job): Job { job.(status := Succeeded, nextRetry := None) }

  predicate RightSized(outcome: Outcome, model: Model) {
    outcome.Returned? && outcome.dimensions == model.dimensions && |outcome.values| == model.dimensions
  }

  /** The worker embeds a job only for an eligible chunk that still has the job's hash. */
  predicate Runnable(db: Db, k: Key) {
    k.model in db.models && Eligible(db, k.chunk) && db.chunks[k.chunk].hash == k.hash
  }

  function RunJob(db: Db, k: Key, outcome: Outcome, maxAttempts: nat): Db
    requires k in db.jobs
  {
    var job := Started(db.jobs[k]);
    if !Runnable(db, k) then
      db.(vectors := Deactivated(db.vectors, k.chunk, k.model, k.index, None), jobs := db.jobs[k := CancelledJob(job)])
    else if !RightSized(outcome, db.models[k.model]) then
      db.(jobs := db.jobs[k := ErroredJob(job, maxAttempts, db.clock)])
    else
      db.(vectors := Upserted(db.vectors, k, outcome.values, outcome.dimensions, db.models[k.model].metric),
          jobs := db.jobs[k := SucceededJob(job)])
  }

  function TallyJob(db: Db, k: Key, outcome: Outcome, maxAttempts: nat, t: Tally): Tally
    requires k in db.jobs
  {
    if !Runnable(db, k) then
      t.(cancelled := t.cancelled + 1,
         deactivated := t.deactivated + |StaleKeys(db.vectors, k.chunk, k.model, k.index, None)|)
    else if !RightSized(outcome, db.models[k.model]) then
      if db.jobs[k].attempts + 1 >= maxAttempts then t.(failed := t.failed + 1) else t.(retrying := t.retrying + 1)
    else t.(succeeded := t.succeeded + 1)
  }

  /** The tables and the counters while a pass is under way. */
  datatype Progress = Progress(db: Db, tally: Tally)

  const NO_TALLY := Tally(0, 0, 0, 0, 0)

  function WorkNext(p: Progress, k: Key, outcome: Outcome, maxAttempts: nat): Progress
    requires k in p.db.jobs
  {
    Progress(RunJob(p.db, k, outcome, maxAttempts), TallyJob(p.db, k, outcome, maxAttempts, p.tally))
  }

  /** The loop body; `provider(i)` is what the provider does with the i-th job. */
  function WorkAt(claimed: seq<Key>, provider: nat -> Outcome, maxAttempts: nat): (Progress, nat) -> Progress {
    (p: Progress, i: nat) =>
      if i < |claimed| && claimed[i] in p.db.jobs then WorkNext(p, claimed[i], provider(i), maxAttempts) else p
  }

  /** After the first n claimed jobs. */
  function PassTo(db: Db, claimed: seq<Key>, provider: nat -> Outcome, maxAttempts: nat, n: nat): Progress {
    Fold(WorkAt(claimed, provider, maxAttempts), Progress(db, NO_TALLY), n)
  }

  function Pass(db: Db, claimed: seq<Key>, provider: nat -> Outcome, maxAttempts: nat): Progress {
    PassTo(db, claimed, provider, maxAttempts, |claimed|)
  }
}
