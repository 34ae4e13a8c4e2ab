/** One ingestion session: catalogue repositories updated in place, with commits, rollback and run records. */
module IngestionPipeline {
  import opened Ordering
  import opened CatalogueTables
  import opened CatalogueRuns
  import opened Incremental

  datatype Stage = Started | Fetching | Discovering | Completed | Failed

  datatype Stats = Stats(fetched: nat, discovered: nat, added: nat, changed: nat, same: nat, tombstoned: nat)

  const NO_STATS := Stats(0, 0, 0, 0, 0, 0)

  datatype RunRow = RunRow(source: string, stage: Stage, stats: Stats, failedAt: Option<Stage>, version: Option<string>)

  datatype Db = Db(cat: Catalogue, runs: seq<RunRow>)

  /** Where, if anywhere, an exception other than a database error is raised. */
  datatype Fault = NoFault | BeforeWork | WhileFetching | WhileDiscovering | AfterUpserts(done: nat) | AfterRetire

  /** One configured source with what fetching and discovery give for it. */
  datatype Work = Work(source: string, supported: bool, profileMatches: bool, fault: Fault, fetched: nat,
                       snapshot: Snapshot)

  // ----- What a run comes to -----

  ghost predicate Completes(cat: Catalogue, w: Work, dryRun: bool) {
    if dryRun then w.fault != BeforeWork
    else w.fault == NoFault && w.supported && RunSnapshot(cat, w.snapshot).Ok?
  }

  /** The stage that was committed last before the failure. */
  function FailedStage(w: Work): Stage {
    if w.fault == BeforeWork || !w.supported then Started
    else if w.fault == WhileFetching then Fetching
    else Discovering
  }

  /** The run row as it stood at the last commit before the failure. */
  function FailingRow(w: Work): RunRow {
    RunRow(w.source, FailedStage(w), NO_STATS.(fetched := if FailedStage(w) == Discovering then w.fetched else 0), None,
           None)
  }

  ghost predicate CompletedStats(cat: Catalogue, w: Work, ds: seq<Decision>, stats: Stats) {
    && PlanOf(cat, w.snapshot, ds)
    && stats == Stats(w.fetched, |w.snapshot.artifacts|, Count(ds, Added), Count(ds, Changed), Count(ds, Unchanged),
                      Count(ds, Tombstoned))
  }

  ghost predicate RecordedAs(cat: Catalogue, w: Work, dryRun: bool, row: RunRow) {
    && row.source == w.source
    && if !Completes(cat, w, dryRun) then
         row == FailingRow(w).(stage := Failed, failedAt := Some(FailedStage(w)))
       else if dryRun then
         row.stage == Completed && row.failedAt == None && row.version == None && row.stats == NO_STATS
       else
         && row.stage == Completed && row.failedAt == None && row.version == Some(Resolved(cat, w.snapshot))
         && exists ds :: CompletedStats(cat, w, ds, row.stats)
  }

  ghost function CatalogueAfter(cat: Catalogue, w: Work, dryRun: bool): Catalogue {
    if Completes(cat, w, dryRun) && !dryRun then RunSnapshot(cat, w.snapshot).value else cat
  }

  ghost predicate CommitsSound(log: seq<Db>) { forall i :: 0 <= i < |log| ==> Sound(log[i].cat) }

  /** Each commit added since holds one of the two catalogues: the one before the run or the one after it. */
  ghost predicate CommitsAtomic(before: seq<Db>, after: seq<Db>, from: Catalogue, to: Catalogue) {
    && before <= after
    && forall i :: |before| <= i < |after| ==> after[i].cat == from || after[i].cat == to
  }

  ghost predicate OnlyLastDiffers(before: seq<RunRow>, after: seq<RunRow>) {
    |before| == |after| > 0 && before[..|before| - 1] == after[..|after| - 1]
  }

  class Session {
    var versions: map<string, Version>
    var artifacts: map<ArtifactKey, Artifact>
    var members: map<MemberKey, Member>
    var runs: seq<RunRow>
    var committed: Db
    /** Every state ever committed, oldest first. */
    ghost var log: seq<Db>

    constructor (db: Db)
      requires Sound(db.cat)
      ensures Settled() && committed == db && log == [db]
    {
      versions, artifacts, members, runs := db.cat.versions, db.cat.artifacts, db.cat.members, db.runs;
      committed := db;
      log := [db];
    }

    function Cat(): Catalogue
      reads this
    {
      Catalogue(versions, artifacts, members)
    }

    /** Between sources nothing is uncommitted and every committed catalogue is sound. */
    ghost predicate Settled()
      reads this
    {
      && committed == Db(Cat(), runs)
      && log != [] && log[|log| - 1] == committed
      && CommitsSound(log)
    }

    method Commit()
      modifies this`committed, this`log
      ensures committed == Db(Cat(), runs) && log == old(log) + [committed]
    {
      committed := Db(Cat(), runs);
      log := log + [committed];
    }

    method Rollback()
      modifies this`versions, this`artifacts, this`members, this`runs
      ensures Db(Cat(), runs) == committed
    {
      versions, artifacts, members := committed.cat.versions, committed.cat.artifacts, committed.cat.members;
      runs := committed.runs;
    }

    method UpdateRun(row: RunRow)
      requires runs != []
      modifies this`runs
      ensures runs == old(runs)[|old(runs)| - 1 := row]
    {
      runs := runs[|runs| - 1 := row];
    }

    // ----- Repositories -----

    method UpsertSourceVersion(s: Snapshot) returns (r: Result<string, RunError>)
      requires UniqueLabels(versions)
      modifies this`versions
      ensures match UpsertVersion(old(Cat()), s)
              case Ok(after) => r == Ok(Resolved(old(Cat()), s)) && versions == after
              case Err(error) => r == Err(error) && versions == old(versions)
    {
      var matches := set j | j in versions && versions[j].source == s.source && versions[j].tag == s.tag;
      var id := s.versionId;
      if matches != {} {
        id :| id in matches;
        assert Labels(versions, id, s.source, s.tag);
      } else {
        assert forall j :: j in versions ==> j !in matches;
        if id in versions { return Err(DuplicateVersionId(id)); }
        versions := versions[id := Version(s.source, s.tag, false)];
      }
      versions := map j | j in versions ::
        if versions[j].source == s.source then versions[j].(current := false) else versions[j];
      versions := versions[id := versions[id].(current := true)];
      return Ok(id);
    }

    method UpsertArtifact(s: Snapshot, v: string, c: Candidate)
      modifies this`artifacts
      ensures artifacts == old(artifacts)[KeyFor(s, c) := Written(s.git, KnownFirst(old(Cat()), KeyFor(s, c)), v, c)]
    {
      var a := ArtifactKey(s.source, c.path);
      var first := if a in artifacts then artifacts[a].first else None;
      var last: Option<string> := Some(v);
      if !s.git {
        first := if first.Some? then first else Some(v);
      } else {
        last := None;
      }
      var eligibility := if c.eligibility.Some? && c.eligibility.value != "" then c.eligibility.value else "unknown";
      artifacts := artifacts[a := Artifact(Some(v), first, last, c.checksum, c.profile, eligibility)];
    }

    method UpsertArtifactVersion(git: bool, a: ArtifactKey, v: string)
      requires a in artifacts
      modifies this`members
      ensures members == NotCurrent(old(members), a)[MemberKey(a, v) :=
                Member(true, false, FirstAfter(git, artifacts[a].first, v), LastAfter(git, v), artifacts[a].checksum)]
    {
      var first := artifacts[a].first;
      var last: Option<string> := Some(v);
      if !git {
        first := if first.Some? then first else Some(v);
      } else {
        last := None;
      }
      members := map k | k in members :: if k.artifact == a then members[k].(current := false) else members[k];
      members := members[MemberKey(a, v) := Member(true, false, first, last, artifacts[a].checksum)];
    }

    method RetireArtifactsAbsentFromDiscovery(source: string, keys: set<string>) returns (count: nat)
      modifies this`artifacts, this`members
      ensures Cat() == Retired(old(Cat()), source, keys)
      ensures count == |StaleMembers(old(Cat()), source, keys)|
    {
      var stale :=
        set k | k in members && members[k].current && k.artifact.source == source && k.artifact.path !in keys;
      assert stale == StaleMembers(Cat(), source, keys);
      var ids := set k | k in stale :: k.artifact;
      count := |stale|;
      members := map k | k in members ::
        if k.artifact in ids && members[k].current then members[k].(current := false, tombstoned := true)
        else members[k];
      artifacts := map a | a in artifacts :: if a in ids then artifacts[a].(version := None) else artifacts[a];
    }

    // ----- One source -----

    method UpsertCandidate(s: Snapshot, v: string, c: Candidate)
      modifies this`artifacts, this`members
      ensures Cat() == UpsertOne(old(Cat()), s, v, c)
    {
      UpsertArtifact(s, v, c);
      UpsertArtifactVersion(s.git, ArtifactKey(s.source, c.path), v);
    }

    /** The upsert loop, up to `n` candidates. */
    method UpsertArtifacts(s: Snapshot, v: string, n: nat)
      requires n <= |s.artifacts|
      modifies this`artifacts, this`members
      ensures Cat() == UpsertAll(old(Cat()), s, v, n)
    {
      ghost var before := Cat();
      var i := 0;
      while i < n
        invariant i <= n && Cat() == UpsertAll(before, s, v, i)
      {
        UpsertCandidate(s, v, s.artifacts[i]);
        i := i + 1;
      }
    }

    /** The catalogue step; an error leaves it half done for the caller to roll back. */
    method CatalogueStep(w: Work) returns (r: Result<(string, Stats), ()>)
      requires Sound(Cat())
      modifies this`versions, this`artifacts, this`members
      ensures r.Ok? <==>
                (w.fault.NoFault? || w.fault.BeforeWork? || w.fault.WhileFetching? || w.fault.WhileDiscovering?)
                         && RunSnapshot(old(Cat()), w.snapshot).Ok?
      ensures r.Ok? ==>
                Cat() == RunSnapshot(old(Cat()), w.snapshot).value && r.value.0 == Resolved(old(Cat()), w.snapshot)
                        && exists ds :: CompletedStats(old(Cat()), w, ds, r.value.1)
    {
      var s := w.snapshot;
      ghost var before := Cat();
      var plan, kept, gone := PlanIncremental(Cat(), s);
      var version := UpsertSourceVersion(s);
      if version.Err? { return Err(()); }
      ghost var start := Cat();
      var n := if w.fault.AfterUpserts? && w.fault.done < |s.artifacts| then w.fault.done else |s.artifacts|;
      UpsertArtifacts(s, version.value, n);
      if w.fault.AfterUpserts? { return Err(()); }
      UpsertsIgnoreVersionTable(before, start, s, version.value, n);
      TombstoneCountsAgree(before, s, Cat(), version.value, plan, kept, gone);
      PlanKeepsPaths(before, s, plan, kept, gone);
      var tombstoned := RetireArtifactsAbsentFromDiscovery(s.source, KeptKeys(plan));
      if w.fault.AfterRetire? { return Err(()); }
      var stats := Stats(w.fetched, |s.artifacts|, Count(plan, Added), Count(plan, Changed), Count(plan, Unchanged),
                         tombstoned);
      assert CompletedStats(before, w, plan, stats);
      return Ok((version.value, stats));
    }

    /** Record a stage and commit it; `start` and `since` are the run rows and commits the attempt began with. */
    method Advance(row: RunRow, ghost start: seq<RunRow>, ghost since: seq<Db>, ghost from: Catalogue,
                   ghost to: Catalogue)
      requires OnlyLastDiffers(start, runs) && CommitsAtomic(since, log, from, to) && CommitsSound(log)
      requires (Cat() == from || Cat() == to) && Sound(Cat())
      modifies this`runs, this`committed, this`log
      ensures OnlyLastDiffers(start, runs) && runs[|runs| - 1] == row
      ensures committed == Db(Cat(), runs) && log != [] && log[|log| - 1] == committed
      ensures CommitsAtomic(since, log, from, to) && CommitsSound(log)
    {
      UpdateRun(row);
      Commit();
    }

    /** The two stages committed before the catalogue is touched. */
    method FetchAndDiscover(w: Work, ghost start: seq<RunRow>, ghost since: seq<Db>, ghost from: Catalogue,
                            ghost to: Catalogue)
      returns (ok: bool)
      requires OnlyLastDiffers(start, runs) && CommitsAtomic(since, log, from, to) && CommitsSound(log)
      requires Cat() == from && Sound(from) && w.supported && w.fault != BeforeWork
      modifies this`runs, this`committed, this`log
      ensures ok <==> w.fault != WhileFetching && w.fault != WhileDiscovering
      ensures OnlyLastDiffers(start, runs) && committed == Db(Cat(), runs) && log != [] && log[|log| - 1] == committed
      ensures runs[|runs| - 1] == if ok then RunRow(w.source, Discovering, NO_STATS.(fetched := w.fetched), None, None)
                                  else FailingRow(w)
      ensures CommitsAtomic(since, log, from, to) && CommitsSound(log)
    {
      Advance(RunRow(w.source, Fetching, NO_STATS, None, None), start, since, from, to);
      if w.fault.WhileFetching? { return false; }
      Advance(RunRow(w.source, Discovering, NO_STATS.(fetched := w.fetched), None, None), start, since, from, to);
      return !w.fault.WhileDiscovering?;
    }

    /** How an attempt ends: committed with its row, or with the last stage committed and work undone. */
    ghost predicate Ends(start: seq<RunRow>, since: seq<Db>, from: Catalogue, w: Work, dryRun: bool, ok: bool)
      reads this
    {
      && ok == Completes(from, w, dryRun)
      && CommitsSound(log) && CommitsAtomic(since, log, from, CatalogueAfter(from, w, dryRun))
      && OnlyLastDiffers(start, committed.runs)
      && log != [] && log[|log| - 1] == committed
      && if ok then
           && committed == Db(Cat(), runs) && Cat() == CatalogueAfter(from, w, dryRun)
           && RecordedAs(from, w, dryRun, committed.runs[|committed.runs| - 1])
         else committed.cat == from && committed.runs[|committed.runs| - 1] == FailingRow(w)
    }

    /** The database work of a non-dry run, from `fetching` to the final commit. */
    method IngestSnapshot(w: Work, ghost start: seq<RunRow>, ghost since: seq<Db>) returns (ok: bool)
      requires Sound(Cat()) && OnlyLastDiffers(start, runs) && CommitsSound(log)
      requires CommitsAtomic(since, log, Cat(), CatalogueAfter(Cat(), w, false))
      requires w.supported && w.fault != BeforeWork
      modifies this
      ensures Ends(start, since, old(Cat()), w, false, ok)
    {
      ghost var from := Cat();
      ghost var to := CatalogueAfter(from, w, false);
      var ready := FetchAndDiscover(w, start, since, from, to);
      if !ready { return false; }
      var step := CatalogueStep(w);
      if step.Err? { return false; }
      CompletedRun(from, w.snapshot);
      var row := RunRow(w.source, Completed, step.value.1, None, Some(step.value.0));
      assert RecordedAs(from, w, false, row);
      Advance(row, start, since, from, to);
      return true;
    }

    /** Work on one source up to its final commit or the first exception. */
    method Attempt(w: Work, dryRun: bool, ghost start: seq<RunRow>, ghost since: seq<Db>) returns (ok: bool)
      requires Sound(Cat()) && OnlyLastDiffers(start, runs) && CommitsSound(log)
      requires CommitsAtomic(since, log, Cat(), CatalogueAfter(Cat(), w, dryRun))
      requires committed == Db(Cat(), runs) && log != [] && log[|log| - 1] == committed
      requires runs[|runs| - 1] == RunRow(w.source, Started, NO_STATS, None, None)
      modifies this
      ensures Ends(start, since, old(Cat()), w, dryRun, ok)
    {
      if w.fault.BeforeWork? { return false; }
      if dryRun {
        Advance(RunRow(w.source, Completed, NO_STATS, None, None), start, since, Cat(), Cat());
        return true;
      }
      if !w.supported { return false; }
      ok := IngestSnapshot(w, start, since);
    }

    /** One source from its started record to its last commit; a failure is recorded and reported. */
    method IngestSource(w: Work, dryRun: bool) returns (ok: bool)
      requires Settled()
      modifies this
      ensures Settled()
      ensures ok == Completes(old(committed.cat), w, dryRun)
      ensures committed.cat == CatalogueAfter(old(committed.cat), w, dryRun)
      ensures |committed.runs| == |old(committed.runs)| + 1 && old(committed.runs) <= committed.runs
      ensures RecordedAs(old(committed.cat), w, dryRun, committed.runs[|committed.runs| - 1])
      ensures CommitsAtomic(old(log), log, old(committed.cat), committed.cat)
    {
      ghost var since, from := log, Cat();
      RecordStart(w.source, CatalogueAfter(from, w, dryRun));
      ghost var start := runs;
      ok := Attempt(w, dryRun, start, since);
      if !ok { RecordFailure(w, dryRun, from, start, since); }
    }

    /** Commit a started record before any work; `to` is the catalogue the work aims at. */
    method RecordStart(source: string, ghost to: Catalogue)
      requires Settled()
      modifies this`runs, this`committed, this`log
      ensures runs == old(runs) + [RunRow(source, Started, NO_STATS, None, None)] && OnlyLastDiffers(runs, runs)
      ensures Sound(Cat()) && committed == Db(Cat(), runs) && log != [] && log[|log| - 1] == committed
      ensures CommitsSound(log) && CommitsAtomic(old(log), log, Cat(), to)
    {
      assert Sound(log[|log| - 1].cat);
      runs := runs + [RunRow(source, Started, NO_STATS, None, None)];
      Commit();
    }

    /** Undo the unfinished work, then commit the failure on the run's row. */
    method RecordFailure(w: Work, dryRun: bool, ghost from: Catalogue, ghost start: seq<RunRow>, ghost since: seq<Db>)
      requires Ends(start, since, from, w, dryRun, false) && Sound(from)
      modifies this
      ensures OnlyLastDiffers(start, runs) && RecordedAs(from, w, dryRun, runs[|runs| - 1])
      ensures Cat() == from && committed == Db(from, runs) && log != [] && log[|log| - 1] == committed
      ensures CommitsSound(log) && CommitsAtomic(since, log, from, CatalogueAfter(from, w, dryRun))
    {
      Rollback();
      var row := runs[|runs| - 1];
      Advance(row.(stage := Failed, failedAt := Some(row.stage)), start, since, from, CatalogueAfter(from, w, dryRun));
    }

    /** All selected sources in order; the first failure ends the call. `done` sources gave a result. */
    method RunIngestion(works: seq<Work>, dryRun: bool) returns (done: nat, raised: bool)
      requires Settled()
      modifies this
      ensures Settled() && done <= |works| && (raised <==> done < |works|)
      ensures committed.cat == CatalogueAfterAll(old(committed.cat), works[..done], dryRun)
      ensures AllComplete(old(committed.cat), works[..done], dryRun)
      ensures raised ==> !works[done].profileMatches || !Completes(committed.cat, works[done], dryRun)
      ensures old(committed.runs) <= committed.runs
      ensures |committed.runs| == |old(committed.runs)| + done + (if raised && works[done].profileMatches then 1 else 0)
    {
      ghost var start := committed.cat;
      done := 0;
      while done < |works|
        invariant Settled() && done <= |works|
        invariant committed.cat == CatalogueAfterAll(start, works[..done], dryRun)
        invariant AllComplete(start, works[..done], dryRun)
        invariant old(committed.runs) <= committed.runs && |committed.runs| == |old(committed.runs)| + done
      {
        if !works[done].profileMatches { return done, true; }
        OneMoreSource(start, works, done, dryRun);
        var ok := IngestSource(works[done], dryRun);
        if !ok { return done, true; }
        done := done + 1;
      }
      raised := false;
    }
  }

  ghost function CatalogueAfterAll(cat: Catalogue, works: seq<Work>, dryRun: bool): Catalogue {
    if works == [] then cat
    else CatalogueAfter(CatalogueAfterAll(cat, works[..|works| - 1], dryRun), works[|works| - 1], dryRun)
  }

  lemma OneMoreSource(cat: Catalogue, works: seq<Work>, n: nat, dryRun: bool)
    requires n < |works|
    ensures CatalogueAfterAll(cat, works[..n + 1], dryRun)
            == CatalogueAfter(CatalogueAfterAll(cat, works[..n], dryRun), works[n], dryRun)
    ensures AllComplete(cat, works[..n + 1], dryRun) <==>
            && AllComplete(cat, works[..n], dryRun) && works[n].profileMatches
            && Completes(CatalogueAfterAll(cat, works[..n], dryRun), works[n], dryRun)
  {
    assert works[..n + 1][..n] == works[..n] && works[..n + 1][n] == works[n];
  }

  ghost predicate AllComplete(cat: Catalogue, works: seq<Work>, dryRun: bool) {
    works == [] ||
    (&& AllComplete(cat, works[..|works| - 1], dryRun)
     && works[|works| - 1].profileMatches
     && Completes(CatalogueAfterAll(cat, works[..|works| - 1], dryRun), works[|works| - 1], dryRun))
  }

  lemma UpsertIgnoresVersionTable(before: Catalogue, start: Catalogue, s: Snapshot, v: string, c: Candidate)
    requires start.artifacts == before.artifacts && start.members == before.members
    ensures UpsertOne(start, s, v, c).artifacts == UpsertOne(before, s, v, c).artifacts
    ensures UpsertOne(start, s, v, c).members == UpsertOne(before, s, v, c).members
  {}

  lemma {:induction false} UpsertsIgnoreVersionTable(before: Catalogue, start: Catalogue, s: Snapshot, v: string,
                                                     n: nat)
    requires n <= |s.artifacts| && start.artifacts == before.artifacts && start.members == before.members
    ensures UpsertAll(start, s, v, n).artifacts == UpsertAll(before, s, v, n).artifacts
    ensures UpsertAll(start, s, v, n).members == UpsertAll(before, s, v, n).members
  {
    if n > 0 {
      UpsertsIgnoreVersionTable(before, start, s, v, n - 1);
      UpsertIgnoresVersionTable(UpsertAll(before, s, v, n - 1), UpsertAll(start, s, v, n - 1), s, v,
                                s.artifacts[n - 1]);
    }
  }
}
