/** What the record of a run says: its counts against the catalogue it started from, its stage against the fault. */
module IngestionRecords {
  import opened Ordering
  import opened CatalogueTables
  import opened CatalogueRuns
  import opened Incremental
  import opened IngestionPipeline

  /** The path has a current membership of its source. */
  ghost predicate Listed(cat: Catalogue, source: string, path: string) {
    exists v :: IsCurrent(cat, ArtifactKey(source, path), v)
  }

  /** The row says what the candidate says; without a label both say "unknown". */
  predicate SaysTheSame(row: Artifact, c: Candidate) {
    && row.checksum == c.checksum && row.profile == c.profile
    && if Unlabelled(c) then row.eligibility == "unknown" else c.eligibility == Some(row.eligibility)
  }

  ghost predicate AsStored(cat: Catalogue, s: Snapshot, path: string)
    requires path in Paths(s)
  {
    && ArtifactKey(s.source, path) in cat.artifacts
    && SaysTheSame(cat.artifacts[ArtifactKey(s.source, path)], LastFor(s.artifacts, path))
  }

  ghost function NewPaths(cat: Catalogue, s: Snapshot): set<string> {
    set p | p in Paths(s) && !Listed(cat, s.source, p)
  }

  ghost function SamePaths(cat: Catalogue, s: Snapshot): set<string> {
    set p | p in Paths(s) && Listed(cat, s.source, p) && AsStored(cat, s, p)
  }

  ghost function EditedPaths(cat: Catalogue, s: Snapshot): set<string> {
    set p | p in Paths(s) && Listed(cat, s.source, p) && !AsStored(cat, s, p)
  }

  ghost function LostPaths(cat: Catalogue, s: Snapshot): set<string> {
    set a | a in cat.artifacts && a.source == s.source && a.path !in Paths(s) && Listed(cat, s.source, a.path) :: a.path
  }

  // ----- The counts -----

  lemma {:induction false} CountNames(ds: seq<Decision>, names: seq<string>, status: Status, named: set<string>)
    requires |ds| == |names| && Distinct(names)
    requires forall p :: p in named <==> exists i :: 0 <= i < |ds| && names[i] == p && ds[i].status == status
    ensures Count(ds, status) == |named|
  {
    if ds == [] {
      assert named == {};
    } else {
      var rest := named - {names[0]};
      forall p ensures p in rest <==>
                         exists i :: 0 <= i < |ds[1..]| && names[1..][i] == p && ds[1..][i].status == status
      {
        if p in rest {
          var i :| 0 <= i < |ds| && names[i] == p && ds[i].status == status;
          assert names[1..][i - 1] == p && ds[1..][i - 1].status == status;
        }
        if i :| 0 <= i < |ds[1..]| && names[1..][i] == p && ds[1..][i].status == status {
          assert names[i + 1] == p && ds[i + 1].status == status;
        }
      }
      FirstNamed(ds, names, status, named);
      CountNames(ds[1..], names[1..], status, rest);
    }
  }

  lemma FirstNamed(ds: seq<Decision>, names: seq<string>, status: Status, named: set<string>)
    requires |ds| == |names| && Distinct(names) && ds != []
    requires forall p :: p in named <==> exists i :: 0 <= i < |ds| && names[i] == p && ds[i].status == status
    ensures names[0] in named <==> ds[0].status == status
    ensures |named| == |named - {names[0]}| + if ds[0].status == status then 1 else 0
  {
    assert names[0] in named <==> ds[0].status == status;
  }

  lemma KeptStatus(cat: Catalogue, s: Snapshot, p: string, d: Decision)
    requires Sound(cat) && KeptDecision(cat, s, p, d)
    ensures d.status == Added <==> p in NewPaths(cat, s)
    ensures d.status == Unchanged <==> p in SamePaths(cat, s)
    ensures d.status == Changed <==> p in EditedPaths(cat, s)
    ensures d.status != Tombstoned
  {
    DecisionMeaning(cat, s, p);
    if Listed(cat, s.source, p) {
      var v :| IsCurrent(cat, ArtifactKey(s.source, p), v);
    }
  }

  lemma AscendingNames(names: seq<string>)
    requires StrictlyAscending(StringLess, names)
    ensures Distinct(names)
  {
    StringLessTotal();
    forall i, j | 0 <= i < j < |names| ensures names[i] != names[j] { assert StringLess(names[i], names[j]); }
  }

  /** Of the decisions on kept paths those of one status are of these paths. */
  lemma KeptCount(cat: Catalogue, s: Snapshot, ds: seq<Decision>, kept: seq<string>, gone: seq<string>,
                  status: Status, named: set<string>)
    requires Sound(cat) && IsPlan(cat, s, ds, kept, gone) && status != Tombstoned
    requires forall p, d :: KeptDecision(cat, s, p, d) ==> (d.status == status <==> p in named)
    requires forall p :: p in named ==> p in Paths(s)
    ensures Count(ds, status) == |named|
  {
    AscendingNames(kept);
    forall p ensures p in named <==>
                       exists i :: 0 <= i < |ds[..|kept|]| && kept[i] == p && ds[..|kept|][i].status == status
    {
      if p in named {
        assert p in kept;
        var i :| 0 <= i < |kept| && kept[i] == p;
        assert KeptDecision(cat, s, kept[i], ds[..|kept|][i]);
      }
    }
    CountNames(ds[..|kept|], kept, status, named);
    forall i | 0 <= i < |ds[|kept|..]| ensures ds[|kept|..][i].status != status {
      assert GoneDecision(cat, s, gone[i], ds[|kept|..][i]);
    }
    CountConstant(ds[|kept|..], status, false);
    CountSplits(ds[..|kept|], ds[|kept|..], status);
    assert ds == ds[..|kept|] + ds[|kept|..];
  }

  lemma GoneIsLost(cat: Catalogue, s: Snapshot, p: string)
    requires Sound(cat)
    ensures Gone(cat, s, p) <==> p in LostPaths(cat, s)
  {
    var a := ArtifactKey(s.source, p);
    if Gone(cat, s, p) {
      assert IsCurrent(cat, a, cat.artifacts[a].version.value);
      assert a.path == p;
    }
    if p in LostPaths(cat, s) {
      var v :| IsCurrent(cat, a, v);
    }
  }

  lemma GoneCount(cat: Catalogue, s: Snapshot, ds: seq<Decision>, kept: seq<string>, gone: seq<string>)
    requires Sound(cat) && IsPlan(cat, s, ds, kept, gone)
    ensures Count(ds, Tombstoned) == |LostPaths(cat, s)|
  {
    PlanCountsGone(cat, s, ds, kept, gone);
    AscendingNames(gone);
    DistinctCardinality(gone);
    forall p ensures p in gone <==> p in LostPaths(cat, s) { GoneIsLost(cat, s, p); }
    assert (set p | p in gone) == LostPaths(cat, s);
  }

  /** The counts of a completed run: of paths new to the catalogue, stored as they are, edited, and lost. */
  ghost predicate CountsTell(cat: Catalogue, w: Work, stats: Stats) {
    && stats.fetched == w.fetched && stats.discovered == |w.snapshot.artifacts|
    && stats.added == |NewPaths(cat, w.snapshot)| && stats.same == |SamePaths(cat, w.snapshot)|
    && stats.changed == |EditedPaths(cat, w.snapshot)| && stats.tombstoned == |LostPaths(cat, w.snapshot)|
  }

  lemma StatsTell(cat: Catalogue, w: Work, ds: seq<Decision>, stats: Stats)
    requires Sound(cat) && CompletedStats(cat, w, ds, stats)
    ensures CountsTell(cat, w, stats)
  {
    var s := w.snapshot;
    var kept, gone :| IsPlan(cat, s, ds, kept, gone);
    forall p, d | KeptDecision(cat, s, p, d)
      ensures d.status == Added <==> p in NewPaths(cat, s)
      ensures d.status == Unchanged <==> p in SamePaths(cat, s)
      ensures d.status == Changed <==> p in EditedPaths(cat, s)
    {
      KeptStatus(cat, s, p, d);
    }
    KeptCount(cat, s, ds, kept, gone, Added, NewPaths(cat, s));
    KeptCount(cat, s, ds, kept, gone, Unchanged, SamePaths(cat, s));
    KeptCount(cat, s, ds, kept, gone, Changed, EditedPaths(cat, s));
    GoneCount(cat, s, ds, kept, gone);
  }

  // ----- The record -----

  /** The label is known to the source already, or its version identifier is free. */
  ghost predicate VersionFree(cat: Catalogue, s: Snapshot) {
    (exists j :: Labels(cat.versions, j, s.source, s.tag)) || s.versionId !in cat.versions
  }

  /** The last stage reached, and the fetched files counted only once fetching is over. */
  predicate StoppedAt(w: Work, dryRun: bool, stage: Stage, stats: Stats) {
    && (stage == Started <==> w.fault.BeforeWork? || !w.supported)
    && (stage == Fetching <==> w.supported && w.fault.WhileFetching?)
    && stage in {Started, Fetching, Discovering}
    && stats == Stats(if stage == Discovering then w.fetched else 0, 0, 0, 0, 0, 0)
  }

  /**
   The record of a run on a sound catalogue: completed, with the counts of what changed and the version that is
   current afterwards, unless a fault, an unsupported source or a taken version identifier stopped it; then
   failed, with the stage it stopped at. A dry run stops only for a fault before any work and counts nothing.
   */
  lemma RecordTells(cat: Catalogue, w: Work, dryRun: bool, row: RunRow)
    requires Sound(cat) && RecordedAs(cat, w, dryRun, row)
    ensures row.source == w.source && row.stage in {Completed, Failed}
    ensures row.stage == Failed <==>
              if dryRun then w.fault.BeforeWork? else !w.fault.NoFault? || !w.supported || !VersionFree(cat, w.snapshot)
    ensures row.stage == Failed ==>
              row.version == None && row.failedAt.Some? && StoppedAt(w, dryRun, row.failedAt.value, row.stats)
    ensures row.stage == Completed && dryRun ==> row == RunRow(w.source, Completed, Stats(0, 0, 0, 0, 0, 0), None, None)
    ensures row.stage == Completed && !dryRun ==>
              && row.failedAt == None && CountsTell(cat, w, row.stats) && row.version.Some?
              && var after := CatalogueAfter(cat, w, dryRun);
                 CurrentVersion(after.versions, w.snapshot.source, row.version.value)
                 && Labels(after.versions, row.version.value, w.snapshot.source, w.snapshot.tag)
  {
    RunKeyByKey(cat, w.snapshot);
    CompletedRun(cat, w.snapshot);
    if row.stage == Completed && !dryRun {
      var ds :| CompletedStats(cat, w, ds, row.stats);
      StatsTell(cat, w, ds, row.stats);
    }
  }
}
