/** The incremental plan made before a run writes anything, and how it agrees with what the run does. */
module Incremental {
  import opened Ordering
  import opened CatalogueTables
  import opened CatalogueRuns

  datatype Status = Added | Changed | Unchanged | Tombstoned

  datatype Decision = Decision(locator: string, status: Status, checksum: Option<string>, previous: Option<string>)

  function Decide(current: Candidate, previous: Option<Artifact>): Decision {
    if previous.None? || previous.value.version.None? then
      Decision(current.path, Added, Some(current.checksum), None)
    else if previous.value.checksum == current.checksum && previous.value.profile == current.profile
            && previous.value.eligibility == LabelOf(current) then
      Decision(current.path, Unchanged, Some(current.checksum), None)
    else Decision(current.path, Changed, Some(current.checksum), Some(previous.value.checksum))
  }

  function Previous(cat: Catalogue, a: ArtifactKey): Option<Artifact> {
    if a in cat.artifacts then Some(cat.artifacts[a]) else None
  }

  predicate Gone(cat: Catalogue, s: Snapshot, path: string) {
    && path !in Paths(s)
    && ArtifactKey(s.source, path) in cat.artifacts
    && cat.artifacts[ArtifactKey(s.source, path)].version.Some?
  }

  function TombstoneFor(cat: Catalogue, a: ArtifactKey): Decision
    requires a in cat.artifacts
  {
    Decision(a.path, Tombstoned, None, Some(cat.artifacts[a].checksum))
  }

  ghost predicate KeptDecision(cat: Catalogue, s: Snapshot, path: string, d: Decision) {
    path in Paths(s) && d == Decide(LastFor(s.artifacts, path), Previous(cat, ArtifactKey(s.source, path)))
  }

  ghost predicate GoneDecision(cat: Catalogue, s: Snapshot, path: string, d: Decision) {
    Gone(cat, s, path) && d == TombstoneFor(cat, ArtifactKey(s.source, path))
  }

  /** Decisions for the snapshot's paths in order, then for the vanished ones in order. */
  ghost predicate IsPlan(cat: Catalogue, s: Snapshot, ds: seq<Decision>, kept: seq<string>, gone: seq<string>) {
    && StrictlyAscending(StringLess, kept) && (forall p :: p in kept <==> p in Paths(s))
    && StrictlyAscending(StringLess, gone) && (forall p :: p in gone <==> Gone(cat, s, p))
    && |ds| == |kept| + |gone|
    && (forall i :: 0 <= i < |kept| ==> KeptDecision(cat, s, kept[i], ds[..|kept|][i]))
    && (forall i :: 0 <= i < |gone| ==> GoneDecision(cat, s, gone[i], ds[|kept|..][i]))
  }

  ghost predicate PlanOf(cat: Catalogue, s: Snapshot, ds: seq<Decision>) {
    exists kept, gone :: IsPlan(cat, s, ds, kept, gone)
  }

  function Count(ds: seq<Decision>, status: Status): nat {
    if ds == [] then 0 else (if ds[0].status == status then 1 else 0) + Count(ds[1..], status)
  }

  function KeptKeys(ds: seq<Decision>): set<string> {
    set i | 0 <= i < |ds| && ds[i].status != Tombstoned :: ds[i].locator
  }

  ghost predicate LatestOf(cs: seq<Candidate>, latest: map<string, Candidate>) {
    && (forall p :: p in latest <==> exists j :: 0 <= j < |cs| && cs[j].path == p)
    && forall p :: p in latest ==> latest[p] == LastFor(cs, p)
  }

  lemma LatestNext(cs: seq<Candidate>, c: Candidate, latest: map<string, Candidate>)
    requires LatestOf(cs, latest)
    ensures LatestOf(cs + [c], latest[c.path := c])
  {
    var more := cs + [c];
    assert more[..|cs|] == cs && more[|cs|] == c;
    assert forall j :: 0 <= j < |cs| ==> more[j] == cs[j];
  }

  method LatestByPath(s: Snapshot) returns (latest: map<string, Candidate>)
    ensures latest.Keys == Paths(s)
    ensures forall p :: p in latest ==> latest[p] == LastFor(s.artifacts, p)
  {
    latest := map[];
    for i := 0 to |s.artifacts|
      invariant LatestOf(s.artifacts[..i], latest)
    {
      LatestNext(s.artifacts[..i], s.artifacts[i], latest);
      assert s.artifacts[..i + 1] == s.artifacts[..i] + [s.artifacts[i]];
      latest := latest[s.artifacts[i].path := s.artifacts[i]];
    }
    assert s.artifacts[..|s.artifacts|] == s.artifacts;
  }

  method KeptDecisions(cat: Catalogue, s: Snapshot, latest: map<string, Candidate>, current: seq<string>)
    returns (ds: seq<Decision>)
    requires latest.Keys == Paths(s) && forall p :: p in latest ==> latest[p] == LastFor(s.artifacts, p)
    requires forall i :: 0 <= i < |current| ==> current[i] in latest
    ensures |ds| == |current| && forall i :: 0 <= i < |ds| ==> KeptDecision(cat, s, current[i], ds[i])
  {
    ds := [];
    for i := 0 to |current|
      invariant |ds| == i && forall j :: 0 <= j < i ==> KeptDecision(cat, s, current[j], ds[j])
    {
      ds := ds + [Decide(latest[current[i]], Previous(cat, ArtifactKey(s.source, current[i])))];
    }
  }

  method Tombstones(cat: Catalogue, s: Snapshot, vanished: seq<string>)
    returns (ds: seq<Decision>, ghost gone: seq<string>)
    requires StrictlyAscending(StringLess, vanished)
    requires forall i :: 0 <= i < |vanished| ==>
               ArtifactKey(s.source, vanished[i]) in cat.artifacts && vanished[i] !in Paths(s)
    ensures StrictlyAscending(StringLess, gone) && forall p :: p in gone <==> p in vanished && Gone(cat, s, p)
    ensures |ds| == |gone| && forall i :: 0 <= i < |gone| ==> GoneDecision(cat, s, gone[i], ds[i])
  {
    ds, gone := [], [];
    for i := 0 to |vanished|
      invariant StrictlyAscending(StringLess, gone)
      invariant forall p :: p in gone <==> p in vanished[..i] && Gone(cat, s, p)
      invariant |ds| == |gone| && forall j :: 0 <= j < |gone| ==> GoneDecision(cat, s, gone[j], ds[j])
    {
      var path := vanished[i];
      assert vanished[..i + 1] == vanished[..i] + [path];
      if cat.artifacts[ArtifactKey(s.source, path)].version.Some? {
        forall j | 0 <= j < |gone| ensures StringLess(gone[j], path) {
          assert gone[j] in vanished[..i];
        }
        ds, gone := ds + [TombstoneFor(cat, ArtifactKey(s.source, path))], gone + [path];
      }
    }
    assert vanished[..|vanished|] == vanished;
  }

  method PlanIncremental(cat: Catalogue, s: Snapshot)
    returns (ds: seq<Decision>, ghost kept: seq<string>, ghost gone: seq<string>)
    ensures IsPlan(cat, s, ds, kept, gone) && PlanOf(cat, s, ds)
  {
    var latest := LatestByPath(s);
    var current := SortedStrings(latest.Keys);
    kept := current;
    forall i | 0 <= i < |current| ensures current[i] in latest { assert current[i] in current; }
    var decisions := KeptDecisions(cat, s, latest, current);
    var vanished := SortedStrings(set a | a in cat.artifacts && a.source == s.source && a.path !in latest :: a.path);
    forall i | 0 <= i < |vanished|
      ensures ArtifactKey(s.source, vanished[i]) in cat.artifacts && vanished[i] !in Paths(s)
    {
      assert vanished[i] in vanished;
    }
    var tombstones;
    tombstones, gone := Tombstones(cat, s, vanished);
    forall p ensures p in gone <==> Gone(cat, s, p) {
      if Gone(cat, s, p) { assert ArtifactKey(s.source, p) in cat.artifacts; }
    }
    ds := decisions + tombstones;
    assert ds[..|kept|] == decisions && ds[|kept|..] == tombstones;
    assert IsPlan(cat, s, ds, kept, gone);
  }

  // ----- What the decisions say -----

  lemma {:induction false} CountConstant(ds: seq<Decision>, status: Status, all: bool)
    requires forall i :: 0 <= i < |ds| ==> (ds[i].status == status <==> all)
    ensures Count(ds, status) == if all then |ds| else 0
  {
    if ds != [] { CountConstant(ds[1..], status, all); }
  }

  lemma {:induction false} CountSplits(a: seq<Decision>, b: seq<Decision>, status: Status)
    ensures Count(a + b, status) == Count(a, status) + Count(b, status)
  {
    if a == [] {
      assert a + b == b;
    } else {
      assert (a + b)[1..] == a[1..] + b;
      CountSplits(a[1..], b, status);
    }
  }

  lemma CountTail(ds: seq<Decision>, n: nat, status: Status)
    requires n <= |ds| && forall i :: 0 <= i < |ds| ==> (ds[i].status == status <==> i >= n)
    ensures Count(ds, status) == |ds| - n
  {
    assert ds == ds[..n] + ds[n..];
    CountSplits(ds[..n], ds[n..], status);
    CountConstant(ds[..n], status, false);
    CountConstant(ds[n..], status, true);
  }

  lemma PlanStatuses(cat: Catalogue, s: Snapshot, ds: seq<Decision>, kept: seq<string>, gone: seq<string>, i: nat)
    requires IsPlan(cat, s, ds, kept, gone) && i < |ds|
    ensures ds[i].status == Tombstoned <==> i >= |kept|
    ensures i < |kept| ==> ds[i].locator == kept[i]
  {
    if i < |kept| {
      assert KeptDecision(cat, s, kept[i], ds[..|kept|][i]);
    } else {
      assert GoneDecision(cat, s, gone[i - |kept|], ds[|kept|..][i - |kept|]);
    }
  }

  lemma PlanCountsGone(cat: Catalogue, s: Snapshot, ds: seq<Decision>, kept: seq<string>, gone: seq<string>)
    requires IsPlan(cat, s, ds, kept, gone)
    ensures Count(ds, Tombstoned) == |gone|
  {
    forall i | 0 <= i < |ds| ensures ds[i].status == Tombstoned <==> i >= |kept| {
      PlanStatuses(cat, s, ds, kept, gone, i);
    }
    CountTail(ds, |kept|, Tombstoned);
  }

  /** The keys handed to the retire step are exactly the snapshot's paths. */
  lemma PlanKeepsPaths(cat: Catalogue, s: Snapshot, ds: seq<Decision>, kept: seq<string>, gone: seq<string>)
    requires IsPlan(cat, s, ds, kept, gone)
    ensures KeptKeys(ds) == Paths(s)
  {
    forall i | 0 <= i < |ds|
      ensures ds[i].status == Tombstoned <==> i >= |kept|
      ensures i < |kept| ==> ds[i].locator == kept[i]
    {
      PlanStatuses(cat, s, ds, kept, gone, i);
    }
    forall p ensures p in KeptKeys(ds) <==> p in kept {
      if p in kept {
        var i :| 0 <= i < |kept| && kept[i] == p;
        assert ds[i].locator == p;
      }
    }
  }

  /** One artifact out of the snapshot with a version pointer for each of its current memberships. */
  lemma StaleMembersAreGone(cat: Catalogue, s: Snapshot, gone: set<string>)
    requires PointersAgree(cat) && forall p :: p in gone <==> Gone(cat, s, p)
    ensures |StaleMembers(cat, s.source, Paths(s))| == |gone|
  {
    var stale := StaleMembers(cat, s.source, Paths(s));
    var pathOf := (k: MemberKey) => k.artifact.path;
    var memberOf := (p: string) requires Gone(cat, s, p) =>
      MemberKey(ArtifactKey(s.source, p), cat.artifacts[ArtifactKey(s.source, p)].version.value);
    forall k | k in stale
      ensures Gone(cat, s, k.artifact.path) && k == memberOf(k.artifact.path)
    {
      assert k == MemberKey(k.artifact, k.version) && k.artifact == ArtifactKey(s.source, k.artifact.path);
      assert IsCurrent(cat, k.artifact, k.version);
    }
    forall p | p in gone ensures memberOf(p) in stale {
      assert IsCurrent(cat, ArtifactKey(s.source, p), cat.artifacts[ArtifactKey(s.source, p)].version.value);
    }
    forall j, k | j in stale && k in stale && pathOf(j) == pathOf(k) ensures j == k {
      assert j == memberOf(j.artifact.path) && k == memberOf(k.artifact.path);
    }
    InjectionBound(stale, pathOf, gone);
    InjectionBound(gone, memberOf, stale);
  }

  /**
   The plan counts version pointers before the upserts; retirement counts current memberships
   after them. In every sound catalogue the two numbers are the same.
   */
  lemma TombstoneCountsAgree(cat: Catalogue, s: Snapshot, mid: Catalogue, v: string,
                             ds: seq<Decision>, kept: seq<string>, gone: seq<string>)
    requires Sound(cat) && IsPlan(cat, s, ds, kept, gone)
    requires mid.artifacts == UpsertAll(cat, s, v, |s.artifacts|).artifacts
    requires mid.members == UpsertAll(cat, s, v, |s.artifacts|).members
    ensures |StaleMembers(mid, s.source, KeptKeys(ds))| == Count(ds, Tombstoned)
  {
    PlanCountsGone(cat, s, ds, kept, gone);
    PlanKeepsPaths(cat, s, ds, kept, gone);
    UpsertAllKeyByKey(cat, s, v, |s.artifacts|);
    StaleIgnoresUpserts(cat, s, mid, v);
    var goneSet := set p | p in gone;
    StringLessTotal();
    forall i, j | 0 <= i < j < |gone| ensures gone[i] != gone[j] { assert StringLess(gone[i], gone[j]); }
    DistinctCardinality(gone);
    StaleMembersAreGone(cat, s, goneSet);
  }

  lemma RerunDecision(cat: Catalogue, s: Snapshot, after: Catalogue, path: string, d: Decision)
    requires RanTo(cat, s, after) && KeptDecision(after, s, path, d)
    ensures d.status == Unchanged
  {
    var a := ArtifactKey(s.source, path);
    HoldsByPath(s, a);
    assert after.artifacts[a] == RunArtifact(cat, s, a);
  }

  lemma RerunLosesNothing(cat: Catalogue, s: Snapshot, after: Catalogue, path: string)
    requires RanTo(cat, s, after)
    ensures !Gone(after, s, path)
  {
    var a := ArtifactKey(s.source, path);
    HoldsByPath(s, a);
    if a in after.artifacts { assert after.artifacts[a] == RunArtifact(cat, s, a); }
  }

  /** Planning the snapshot just ingested finds every path unchanged and nothing to retire. */
  lemma RerunPlansUnchanged(cat: Catalogue, s: Snapshot, ds: seq<Decision>, kept: seq<string>, gone: seq<string>)
    requires Sound(cat) && RunSnapshot(cat, s).Ok?
    requires IsPlan(RunSnapshot(cat, s).value, s, ds, kept, gone)
    ensures gone == [] && forall i :: 0 <= i < |ds| ==> ds[i].status == Unchanged
  {
    RunKeyByKey(cat, s);
    PlanAfterRun(cat, s, RunSnapshot(cat, s).value, ds, kept, gone);
  }

  lemma PlanAfterRun(cat: Catalogue, s: Snapshot, after: Catalogue, ds: seq<Decision>, kept: seq<string>,
                     gone: seq<string>)
    requires RanTo(cat, s, after) && IsPlan(after, s, ds, kept, gone)
    ensures gone == [] && forall i :: 0 <= i < |ds| ==> ds[i].status == Unchanged
  {
    if gone != [] {
      var p := gone[0];
      assert p in gone;
      RerunLosesNothing(cat, s, after, p);
    }
    forall i | 0 <= i < |kept| ensures ds[i].status == Unchanged {
      RerunDecision(cat, s, after, kept[i], ds[..|kept|][i]);
    }
  }

  /** A decision reads the catalogue as memberships: added means none current, unchanged means same content. */
  lemma DecisionMeaning(cat: Catalogue, s: Snapshot, path: string)
    requires Sound(cat) && path in Paths(s)
    ensures var a, c := ArtifactKey(s.source, path), LastFor(s.artifacts, path);
            var d := Decide(c, Previous(cat, a));
            && d.locator == path && d.checksum == Some(c.checksum)
            && (d.status == Added <==> forall v :: !IsCurrent(cat, a, v))
            && (d.status == Unchanged <==>
                  (exists v :: IsCurrent(cat, a, v))
                  && cat.artifacts[a].checksum == c.checksum && cat.artifacts[a].profile == c.profile
                  && cat.artifacts[a].eligibility == LabelOf(c))
            && (d.status == Changed <==> d.status != Added && d.status != Unchanged)
  {
    var a := ArtifactKey(s.source, path);
    if a in cat.artifacts && cat.artifacts[a].version.Some? {
      assert IsCurrent(cat, a, cat.artifacts[a].version.value);
    }
  }

  // ----- The plan compares snapshots -----

  /** The candidates say the same, their labels included. */
  predicate SameContent(c: Candidate, d: Candidate) {
    && c.checksum == d.checksum && c.profile == d.profile
    && (c.eligibility == d.eligibility || (Unlabelled(c) && Unlabelled(d)))
  }

  /** What to do with a path that is in the new snapshot, from what was ingested before. */
  ghost predicate ComparesTo(before: Snapshot, c: Candidate, d: Decision) {
    && d.locator == c.path && d.checksum == Some(c.checksum)
    && (c.path !in Paths(before) ==> d.status == Added && d.previous == None)
    && forall i: nat :: LastOfPath(before.artifacts, i) && before.artifacts[i].path == c.path ==>
         if SameContent(before.artifacts[i], c) then d.status == Unchanged && d.previous == None
         else d.status == Changed && d.previous == Some(before.artifacts[i].checksum)
  }

  lemma PathRow(cat: Catalogue, before: Snapshot, i: nat)
    requires Sound(cat) && RunSnapshot(cat, before).Ok? && LastOfPath(before.artifacts, i)
    ensures var after, a := RunSnapshot(cat, before).value, ArtifactKey(before.source, before.artifacts[i].path);
            a in after.artifacts && exists v :: RowHolds(after.artifacts[a], before.artifacts[i], v)
  {
    CompletedRun(cat, before);
    RowsHoldSnapshot(cat, before, i, Resolved(cat, before));
  }

  lemma NoRowToKeep(cat: Catalogue, before: Snapshot, path: string)
    requires Sound(cat) && RunSnapshot(cat, before).Ok? && path !in Paths(before)
    ensures var after, a := RunSnapshot(cat, before).value, ArtifactKey(before.source, path);
            a in after.artifacts ==> after.artifacts[a].version.None?
  {
    RunKeyByKey(cat, before);
    HoldsByPath(before, ArtifactKey(before.source, path));
  }

  lemma {:induction false} PathHasLast(cs: seq<Candidate>, path: string) returns (i: nat)
    requires exists j :: 0 <= j < |cs| && cs[j].path == path
    ensures LastOfPath(cs, i) && cs[i].path == path
    decreases |cs|
  {
    var last := |cs| - 1;
    if cs[last].path == path {
      i := last;
    } else {
      i := PathHasLast(cs[..last], path);
    }
  }

  lemma RowDecides(row: Artifact, was: Candidate, v: string, c: Candidate)
    requires RowHolds(row, was, v)
    ensures var d := Decide(c, Some(row));
            if SameContent(was, c) then d.status == Unchanged && d.previous == None
            else d.status == Changed && d.previous == Some(was.checksum)
  {}

  lemma KeptCompares(cat: Catalogue, before: Snapshot, s: Snapshot, i: nat, d: Decision)
    requires Sound(cat) && RunSnapshot(cat, before).Ok? && s.source == before.source && LastOfPath(s.artifacts, i)
    requires KeptDecision(RunSnapshot(cat, before).value, s, s.artifacts[i].path, d)
    ensures ComparesTo(before, s.artifacts[i], d)
  {
    var c, after := s.artifacts[i], RunSnapshot(cat, before).value;
    LastForIs(s.artifacts, i);
    if c.path !in Paths(before) { NoRowToKeep(cat, before, c.path); }
    forall j: nat | LastOfPath(before.artifacts, j) && before.artifacts[j].path == c.path
      ensures if SameContent(before.artifacts[j], c) then d.status == Unchanged && d.previous == None
              else d.status == Changed && d.previous == Some(before.artifacts[j].checksum)
    {
      PathRow(cat, before, j);
      var row := after.artifacts[ArtifactKey(before.source, c.path)];
      var v :| RowHolds(row, before.artifacts[j], v);
      RowDecides(row, before.artifacts[j], v, c);
    }
  }

  /** A path that was ingested before and is no longer there. */
  ghost predicate RetiresFrom(before: Snapshot, s: Snapshot, d: Decision) {
    && d.locator in Paths(before) && d.locator !in Paths(s) && d.status == Tombstoned && d.checksum == None
    && forall i: nat :: LastOfPath(before.artifacts, i) && before.artifacts[i].path == d.locator ==>
         d.previous == Some(before.artifacts[i].checksum)
  }

  lemma GoneRetires(cat: Catalogue, before: Snapshot, s: Snapshot, path: string, d: Decision)
    requires Sound(cat) && RunSnapshot(cat, before).Ok? && s.source == before.source
    requires GoneDecision(RunSnapshot(cat, before).value, s, path, d)
    ensures RetiresFrom(before, s, d) && d.locator == path
  {
    if path !in Paths(before) { NoRowToKeep(cat, before, path); }
    forall i: nat | LastOfPath(before.artifacts, i) && before.artifacts[i].path == path
      ensures d.previous == Some(before.artifacts[i].checksum)
    {
      PathRow(cat, before, i);
    }
  }

  lemma StillThereIsGone(cat: Catalogue, before: Snapshot, s: Snapshot, path: string)
    requires Sound(cat) && RunSnapshot(cat, before).Ok? && s.source == before.source
    ensures Gone(RunSnapshot(cat, before).value, s, path) <==> path in Paths(before) && path !in Paths(s)
  {
    if path in Paths(before) {
      var i := PathHasLast(before.artifacts, path);
      PathRow(cat, before, i);
    } else {
      NoRowToKeep(cat, before, path);
    }
  }

  /**
   The plan made after a run compares the two snapshots: it first has, in path order, each path of the new
   one as added, unchanged or changed, then, in path order, those of the old one that are gone.
   */
  lemma PlanComparesSnapshots(cat: Catalogue, before: Snapshot, s: Snapshot, ds: seq<Decision>, kept: seq<string>,
                              gone: seq<string>)
    requires Sound(cat) && RunSnapshot(cat, before).Ok? && s.source == before.source
    requires IsPlan(RunSnapshot(cat, before).value, s, ds, kept, gone)
    ensures forall p :: p in kept <==> p in Paths(s)
    ensures forall p :: p in gone <==> p in Paths(before) && p !in Paths(s)
    ensures |ds| == |kept| + |gone| && StrictlyAscending(StringLess, kept) && StrictlyAscending(StringLess, gone)
    ensures forall i, j: nat :: 0 <= i < |kept| && LastOfPath(s.artifacts, j) && s.artifacts[j].path == kept[i] ==>
              ComparesTo(before, s.artifacts[j], ds[i])
    ensures forall i :: 0 <= i < |gone| ==>
              RetiresFrom(before, s, ds[|kept| + i]) && ds[|kept| + i].locator == gone[i]
  {
    forall p { StillThereIsGone(cat, before, s, p); }
    forall i, j: nat | 0 <= i < |kept| && LastOfPath(s.artifacts, j) && s.artifacts[j].path == kept[i]
      ensures ComparesTo(before, s.artifacts[j], ds[i])
    {
      assert ds[..|kept|][i] == ds[i];
      KeptCompares(cat, before, s, j, ds[i]);
    }
    forall i | 0 <= i < |gone|
      ensures RetiresFrom(before, s, ds[|kept| + i]) && ds[|kept| + i].locator == gone[i]
    {
      assert ds[|kept|..][i] == ds[|kept| + i];
      GoneRetires(cat, before, s, gone[i], ds[|kept| + i]);
    }
  }
}
