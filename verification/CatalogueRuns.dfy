/** What one completed run does to every row, the invariants it keeps, and what a history of runs adds up to. */
module CatalogueRuns {
  import opened Ordering
  import opened CatalogueTables

  // ----- Versions -----

  ghost predicate VersionsAfter(cat: Catalogue, s: Snapshot, versions: map<string, Version>) {
    var v := Resolved(cat, s);
    && UniqueLabels(versions) && OneCurrentVersion(versions)
    && Labels(versions, v, s.source, s.tag)
    && (forall j :: CurrentVersion(versions, s.source, j) <==> j == v)
    && (forall j :: j in versions <==> j in cat.versions || j == v)
    && (forall j :: j in cat.versions ==>
         versions[j].source == cat.versions[j].source && versions[j].tag == cat.versions[j].tag)
    && (forall j :: j in cat.versions && cat.versions[j].source != s.source ==> versions[j] == cat.versions[j])
  }

  lemma UpsertVersionSwitches(cat: Catalogue, s: Snapshot)
    requires UniqueLabels(cat.versions) && OneCurrentVersion(cat.versions)
    ensures var r := UpsertVersion(cat, s);
            && (r.Ok? ==> VersionsAfter(cat, s, r.value))
            && (r.Err? <==> FindVersion(cat.versions, s.source, s.tag).None? && s.versionId in cat.versions)
  {
    var r, v := UpsertVersion(cat, s), Resolved(cat, s);
    if r.Ok? {
      var inserted := if v in cat.versions then cat.versions else cat.versions[v := Version(s.source, s.tag, false)];
      VersionInserted(cat, s, inserted);
      assert r.value == SwitchCurrent(inserted, s.source, v);
      VersionSwitched(cat, s, inserted);
    }
  }

  lemma VersionInserted(cat: Catalogue, s: Snapshot, inserted: map<string, Version>)
    requires UniqueLabels(cat.versions) && OneCurrentVersion(cat.versions) && UpsertVersion(cat, s).Ok?
    requires var v := Resolved(cat, s);
             inserted == if v in cat.versions then cat.versions else cat.versions[v := Version(s.source, s.tag, false)]
    ensures UniqueLabels(inserted) && Labels(inserted, Resolved(cat, s), s.source, s.tag)
    ensures forall j, source :: CurrentVersion(inserted, source, j) <==> CurrentVersion(cat.versions, source, j)
  {
    var v := Resolved(cat, s);
    if FindVersion(cat.versions, s.source, s.tag).None? {
      assert forall j :: !Labels(cat.versions, j, s.source, s.tag);
      assert forall j, source, tag :: Labels(inserted, j, source, tag) <==>
        Labels(cat.versions, j, source, tag) || (j == v && source == s.source && tag == s.tag);
      assert forall j :: j in cat.versions ==>
        inserted[j] == cat.versions[j] && Labels(cat.versions, j, inserted[j].source, inserted[j].tag);
    }
  }

  lemma VersionSwitched(cat: Catalogue, s: Snapshot, inserted: map<string, Version>)
    requires UniqueLabels(inserted) && OneCurrentVersion(cat.versions)
    requires Labels(inserted, Resolved(cat, s), s.source, s.tag)
    requires var v := Resolved(cat, s);
             inserted == if v in cat.versions then cat.versions else cat.versions[v := Version(s.source, s.tag, false)]
    requires forall j, source :: CurrentVersion(inserted, source, j) <==> CurrentVersion(cat.versions, source, j)
    ensures VersionsAfter(cat, s, SwitchCurrent(inserted, s.source, Resolved(cat, s)))
  {
    var after := SwitchCurrent(inserted, s.source, Resolved(cat, s));
    assert forall j, source, tag :: Labels(after, j, source, tag) <==> Labels(inserted, j, source, tag);
    assert forall j, source :: source != s.source ==>
      (CurrentVersion(after, source, j) <==> CurrentVersion(cat.versions, source, j));
  }

  lemma ResolvedIsStable(cat: Catalogue, s: Snapshot, after: Catalogue)
    requires VersionsAfter(cat, s, after.versions)
    ensures FindVersion(after.versions, s.source, s.tag) == Some(Resolved(cat, s))
  {
    assert Labels(after.versions, Resolved(cat, s), s.source, s.tag);
  }

  // ----- One run, row by row -----

  ghost function RunArtifact(cat: Catalogue, s: Snapshot, a: ArtifactKey): Artifact
    requires a in cat.artifacts || Holds(s, a)
  {
    if Holds(s, a) then Written(s.git, KnownFirst(cat, a), Resolved(cat, s), LastFor(s.artifacts, a.path))
    else if a.source == s.source then cat.artifacts[a].(version := None)
    else cat.artifacts[a]
  }

  ghost function RunMember(cat: Catalogue, s: Snapshot, k: MemberKey): Member
    requires k in cat.members || (Holds(s, k.artifact) && k.version == Resolved(cat, s))
  {
    if Holds(s, k.artifact) then
      if k.version == Resolved(cat, s) then
        WrittenMember(s.git, KnownFirst(cat, k.artifact), k.version, LastFor(s.artifacts, k.artifact.path))
      else cat.members[k].(current := false)
    else if k.artifact.source == s.source && cat.members[k].current then
      cat.members[k].(current := false, tombstoned := true)
    else cat.members[k]
  }

  ghost predicate RanTo(cat: Catalogue, s: Snapshot, after: Catalogue) {
    && VersionsAfter(cat, s, after.versions)
    && (forall a :: a in after.artifacts <==> a in cat.artifacts || Holds(s, a))
    && (forall a :: a in after.artifacts ==> after.artifacts[a] == RunArtifact(cat, s, a))
    && (forall k :: k in after.members <==> k in cat.members || (Holds(s, k.artifact) && k.version == Resolved(cat, s)))
    && (forall k :: k in after.members ==> after.members[k] == RunMember(cat, s, k))
  }

  lemma HoldsByPath(s: Snapshot, a: ArtifactKey)
    ensures Holds(s, a) <==> a.source == s.source && a.path in Paths(s)
    ensures Holds(s, a) <==> HoldsBefore(s, |s.artifacts|, a)
    ensures s.artifacts[..|s.artifacts|] == s.artifacts
  {}

  /**
   The memberships to retire are the current ones of the source outside the snapshot, before and after the
   upserts.
   */
  lemma StaleIgnoresUpserts(cat: Catalogue, s: Snapshot, after: Catalogue, v: string)
    requires MembersUpserted(cat, s, v, |s.artifacts|, after)
    ensures StaleMembers(after, s.source, Paths(s)) == StaleMembers(cat, s.source, Paths(s))
  {
    forall k ensures k in StaleMembers(after, s.source, Paths(s)) <==> k in StaleMembers(cat, s.source, Paths(s)) {
      HoldsByPath(s, k.artifact);
    }
  }

  lemma RunMembersKeyByKey(cat: Catalogue, s: Snapshot, mid: Catalogue, after: Catalogue)
    requires MembersUpserted(cat, s, Resolved(cat, s), |s.artifacts|, mid)
    requires after == Retired(mid, s.source, Paths(s))
    ensures forall k :: k in after.members <==>
              k in cat.members || (Holds(s, k.artifact) && k.version == Resolved(cat, s))
    ensures forall k :: k in after.members ==> after.members[k] == RunMember(cat, s, k)
  {
    StaleIgnoresUpserts(cat, s, mid, Resolved(cat, s));
    forall k ensures k in after.members <==> k in cat.members || (Holds(s, k.artifact) && k.version == Resolved(cat, s))
      ensures k in after.members ==> after.members[k] == RunMember(cat, s, k)
    {
      HoldsByPath(s, k.artifact);
    }
  }

  lemma RunArtifactsKeyByKey(cat: Catalogue, s: Snapshot, mid: Catalogue, after: Catalogue)
    requires PointersAgree(cat)
    requires ArtifactsUpserted(cat, s, Resolved(cat, s), |s.artifacts|, mid)
    requires MembersUpserted(cat, s, Resolved(cat, s), |s.artifacts|, mid)
    requires after == Retired(mid, s.source, Paths(s))
    ensures forall a :: a in after.artifacts <==> a in cat.artifacts || Holds(s, a)
    ensures forall a :: a in after.artifacts ==> after.artifacts[a] == RunArtifact(cat, s, a)
  {
    StaleIgnoresUpserts(cat, s, mid, Resolved(cat, s));
    var staleMembers := StaleMembers(cat, s.source, Paths(s));
    var stale := set k | k in staleMembers :: k.artifact;
    forall a ensures a in after.artifacts <==> a in cat.artifacts || Holds(s, a)
      ensures a in after.artifacts ==> after.artifacts[a] == RunArtifact(cat, s, a)
    {
      HoldsByPath(s, a);
      if a in cat.artifacts && a.source == s.source && !Holds(s, a) && cat.artifacts[a].version.Some? {
        var v := cat.artifacts[a].version.value;
        assert IsCurrent(cat, a, v);
        assert MemberKey(a, v) in staleMembers;
      }
    }
  }

  lemma RunKeyByKey(cat: Catalogue, s: Snapshot)
    requires Sound(cat)
    ensures var r := RunSnapshot(cat, s);
            && (r.Ok? ==> RanTo(cat, s, r.value))
            && (r.Err? <==> FindVersion(cat.versions, s.source, s.tag).None? && s.versionId in cat.versions)
  {
    UpsertVersionSwitches(cat, s);
    var versions := UpsertVersion(cat, s);
    if versions.Ok? {
      var start := cat.(versions := versions.value);
      UpsertAllKeyByKey(start, s, Resolved(cat, s), |s.artifacts|);
      var mid := UpsertAll(start, s, Resolved(cat, s), |s.artifacts|);
      UpsertsIgnoreVersions(cat, start, s, Resolved(cat, s), mid);
      RunMembersKeyByKey(cat, s, mid, Retired(mid, s.source, Paths(s)));
      RunArtifactsKeyByKey(cat, s, mid, Retired(mid, s.source, Paths(s)));
    }
  }

  lemma UpsertsIgnoreVersions(cat: Catalogue, start: Catalogue, s: Snapshot, v: string, mid: Catalogue)
    requires start.artifacts == cat.artifacts && start.members == cat.members
    requires ArtifactsUpserted(start, s, v, |s.artifacts|, mid) && MembersUpserted(start, s, v, |s.artifacts|, mid)
    ensures ArtifactsUpserted(cat, s, v, |s.artifacts|, mid) && MembersUpserted(cat, s, v, |s.artifacts|, mid)
  {
    forall a | a in mid.artifacts ensures mid.artifacts[a] == ArtifactAfter(cat, s, v, |s.artifacts|, a) {
      assert mid.artifacts[a] == ArtifactAfter(start, s, v, |s.artifacts|, a);
    }
    forall k | k in mid.members ensures mid.members[k] == MemberAfter(cat, s, v, |s.artifacts|, k) {
      assert mid.members[k] == MemberAfter(start, s, v, |s.artifacts|, k);
    }
  }

  // ----- One run, read off the snapshot -----

  /** No later candidate has the same path. */
  predicate LastOfPath(cs: seq<Candidate>, i: nat) {
    i < |cs| && forall j :: i < j < |cs| ==> cs[j].path != cs[i].path
  }

  lemma {:induction false} LastForIs(cs: seq<Candidate>, i: nat)
    requires LastOfPath(cs, i)
    ensures LastFor(cs, cs[i].path) == cs[i]
    decreases |cs|
  {
    if i < |cs| - 1 { LastForIs(cs[..|cs| - 1], i); }
  }

  /** No label, an empty one and "unknown" come to the same. */
  predicate Unlabelled(c: Candidate) { c.eligibility in {None, Some(""), Some("unknown")} }

  /** The row holds what the candidate says, its label included, and points to the version. */
  predicate RowHolds(row: Artifact, c: Candidate, v: string) {
    && row.version == Some(v) && row.checksum == c.checksum && row.profile == c.profile
    && if Unlabelled(c) then row.eligibility == "unknown" else c.eligibility == Some(row.eligibility)
  }

  /** Outside git the first version seen stays and the last one moves on; under git nothing is claimed. */
  predicate LineageKept(git: bool, known: Option<string>, v: string, first: Option<string>, last: Option<string>) {
    && (known.Some? ==> first == known)
    && (known.None? ==> first == if git then None else Some(v))
    && last == if git then None else Some(v)
  }

  lemma ArtifactHolds(cat: Catalogue, s: Snapshot, after: Catalogue, i: nat)
    requires RanTo(cat, s, after) && LastOfPath(s.artifacts, i)
    ensures var a := ArtifactKey(s.source, s.artifacts[i].path);
            && a in after.artifacts && RowHolds(after.artifacts[a], s.artifacts[i], Resolved(cat, s))
            && LineageKept(s.git, KnownFirst(cat, a), Resolved(cat, s),
                           after.artifacts[a].first, after.artifacts[a].last)
  {
    var a := ArtifactKey(s.source, s.artifacts[i].path);
    LastForIs(s.artifacts, i);
    assert Holds(s, a);
    assert after.artifacts[a] == RunArtifact(cat, s, a);
  }

  lemma MemberHolds(cat: Catalogue, s: Snapshot, after: Catalogue, i: nat)
    requires RanTo(cat, s, after) && LastOfPath(s.artifacts, i)
    ensures var a, v := ArtifactKey(s.source, s.artifacts[i].path), Resolved(cat, s);
            && MemberKey(a, v) in after.members
            && var m := after.members[MemberKey(a, v)];
               && m.current && !m.tombstoned && m.checksum == s.artifacts[i].checksum
               && LineageKept(s.git, KnownFirst(cat, a), v, m.first, m.last)
  {
    var a, v := ArtifactKey(s.source, s.artifacts[i].path), Resolved(cat, s);
    LastForIs(s.artifacts, i);
    assert Holds(s, a);
    assert after.members[MemberKey(a, v)] == RunMember(cat, s, MemberKey(a, v));
  }

  /** After a completed run each path's row and current membership hold the last candidate with that path. */
  lemma RowsHoldSnapshot(cat: Catalogue, s: Snapshot, i: nat, v: string)
    requires Sound(cat) && RunSnapshot(cat, s).Ok? && LastOfPath(s.artifacts, i)
    requires CurrentVersion(RunSnapshot(cat, s).value.versions, s.source, v)
    ensures var after, a := RunSnapshot(cat, s).value, ArtifactKey(s.source, s.artifacts[i].path);
            var known := if a in cat.artifacts then cat.artifacts[a].first else None;
            && a in after.artifacts && RowHolds(after.artifacts[a], s.artifacts[i], v)
            && LineageKept(s.git, known, v, after.artifacts[a].first, after.artifacts[a].last)
    ensures var after, a := RunSnapshot(cat, s).value, ArtifactKey(s.source, s.artifacts[i].path);
            var known := if a in cat.artifacts then cat.artifacts[a].first else None;
            && MemberKey(a, v) in after.members
            && var m := after.members[MemberKey(a, v)];
               && m.current && !m.tombstoned && m.checksum == s.artifacts[i].checksum
               && LineageKept(s.git, known, v, m.first, m.last)
  {
    RunKeyByKey(cat, s);
    ArtifactHolds(cat, s, RunSnapshot(cat, s).value, i);
    MemberHolds(cat, s, RunSnapshot(cat, s).value, i);
  }

  /** An artifact outside the snapshot keeps its row, without the version pointer if it is of the same source. */
  ghost predicate LosesPointer(s: Snapshot, a: ArtifactKey, row: Artifact, after: Artifact) {
    after == Artifact(if a.source == s.source then None else row.version, row.first, row.last, row.checksum,
                      row.profile, row.eligibility)
  }

  /** A current membership of the source ends, with a tombstone if the path is gone. */
  ghost predicate EndsMembership(s: Snapshot, k: MemberKey, m: Member, after: Member) {
    var ends := k.artifact.source == s.source && m.current;
    after == Member(m.current && !ends, m.tombstoned || (ends && k.artifact.path !in Paths(s)), m.first, m.last,
                    m.checksum)
  }

  lemma OtherArtifacts(cat: Catalogue, s: Snapshot, after: Catalogue)
    requires RanTo(cat, s, after)
    ensures forall a :: a in after.artifacts <==> a in cat.artifacts || (a.source == s.source && a.path in Paths(s))
    ensures forall a :: a in cat.artifacts && !(a.source == s.source && a.path in Paths(s)) ==>
              LosesPointer(s, a, cat.artifacts[a], after.artifacts[a])
  {
    forall a: ArtifactKey
      ensures a in after.artifacts <==> a in cat.artifacts || (a.source == s.source && a.path in Paths(s))
      ensures a in cat.artifacts && !(a.source == s.source && a.path in Paths(s)) ==>
                LosesPointer(s, a, cat.artifacts[a], after.artifacts[a])
    {
      HoldsByPath(s, a);
    }
  }

  lemma OtherMember(cat: Catalogue, s: Snapshot, after: Catalogue, k: MemberKey)
    requires RanTo(cat, s, after) && k in cat.members
    requires !(k.artifact.source == s.source && k.artifact.path in Paths(s) && k.version == Resolved(cat, s))
    ensures k in after.members && EndsMembership(s, k, cat.members[k], after.members[k])
  {
    HoldsByPath(s, k.artifact);
    assert after.members[k] == RunMember(cat, s, k);
  }

  /**
   Rows the snapshot does not write: an artifact outside it loses its pointer, its current membership ends with
   a tombstone, an older membership of an artifact in it ends without one, and other sources are left alone.
   */
  lemma OtherRowsTold(cat: Catalogue, s: Snapshot, v: string, after: Catalogue)
    requires Sound(cat) && RunSnapshot(cat, s) == Ok(after) && CurrentVersion(after.versions, s.source, v)
    ensures forall a :: a in after.artifacts <==> a in cat.artifacts || (a.source == s.source && a.path in Paths(s))
    ensures forall a :: a in cat.artifacts && !(a.source == s.source && a.path in Paths(s)) ==>
              LosesPointer(s, a, cat.artifacts[a], after.artifacts[a])
    ensures forall k :: k in cat.members
                        && !(k.artifact.source == s.source && k.artifact.path in Paths(s) && k.version == v) ==>
              k in after.members && EndsMembership(s, k, cat.members[k], after.members[k])
  {
    RunKeyByKey(cat, s);
    OtherArtifacts(cat, s, after);
    forall k | k in cat.members
               && !(k.artifact.source == s.source && k.artifact.path in Paths(s) && k.version == v)
      ensures k in after.members && EndsMembership(s, k, cat.members[k], after.members[k])
    {
      OtherMember(cat, s, after, k);
    }
  }

  // ----- Invariants -----

  lemma CurrentAfterRun(cat: Catalogue, s: Snapshot, after: Catalogue, a: ArtifactKey, v: string)
    requires RanTo(cat, s, after)
    ensures IsCurrent(after, a, v) <==>
              if a.source == s.source then Holds(s, a) && v == Resolved(cat, s) else IsCurrent(cat, a, v)
  {}

  lemma RunKeepsSound(cat: Catalogue, s: Snapshot, after: Catalogue)
    requires Sound(cat) && RanTo(cat, s, after)
    ensures Sound(after)
  {
    RunKeepsPointers(cat, s, after);
    RunKeepsReferences(cat, s, after);
    RunKeepsTombstones(cat, s, after);
  }

  lemma RunKeepsPointers(cat: Catalogue, s: Snapshot, after: Catalogue)
    requires PointersAgree(cat) && RanTo(cat, s, after)
    ensures PointersAgree(after)
  {
    forall a, v ensures IsCurrent(after, a, v) <==> a in after.artifacts && after.artifacts[a].version == Some(v) {
      CurrentAfterRun(cat, s, after, a, v);
    }
  }

  lemma RunKeepsReferences(cat: Catalogue, s: Snapshot, after: Catalogue)
    requires References(cat) && RanTo(cat, s, after)
    ensures References(after)
  {}

  lemma RunKeepsTombstones(cat: Catalogue, s: Snapshot, after: Catalogue)
    requires CurrentNotTombstoned(cat) && RanTo(cat, s, after)
    ensures CurrentNotTombstoned(after)
  {}

  /** No membership row is removed, and a version keeps its source and label. */
  ghost predicate HistoryKept(before: Catalogue, after: Catalogue) {
    && before.members.Keys <= after.members.Keys
    && before.artifacts.Keys <= after.artifacts.Keys
    && (forall j :: j in before.versions ==>
          Labels(after.versions, j, before.versions[j].source, before.versions[j].tag))
  }

  /**
   A completed run leaves the source with current memberships for exactly the snapshot's paths,
   all at the run's version, and does not touch other sources; it fails exactly when the label is
   new but its version identifier is taken.
   */
  lemma CompletedRun(cat: Catalogue, s: Snapshot)
    requires Sound(cat)
    ensures var r := RunSnapshot(cat, s);
            && (r.Err? <==> FindVersion(cat.versions, s.source, s.tag).None? && s.versionId in cat.versions)
            && (r.Ok? ==>
                  && Sound(r.value) && OneMembership(r.value) && HistoryKept(cat, r.value)
                  && (forall p, v :: IsCurrent(r.value, ArtifactKey(s.source, p), v) <==>
                       p in Paths(s) && v == Resolved(cat, s))
                  && (forall a: ArtifactKey, v :: a.source != s.source ==>
                       (IsCurrent(r.value, a, v) <==> IsCurrent(cat, a, v)))
                  && (forall j :: CurrentVersion(r.value.versions, s.source, j) <==> j == Resolved(cat, s)))
  {
    RunKeyByKey(cat, s);
    var r := RunSnapshot(cat, s);
    if r.Ok? {
      RunKeepsSound(cat, s, r.value);
      SoundMeansOneMembership(r.value);
      forall a, v { CurrentAfterRun(cat, s, r.value, a, v); }
      forall p, v ensures IsCurrent(r.value, ArtifactKey(s.source, p), v) <==> p in Paths(s) && v == Resolved(cat, s) {
        HoldsByPath(s, ArtifactKey(s.source, p));
        CurrentAfterRun(cat, s, r.value, ArtifactKey(s.source, p), v);
      }
    }
  }

  /** Running the same snapshot again changes no row. */
  lemma RerunChangesNothing(cat: Catalogue, s: Snapshot)
    requires Sound(cat) && RunSnapshot(cat, s).Ok?
    ensures RunSnapshot(RunSnapshot(cat, s).value, s) == Ok(RunSnapshot(cat, s).value)
  {
    var after := RunSnapshot(cat, s).value;
    RunKeyByKey(cat, s);
    RunKeepsSound(cat, s, after);
    ResolvedIsStable(cat, s, after);
    RunKeyByKey(after, s);
    var again := RunSnapshot(after, s).value;
    RerunArtifacts(cat, s, after, again);
    RerunMembers(cat, s, after, again);
    assert again.versions == SwitchCurrent(after.versions, s.source, Resolved(cat, s)) by {
      var switched := after.(versions := SwitchCurrent(after.versions, s.source, Resolved(cat, s)));
      UpsertAllKeyByKey(switched, s, Resolved(cat, s), |s.artifacts|);
    }
    RerunVersions(cat, s, after);
  }

  lemma RerunVersions(cat: Catalogue, s: Snapshot, after: Catalogue)
    requires VersionsAfter(cat, s, after.versions)
    ensures SwitchCurrent(after.versions, s.source, Resolved(cat, s)) == after.versions
  {
    forall j | j in after.versions
      ensures SwitchCurrent(after.versions, s.source, Resolved(cat, s))[j] == after.versions[j]
    {
      assert after.versions[j].source == s.source && j != Resolved(cat, s) ==>
          !CurrentVersion(after.versions, s.source, j);
      assert CurrentVersion(after.versions, s.source, Resolved(cat, s));
    }
  }

  lemma RerunArtifacts(cat: Catalogue, s: Snapshot, after: Catalogue, again: Catalogue)
    requires RanTo(cat, s, after) && RanTo(after, s, again) && Resolved(after, s) == Resolved(cat, s)
    ensures again.artifacts == after.artifacts
  {
    forall a | a in after.artifacts ensures again.artifacts[a] == after.artifacts[a] {
      assert again.artifacts[a] == RunArtifact(after, s, a);
      assert after.artifacts[a] == RunArtifact(cat, s, a);
    }
  }

  lemma RerunMembers(cat: Catalogue, s: Snapshot, after: Catalogue, again: Catalogue)
    requires RanTo(cat, s, after) && RanTo(after, s, again) && Resolved(after, s) == Resolved(cat, s)
    ensures again.members == after.members
  {
    forall k | k in after.members ensures again.members[k] == after.members[k] {
      assert again.members[k] == RunMember(after, s, k);
      assert after.members[k] == RunMember(cat, s, k);
      if Holds(s, k.artifact) && k.version == Resolved(cat, s) {
        assert k.artifact in after.artifacts;
        assert after.artifacts[k.artifact] == RunArtifact(cat, s, k.artifact);
      }
    }
  }
}
