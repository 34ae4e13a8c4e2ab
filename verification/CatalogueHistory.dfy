/** The catalogue after any history of runs, read off the snapshots alone. */
module CatalogueHistory {
  import opened Ordering
  import opened CatalogueTables
  import opened CatalogueRuns

  /** A run that fails is rolled back and leaves the catalogue as it was. */
  ghost function Replay(h: seq<Snapshot>): Catalogue {
    if h == [] then EMPTY
    else
      var before := Replay(h[..|h| - 1]);
      var r := RunSnapshot(before, h[|h| - 1]);
      if r.Ok? then r.value else before
  }

  // ----- Version identifiers, from the snapshots alone -----

  datatype VersionName = VersionName(source: string, tag: string)

  function NameOf(s: Snapshot): VersionName { VersionName(s.source, s.tag) }

  /** The identifiers given to labels: a new label takes its snapshot's, unless another label has it. */
  function Given(h: seq<Snapshot>): map<VersionName, string> {
    if h == [] then map[]
    else
      var before, s := Given(h[..|h| - 1]), h[|h| - 1];
      if NameOf(s) in before || s.versionId in before.Values then before else before[NameOf(s) := s.versionId]
  }

  /** The version under which a snapshot is ingested after a history, if its run completes. */
  function IngestedAs(h: seq<Snapshot>, s: Snapshot): Option<string> {
    if NameOf(s) in Given(h) then Some(Given(h)[NameOf(s)])
    else if s.versionId in Given(h).Values then None
    else Some(s.versionId)
  }

  /** The first snapshot with the label whose run completed. */
  predicate FirstCompleted(h: seq<Snapshot>, name: VersionName, i: nat) {
    && i < |h| && NameOf(h[i]) == name && IngestedAs(h[..i], h[i]).Some?
    && forall j :: 0 <= j < i && NameOf(h[j]) == name ==> IngestedAs(h[..j], h[j]).None?
  }

  /** A label's identifier is that of its first completed snapshot. */
  lemma {:induction false} GivenIsFirst(h: seq<Snapshot>, name: VersionName)
    ensures name in Given(h) <==> exists i: nat :: FirstCompleted(h, name, i)
    ensures forall i: nat :: FirstCompleted(h, name, i) ==> name in Given(h) && Given(h)[name] == h[i].versionId
  {
    if h != [] {
      var last := |h| - 1;
      var earlier := h[..last];
      GivenIsFirst(earlier, name);
      forall i: nat | i < last ensures FirstCompleted(h, name, i) <==> FirstCompleted(earlier, name, i) {
        SameBefore(h, name, i);
      }
      if FirstCompleted(h, name, last) {
        assert forall i: nat :: i < last ==> !FirstCompleted(h, name, i);
      }
      if name in Given(h) && name !in Given(earlier) { LastIsFirst(h, name); }
    }
  }

  lemma SameBefore(h: seq<Snapshot>, name: VersionName, i: nat)
    requires h != [] && i < |h| - 1
    ensures FirstCompleted(h, name, i) <==> FirstCompleted(h[..|h| - 1], name, i)
  {
    assert forall j :: 0 <= j <= i ==> h[..|h| - 1][..j] == h[..j];
  }

  /** A label not yet given has no completed snapshot. */
  lemma {:induction false} UngivenNeverCompleted(h: seq<Snapshot>, name: VersionName, j: nat)
    requires name !in Given(h) && j < |h| && NameOf(h[j]) == name
    ensures IngestedAs(h[..j], h[j]).None?
  {
    var last := |h| - 1;
    if j < last {
      UngivenNeverCompleted(h[..last], name, j);
      assert h[..last][..j] == h[..j];
    }
  }

  lemma LastIsFirst(h: seq<Snapshot>, name: VersionName)
    requires h != [] && name in Given(h) && name !in Given(h[..|h| - 1])
    ensures FirstCompleted(h, name, |h| - 1)
  {
    var last := |h| - 1;
    forall j | 0 <= j < last && NameOf(h[j]) == name ensures IngestedAs(h[..j], h[j]).None? {
      UngivenNeverCompleted(h[..last], name, j);
      assert h[..last][..j] == h[..j];
    }
  }

  predicate GivenTo(given: map<VersionName, string>, name: VersionName, id: string) {
    name in given && given[name] == id
  }

  /** The replayed version rows are the identifiers given, under their labels. */
  ghost predicate VersionsAre(versions: map<string, Version>, given: map<VersionName, string>) {
    && (forall id, source, tag ::
          Labels(versions, id, source, tag) <==> GivenTo(given, VersionName(source, tag), id))
    && forall id :: id in versions <==> id in given.Values
  }

  lemma VersionsReadOff(cat: Catalogue, given: map<VersionName, string>, s: Snapshot)
    requires VersionsAre(cat.versions, given)
    ensures Resolved(cat, s) == if NameOf(s) in given then given[NameOf(s)] else s.versionId
    ensures FindVersion(cat.versions, s.source, s.tag).Some? <==> NameOf(s) in given
  {
    if NameOf(s) in given { assert Labels(cat.versions, given[NameOf(s)], s.source, s.tag); }
  }

  lemma VersionStays(cat: Catalogue, given: map<VersionName, string>, s: Snapshot, versions: map<string, Version>,
                     id: string, source: string, tag: string)
    requires VersionsAre(cat.versions, given) && VersionsAfter(cat, s, versions)
    requires NameOf(s) in given || s.versionId !in given.Values
    ensures Labels(versions, id, source, tag) <==>
              Labels(cat.versions, id, source, tag)
              || (id == Resolved(cat, s) && source == s.source && tag == s.tag)
  {
    VersionsReadOff(cat, given, s);
    var v := Resolved(cat, s);
    assert Labels(versions, v, s.source, s.tag);
    if NameOf(s) in given {
      assert GivenTo(given, NameOf(s), v);
      assert Labels(cat.versions, v, s.source, s.tag);
    } else {
      assert v !in cat.versions;
    }
  }

  lemma VersionsStay(cat: Catalogue, given: map<VersionName, string>, s: Snapshot, versions: map<string, Version>)
    requires VersionsAre(cat.versions, given) && VersionsAfter(cat, s, versions)
    requires NameOf(s) in given || s.versionId !in given.Values
    ensures VersionsAre(versions, if NameOf(s) in given then given else given[NameOf(s) := s.versionId])
  {
    VersionsReadOff(cat, given, s);
    var name, v := NameOf(s), Resolved(cat, s);
    var after := if name in given then given else given[name := v];
    forall id, source, tag
      ensures Labels(versions, id, source, tag) <==> GivenTo(after, VersionName(source, tag), id)
    {
      VersionStays(cat, given, s, versions, id, source, tag);
    }
    forall id ensures id in versions <==> id in after.Values {
      if id in given.Values {
        var l :| l in given && given[l] == id;
        assert l in after && after[l] == id;
      }
      assert name in after && after[name] == v;
    }
  }

  lemma {:induction false} ReplayVersions(h: seq<Snapshot>)
    ensures VersionsAre(Replay(h).versions, Given(h))
  {
    if h != [] {
      var earlier, s := h[..|h| - 1], h[|h| - 1];
      ReplayVersions(earlier);
      ReplaySound(earlier);
      RunKeyByKey(Replay(earlier), s);
      VersionsReadOff(Replay(earlier), Given(earlier), s);
      if RunSnapshot(Replay(earlier), s).Ok? {
        VersionsStay(Replay(earlier), Given(earlier), s, Replay(h).versions);
      }
    }
  }

  /** Whether a run completes after a history, and under which version, is read off the snapshots. */
  lemma IngestionTells(h: seq<Snapshot>, s: Snapshot)
    ensures RunSnapshot(Replay(h), s).Ok? <==> IngestedAs(h, s).Some?
    ensures IngestedAs(h, s).Some? ==> Resolved(Replay(h), s) == IngestedAs(h, s).value
  {
    ReplayVersions(h);
    ReplaySound(h);
    RunKeyByKey(Replay(h), s);
    VersionsReadOff(Replay(h), Given(h), s);
  }

  /** The same content under a second label is refused: its identifier is the first label's. */
  lemma SecondLabelRefused(first: Snapshot, second: Snapshot)
    requires first.versionId == second.versionId && NameOf(first) != NameOf(second)
    ensures RunSnapshot(Replay([first]), second) == Err(DuplicateVersionId(second.versionId))
  {
    assert [first][..0] == [];
    assert Given([first]) == map[NameOf(first) := first.versionId];
    assert Given([first])[NameOf(first)] in Given([first]).Values;
    IngestionTells([first], second);
  }

  // ----- What the rows tell -----

  /** The version under which the last snapshot was ingested, if its run completed. */
  function LastIngested(h: seq<Snapshot>): Option<string>
    requires h != []
  {
    IngestedAs(h[..|h| - 1], h[|h| - 1])
  }

  ghost function LastHolding(h: seq<Snapshot>, a: ArtifactKey): Option<string>
    requires h != []
  {
    if Holds(h[|h| - 1], a) then LastIngested(h) else None
  }

  /** The version of the first completed snapshot that held the path. */
  ghost function FirstHeld(h: seq<Snapshot>, a: ArtifactKey): Option<string> {
    if h == [] then None
    else
      var earlier := FirstHeld(h[..|h| - 1], a);
      if earlier.Some? then earlier else LastHolding(h, a)
  }

  /** The version of the latest completed snapshot that held the path. */
  ghost function LatestHeld(h: seq<Snapshot>, a: ArtifactKey): Option<string> {
    if h == [] then None
    else if LastHolding(h, a).Some? then LastHolding(h, a)
    else LatestHeld(h[..|h| - 1], a)
  }

  /** The version of the source's latest completed snapshot, if that snapshot held the path. */
  ghost function NowHeld(h: seq<Snapshot>, a: ArtifactKey): Option<string> {
    if h == [] then None
    else if h[|h| - 1].source == a.source && LastIngested(h).Some? then LastHolding(h, a)
    else NowHeld(h[..|h| - 1], a)
  }

  ghost predicate EverHeld(h: seq<Snapshot>, a: ArtifactKey, v: string) {
    h != [] && (LastHolding(h, a) == Some(v) || EverHeld(h[..|h| - 1], a, v))
  }

  /** A source is a git repository or it is not, for all its snapshots. */
  ghost predicate KindsFixed(h: seq<Snapshot>, gitSources: set<string>) {
    forall i :: 0 <= i < |h| ==> (h[i].git <==> h[i].source in gitSources)
  }

  ghost predicate Tells(cat: Catalogue, h: seq<Snapshot>, gitSources: set<string>, a: ArtifactKey) {
    var git := a.source in gitSources;
    && (a in cat.artifacts <==> FirstHeld(h, a).Some?)
    && (a in cat.artifacts ==>
          && cat.artifacts[a].first == (if git then None else FirstHeld(h, a))
          && cat.artifacts[a].last == (if git then None else LatestHeld(h, a))
          && cat.artifacts[a].version == NowHeld(h, a))
    && (forall v :: MemberKey(a, v) in cat.members <==> EverHeld(h, a, v))
    && (forall v :: MemberKey(a, v) in cat.members ==>
          && cat.members[MemberKey(a, v)].first == (if git then None else FirstHeld(h, a))
          && cat.members[MemberKey(a, v)].last == (if git then None else Some(v)))
    && (forall v :: IsCurrent(cat, a, v) <==> NowHeld(h, a) == Some(v))
  }

  lemma RunTells(h: seq<Snapshot>, gitSources: set<string>, a: ArtifactKey, after: Catalogue)
    requires h != [] && KindsFixed(h, gitSources)
    requires var before := Replay(h[..|h| - 1]); RunSnapshot(before, h[|h| - 1]).Ok? && RanTo(before, h[|h| - 1], after)
    requires Tells(Replay(h[..|h| - 1]), h[..|h| - 1], gitSources, a)
    ensures Tells(after, h, gitSources, a)
  {
    IngestionTells(h[..|h| - 1], h[|h| - 1]);
    var s, before := h[|h| - 1], Replay(h[..|h| - 1]);
    assert s.git <==> s.source in gitSources;
    if a in after.artifacts { assert after.artifacts[a] == RunArtifact(before, s, a); }
    forall v ensures MemberKey(a, v) in after.members <==> EverHeld(h, a, v)
      ensures MemberKey(a, v) in after.members ==>
        && after.members[MemberKey(a, v)].first == (if a.source in gitSources then None else FirstHeld(h, a))
        && after.members[MemberKey(a, v)].last == (if a.source in gitSources then None else Some(v))
      ensures IsCurrent(after, a, v) <==> NowHeld(h, a) == Some(v)
    {
      RunTellsMember(h, gitSources, a, v, after);
    }
  }

  lemma RunTellsMember(h: seq<Snapshot>, gitSources: set<string>, a: ArtifactKey, v: string, after: Catalogue)
    requires h != [] && KindsFixed(h, gitSources)
    requires var before := Replay(h[..|h| - 1]); RunSnapshot(before, h[|h| - 1]).Ok? && RanTo(before, h[|h| - 1], after)
    requires Tells(Replay(h[..|h| - 1]), h[..|h| - 1], gitSources, a)
    ensures MemberKey(a, v) in after.members <==> EverHeld(h, a, v)
    ensures MemberKey(a, v) in after.members ==>
      && after.members[MemberKey(a, v)].first == (if a.source in gitSources then None else FirstHeld(h, a))
      && after.members[MemberKey(a, v)].last == (if a.source in gitSources then None else Some(v))
    ensures IsCurrent(after, a, v) <==> NowHeld(h, a) == Some(v)
  {
    var s, before, k := h[|h| - 1], Replay(h[..|h| - 1]), MemberKey(a, v);
    assert s.git <==> s.source in gitSources;
    IngestionTells(h[..|h| - 1], s);
    CurrentAfterRun(before, s, after, a, v);
    if k in after.members { assert after.members[k] == RunMember(before, s, k); }
    if k in before.members { EverHeldWasHeld(h[..|h| - 1], a, v); }
  }

  lemma {:induction false} EverHeldWasHeld(h: seq<Snapshot>, a: ArtifactKey, v: string)
    requires EverHeld(h, a, v)
    ensures FirstHeld(h, a).Some?
  {
    if LastHolding(h, a) != Some(v) { EverHeldWasHeld(h[..|h| - 1], a, v); }
  }

  lemma {:induction false} ReplaySound(h: seq<Snapshot>)
    ensures Sound(Replay(h))
  {
    if h != [] {
      ReplaySound(h[..|h| - 1]);
      CompletedRun(Replay(h[..|h| - 1]), h[|h| - 1]);
    }
  }

  /**
   After any history, with files removed and brought back: an artifact's first and last version
   are those of the first and latest snapshots that held it (and stay empty for git), a
   membership row exists for every version that ever held it, and it is current exactly at the
   source's latest snapshot if that one holds it.
   */
  lemma {:induction false} HistoryTells(h: seq<Snapshot>, gitSources: set<string>, a: ArtifactKey)
    requires KindsFixed(h, gitSources)
    ensures Tells(Replay(h), h, gitSources, a)
  {
    if h != [] {
      var earlier, s := h[..|h| - 1], h[|h| - 1];
      HistoryTells(earlier, gitSources, a);
      ReplaySound(earlier);
      RunKeyByKey(Replay(earlier), s);
      IngestionTells(earlier, s);
      if RunSnapshot(Replay(earlier), s).Ok? {
        RunTells(h, gitSources, a, Replay(h));
      } else {
        assert LastHolding(h, a) == None;
        forall v ensures EverHeld(h, a, v) <==> EverHeld(earlier, a, v) {}
        assert NowHeld(h, a) == NowHeld(earlier, a);
      }
    }
  }

  /** History only grows, over any further runs. */
  lemma {:induction false} ReplayKeepsHistory(h: seq<Snapshot>, n: nat)
    requires n <= |h|
    ensures HistoryKept(Replay(h[..n]), Replay(h))
    decreases |h| - n
  {
    if n == |h| {
      assert h[..n] == h;
      ReplaySound(h);
    } else {
      ReplayKeepsHistory(h, n + 1);
      assert h[..n + 1][..n] == h[..n];
      ReplaySound(h[..n]);
      CompletedRun(Replay(h[..n]), h[n]);
      assert h[..n + 1][n] == h[n];
      HistoryChains(Replay(h[..n]), Replay(h[..n + 1]), Replay(h));
    }
  }

  lemma HistoryChains(a: Catalogue, b: Catalogue, c: Catalogue)
    requires (HistoryKept(a, b) || a == b) && HistoryKept(b, c)
    ensures HistoryKept(a, c)
  {}
}
