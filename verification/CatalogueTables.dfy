/** The versioned artifact catalogue: tables, the steps of one ingestion run, and the run as a whole. */
module CatalogueTables {
  import opened Ordering

  /** An artifact row's identifier is a digest of source and path; a membership's, of artifact and version. */
  datatype ArtifactKey = ArtifactKey(source: string, path: string)

  datatype Artifact = Artifact(
    version: Option<string>, first: Option<string>, last: Option<string>,
    checksum: string, profile: Option<string>, eligibility: string)

  datatype MemberKey = MemberKey(artifact: ArtifactKey, version: string)

  datatype Member = Member(
    current: bool, tombstoned: bool, first: Option<string>, last: Option<string>, checksum: string)

  datatype Version = Version(source: string, tag: string, current: bool)

  datatype Catalogue = Catalogue(
    versions: map<string, Version>, artifacts: map<ArtifactKey, Artifact>, members: map<MemberKey, Member>)

  const EMPTY := Catalogue(map[], map[], map[])

  datatype Candidate = Candidate(path: string, checksum: string, profile: Option<string>, eligibility: Option<string>)

  /** `tag` is the version label and `versionId` the identifier derived from the content hash. */
  datatype Snapshot = Snapshot(source: string, git: bool, tag: string, versionId: string, artifacts: seq<Candidate>)

  datatype RunError = DuplicateVersionId(id: string)

  // ----- Source versions -----

  predicate Labels(versions: map<string, Version>, id: string, source: string, tag: string) {
    id in versions && versions[id].source == source && versions[id].tag == tag
  }

  ghost predicate UniqueLabels(versions: map<string, Version>) {
    forall j, k :: j in versions && Labels(versions, k, versions[j].source, versions[j].tag) ==> j == k
  }

  ghost function FindVersion(versions: map<string, Version>, source: string, tag: string): Option<string> {
    if exists id :: Labels(versions, id, source, tag) then
      var id :| Labels(versions, id, source, tag);
      Some(id)
    else None
  }

  /** Clear the source's current flags, then set the one chosen. */
  function SwitchCurrent(versions: map<string, Version>, source: string, id: string): map<string, Version>
    requires id in versions
  {
    map j | j in versions ::
      if j == id then versions[j].(current := true)
      else if versions[j].source == source then versions[j].(current := false)
      else versions[j]
  }

  ghost function Resolved(cat: Catalogue, s: Snapshot): string {
    var found := FindVersion(cat.versions, s.source, s.tag);
    if found.Some? then found.value else s.versionId
  }

  ghost function UpsertVersion(cat: Catalogue, s: Snapshot): Result<map<string, Version>, RunError> {
    if FindVersion(cat.versions, s.source, s.tag).Some? then
      Ok(SwitchCurrent(cat.versions, s.source, Resolved(cat, s)))
    else if s.versionId in cat.versions then Err(DuplicateVersionId(s.versionId))
    else
      Ok(SwitchCurrent(cat.versions[s.versionId := Version(s.source, s.tag, false)], s.source, s.versionId))
  }

  // ----- Artifact upserts -----

  function KeyFor(s: Snapshot, c: Candidate): ArtifactKey { ArtifactKey(s.source, c.path) }

  function KnownFirst(cat: Catalogue, a: ArtifactKey): Option<string> {
    if a in cat.artifacts then cat.artifacts[a].first else None
  }

  /** Git sources never prove lineage this way, so they leave the fields as they are or empty. */
  function FirstAfter(git: bool, known: Option<string>, v: string): Option<string> {
    if git || known.Some? then known else Some(v)
  }

  function LastAfter(git: bool, v: string): Option<string> {
    if git then None else Some(v)
  }

  function LabelOf(c: Candidate): string {
    if c.eligibility.Some? && c.eligibility.value != "" then c.eligibility.value else "unknown"
  }

  function Written(git: bool, known: Option<string>, v: string, c: Candidate): Artifact {
    Artifact(Some(v), FirstAfter(git, known, v), LastAfter(git, v), c.checksum, c.profile, LabelOf(c))
  }

  function WrittenMember(git: bool, known: Option<string>, v: string, c: Candidate): Member {
    Member(true, false, FirstAfter(git, known, v), LastAfter(git, v), c.checksum)
  }

  function NotCurrent(members: map<MemberKey, Member>, a: ArtifactKey): map<MemberKey, Member> {
    map k | k in members :: if k.artifact == a then members[k].(current := false) else members[k]
  }

  /** `upsert_artifact` followed by `upsert_artifact_version` for one candidate. */
  function UpsertOne(cat: Catalogue, s: Snapshot, v: string, c: Candidate): Catalogue {
    var a, known := KeyFor(s, c), KnownFirst(cat, KeyFor(s, c));
    cat.(artifacts := cat.artifacts[a := Written(s.git, known, v, c)],
         members := NotCurrent(cat.members, a)[MemberKey(a, v) := WrittenMember(s.git, known, v, c)])
  }

  function UpsertAt(s: Snapshot, v: string): (Catalogue, nat) -> Catalogue {
    (cat: Catalogue, i: nat) => if i < |s.artifacts| then UpsertOne(cat, s, v, s.artifacts[i]) else cat
  }

  /** The upsert loop over the first n candidates. */
  function UpsertAll(cat: Catalogue, s: Snapshot, v: string, n: nat): Catalogue { Fold(UpsertAt(s, v), cat, n) }

  // ----- Retirement -----

  function StaleMembers(cat: Catalogue, source: string, paths: set<string>): set<MemberKey> {
    set k | k in cat.members && cat.members[k].current && k.artifact.source == source && k.artifact.path !in paths
  }

  function Retired(cat: Catalogue, source: string, paths: set<string>): Catalogue {
    var stale := set k | k in StaleMembers(cat, source, paths) :: k.artifact;
    cat.(members := map k | k in cat.members ::
           if k.artifact in stale && cat.members[k].current
           then cat.members[k].(current := false, tombstoned := true) else cat.members[k],
         artifacts := map a | a in cat.artifacts ::
           if a in stale then cat.artifacts[a].(version := None) else cat.artifacts[a])
  }

  // ----- The whole run -----

  function Paths(s: Snapshot): set<string> { set i | 0 <= i < |s.artifacts| :: s.artifacts[i].path }

  ghost function RunSnapshot(cat: Catalogue, s: Snapshot): Result<Catalogue, RunError> {
    var versions := UpsertVersion(cat, s);
    if versions.Err? then Err(versions.error)
    else
      Ok(Retired(UpsertAll(cat.(versions := versions.value), s, Resolved(cat, s), |s.artifacts|), s.source, Paths(s)))
  }

  // ----- Invariants of the tables -----

  ghost predicate OneMembership(cat: Catalogue) {
    forall a, j, k :: IsCurrent(cat, a, j) && IsCurrent(cat, a, k) ==> j == k
  }

  predicate IsCurrent(cat: Catalogue, a: ArtifactKey, v: string) {
    MemberKey(a, v) in cat.members && cat.members[MemberKey(a, v)].current
  }

  /** The version pointer of an artifact and its current membership say the same. */
  ghost predicate PointersAgree(cat: Catalogue) {
    forall a, v :: IsCurrent(cat, a, v) <==> a in cat.artifacts && cat.artifacts[a].version == Some(v)
  }

  ghost predicate CurrentNotTombstoned(cat: Catalogue) {
    forall k :: k in cat.members && cat.members[k].current ==> !cat.members[k].tombstoned
  }

  predicate CurrentVersion(versions: map<string, Version>, source: string, id: string) {
    id in versions && versions[id].source == source && versions[id].current
  }

  ghost predicate OneCurrentVersion(versions: map<string, Version>) {
    forall source, j, k :: CurrentVersion(versions, source, j) && CurrentVersion(versions, source, k) ==> j == k
  }

  ghost predicate References(cat: Catalogue) {
    forall k :: k in cat.members ==>
      k.artifact in cat.artifacts && k.version in cat.versions && cat.versions[k.version].source == k.artifact.source
  }

  ghost predicate Sound(cat: Catalogue) {
    && UniqueLabels(cat.versions) && OneCurrentVersion(cat.versions)
    && PointersAgree(cat) && CurrentNotTombstoned(cat) && References(cat)
  }

  lemma SoundMeansOneMembership(cat: Catalogue)
    requires Sound(cat)
    ensures OneMembership(cat)
  {}

  // ----- The run, key by key -----

  /** The last candidate wins where a snapshot repeats a path. */
  ghost function LastFor(cs: seq<Candidate>, path: string): (c: Candidate)
    requires exists i :: 0 <= i < |cs| && cs[i].path == path
    ensures c in cs && c.path == path
  {
    if cs[|cs| - 1].path == path then cs[|cs| - 1] else LastFor(cs[..|cs| - 1], path)
  }

  ghost predicate Holds(s: Snapshot, a: ArtifactKey) {
    a.source == s.source && exists i :: 0 <= i < |s.artifacts| && s.artifacts[i].path == a.path
  }

  ghost predicate HoldsBefore(s: Snapshot, n: nat, a: ArtifactKey)
    requires n <= |s.artifacts|
  {
    a.source == s.source && exists i :: 0 <= i < |s.artifacts[..n]| && s.artifacts[..n][i].path == a.path
  }

  ghost function ArtifactAfter(cat: Catalogue, s: Snapshot, v: string, n: nat, a: ArtifactKey): Artifact
    requires n <= |s.artifacts| && (a in cat.artifacts || HoldsBefore(s, n, a))
  {
    if HoldsBefore(s, n, a) then Written(s.git, KnownFirst(cat, a), v, LastFor(s.artifacts[..n], a.path))
    else cat.artifacts[a]
  }

  ghost function MemberAfter(cat: Catalogue, s: Snapshot, v: string, n: nat, k: MemberKey): Member
    requires n <= |s.artifacts| && (k in cat.members || (HoldsBefore(s, n, k.artifact) && k.version == v))
  {
    if !HoldsBefore(s, n, k.artifact) then cat.members[k]
    else if k.version == v then
      WrittenMember(s.git, KnownFirst(cat, k.artifact), v, LastFor(s.artifacts[..n], k.artifact.path))
    else cat.members[k].(current := false)
  }

  /** Every row of the catalogue after the first n upserts of a run, said directly. */
  ghost predicate ArtifactsUpserted(cat: Catalogue, s: Snapshot, v: string, n: nat, after: Catalogue)
    requires n <= |s.artifacts|
  {
    && (forall a :: a in after.artifacts <==> a in cat.artifacts || HoldsBefore(s, n, a))
    && (forall a :: a in after.artifacts ==> after.artifacts[a] == ArtifactAfter(cat, s, v, n, a))
  }

  ghost predicate MembersUpserted(cat: Catalogue, s: Snapshot, v: string, n: nat, after: Catalogue)
    requires n <= |s.artifacts|
  {
    && (forall k :: k in after.members <==> k in cat.members || (HoldsBefore(s, n, k.artifact) && k.version == v))
    && (forall k :: k in after.members ==> after.members[k] == MemberAfter(cat, s, v, n, k))
  }

  lemma HoldsOneMore(s: Snapshot, n: nat, a: ArtifactKey)
    requires 0 < n <= |s.artifacts|
    ensures HoldsBefore(s, n, a) <==> HoldsBefore(s, n - 1, a) || a == KeyFor(s, s.artifacts[n - 1])
    ensures HoldsBefore(s, n, a) ==>
              LastFor(s.artifacts[..n], a.path) ==
              if a == KeyFor(s, s.artifacts[n - 1]) then s.artifacts[n - 1] else LastFor(s.artifacts[..n - 1], a.path)
  {
    var cs := s.artifacts[..n];
    assert cs[..n - 1] == s.artifacts[..n - 1] && cs[n - 1] == s.artifacts[n - 1];
    if HoldsBefore(s, n - 1, a) {
      var i :| 0 <= i < n - 1 && s.artifacts[..n - 1][i].path == a.path;
      assert cs[i].path == a.path;
    }
    if HoldsBefore(s, n, a) && a != KeyFor(s, s.artifacts[n - 1]) {
      var i :| 0 <= i < n && cs[i].path == a.path;
      assert s.artifacts[..n - 1][i].path == a.path;
    }
    if a == KeyFor(s, s.artifacts[n - 1]) { assert cs[n - 1].path == a.path; }
  }

  ghost predicate ArtifactIs(cat: Catalogue, s: Snapshot, v: string, a: ArtifactKey, after: Catalogue, n: nat) {
    && n <= |s.artifacts|
    && (a in after.artifacts <==> a in cat.artifacts || HoldsBefore(s, n, a))
    && (a in after.artifacts ==> after.artifacts[a] == ArtifactAfter(cat, s, v, n, a))
  }

  ghost predicate MemberIs(cat: Catalogue, s: Snapshot, v: string, k: MemberKey, after: Catalogue, n: nat) {
    && n <= |s.artifacts|
    && (k in after.members <==> k in cat.members || (HoldsBefore(s, n, k.artifact) && k.version == v))
    && (k in after.members ==> after.members[k] == MemberAfter(cat, s, v, n, k))
  }

  /** An artifact row, a membership row and the versions after the first n upserts, said directly. */
  ghost predicate RowsAre(cat: Catalogue, s: Snapshot, v: string, k: MemberKey, after: Catalogue, n: nat) {
    ArtifactIs(cat, s, v, k.artifact, after, n) && MemberIs(cat, s, v, k, after, n) && after.versions == cat.versions
  }

  lemma ArtifactNext(cat: Catalogue, s: Snapshot, v: string, a: ArtifactKey, before: Catalogue, n: nat)
    requires n < |s.artifacts| && ArtifactIs(cat, s, v, a, before, n)
    ensures ArtifactIs(cat, s, v, a, UpsertOne(before, s, v, s.artifacts[n]), n + 1)
  {
    HoldsOneMore(s, n + 1, a);
  }

  lemma MemberNext(cat: Catalogue, s: Snapshot, v: string, k: MemberKey, before: Catalogue, n: nat)
    requires n < |s.artifacts| && ArtifactIs(cat, s, v, k.artifact, before, n) && MemberIs(cat, s, v, k, before, n)
    ensures MemberIs(cat, s, v, k, UpsertOne(before, s, v, s.artifacts[n]), n + 1)
  {
    HoldsOneMore(s, n + 1, k.artifact);
    assert k == MemberKey(KeyFor(s, s.artifacts[n]), v) <==> k.artifact == KeyFor(s, s.artifacts[n]) && k.version == v;
  }

  lemma RowsNext(cat: Catalogue, s: Snapshot, v: string, k: MemberKey, before: Catalogue, n: nat)
    requires n < |s.artifacts| && RowsAre(cat, s, v, k, before, n)
    ensures RowsAre(cat, s, v, k, UpsertAt(s, v)(before, n), n + 1)
  {
    ArtifactNext(cat, s, v, k.artifact, before, n);
    MemberNext(cat, s, v, k, before, n);
  }

  lemma RowsUpserted(cat: Catalogue, s: Snapshot, v: string, k: MemberKey, n: nat)
    requires n <= |s.artifacts|
    ensures RowsAre(cat, s, v, k, UpsertAll(cat, s, v, n), n)
  {
    var inv := (after: Catalogue, i: nat) => RowsAre(cat, s, v, k, after, i);
    forall before: Catalogue, i: nat | i < n && inv(before, i) ensures inv(UpsertAt(s, v)(before, i), i + 1) {
      RowsNext(cat, s, v, k, before, i);
    }
    FoldKeeps(UpsertAt(s, v), cat, inv, n);
  }

  /** The upsert loop, with its repeated clearing of flags, comes to one direct rewrite of each row. */
  lemma UpsertAllKeyByKey(cat: Catalogue, s: Snapshot, v: string, n: nat)
    requires n <= |s.artifacts|
    ensures ArtifactsUpserted(cat, s, v, n, UpsertAll(cat, s, v, n))
    ensures MembersUpserted(cat, s, v, n, UpsertAll(cat, s, v, n))
    ensures UpsertAll(cat, s, v, n).versions == cat.versions
  {
    var after := UpsertAll(cat, s, v, n);
    forall a: ArtifactKey
      ensures a in after.artifacts <==> a in cat.artifacts || HoldsBefore(s, n, a)
      ensures a in after.artifacts ==> after.artifacts[a] == ArtifactAfter(cat, s, v, n, a)
    {
      RowsUpserted(cat, s, v, MemberKey(a, v), n);
      assert RowsAre(cat, s, v, MemberKey(a, v), after, n);
    }
    MembersUpsertedAll(cat, s, v, n, after);
  }

  lemma MembersUpsertedAll(cat: Catalogue, s: Snapshot, v: string, n: nat, after: Catalogue)
    requires n <= |s.artifacts| && after == UpsertAll(cat, s, v, n)
    ensures MembersUpserted(cat, s, v, n, after) && after.versions == cat.versions
  {
    RowsUpserted(cat, s, v, MemberKey(ArtifactKey("", ""), ""), n);
    forall k: MemberKey
      ensures k in after.members <==> k in cat.members || (HoldsBefore(s, n, k.artifact) && k.version == v)
      ensures k in after.members ==> after.members[k] == MemberAfter(cat, s, v, n, k)
    {
      RowsUpserted(cat, s, v, k, n);
    }
  }
}
