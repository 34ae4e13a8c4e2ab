/** Chunk rows and their version memberships, the table the embedding planner reads. */
module ChunkCatalogue {
  import opened Ordering
  import E = EmbeddingTables
  import P = EmbeddingPlanning

  datatype ChunkRow = ChunkRow(source: string, version: Option<string>, hash: string)

  datatype MemberKey = MemberKey(chunk: string, version: string)

  datatype Member = Member(current: bool, tombstoned: bool, hash: string)

  datatype Tables = Tables(chunks: map<string, ChunkRow>, members: map<MemberKey, Member>)

  const EMPTY := Tables(map[], map[])

  /** A sanitized chunk; its key is also the row's identifier. */
  datatype Sanitized = Sanitized(key: string, source: string, version: Option<string>, hash: string)

  datatype Step = Upserting(chunk: Sanitized) | Retiring(source: string, keys: set<string>)

  function NotCurrent(members: map<MemberKey, Member>, chunk: string): map<MemberKey, Member> {
    map k | k in members :: if k.chunk == chunk then members[k].(current := false) else members[k]
  }

  /** `upsert_chunk` then `upsert_chunk_version`; a key held by another source breaks the primary key. */
  function Upserted(t: Tables, c: Sanitized): Option<Tables> {
    if c.key in t.chunks && t.chunks[c.key].source != c.source then None
    else
      var chunks := t.chunks[c.key := ChunkRow(c.source, c.version, c.hash)];
      Some(Tables(chunks,
                  if c.version.None? then t.members
                  else NotCurrent(t.members, c.key)[MemberKey(c.key, c.version.value) := Member(true, false, c.hash)]))
  }

  function StaleMembers(t: Tables, source: string, keys: set<string>): set<MemberKey> {
    set k | k in t.members && t.members[k].current && k.chunk in t.chunks
            && t.chunks[k.chunk].source == source && k.chunk !in keys
  }

  function Retired(t: Tables, source: string, keys: set<string>): Tables {
    var stale := set k | k in StaleMembers(t, source, keys) :: k.chunk;
    Tables(
      map c | c in t.chunks :: if c in stale then t.chunks[c].(version := None) else t.chunks[c],
      map k | k in t.members ::
        if k.chunk in stale && t.members[k].current then t.members[k].(current := false, tombstoned := true)
        else t.members[k])
  }

  /** The chunk's row and the membership of its version are written; its other memberships only stop being current. */
  lemma UpsertTells(t: Tables, c: Sanitized)
    ensures Upserted(t, c).None? <==> c.key in t.chunks && t.chunks[c.key].source != c.source
    ensures Upserted(t, c).Some? ==>
              var after := Upserted(t, c).value;
              && after.chunks == t.chunks[c.key := ChunkRow(c.source, c.version, c.hash)]
              && (c.version.None? ==> after.members == t.members)
              && forall k :: c.version.Some? ==>
                   (k in after.members <==> k in t.members || k == MemberKey(c.key, c.version.value))
                   && (k in after.members ==>
                         after.members[k] ==
                           if k == MemberKey(c.key, c.version.value) then Member(true, false, c.hash)
                           else Member(t.members[k].current && k.chunk != c.key, t.members[k].tombstoned,
                                       t.members[k].hash))
  {}

  /** A current membership of a chunk of the source outside the keys ends with a tombstone, and the pointer goes. */
  lemma RetireTells(t: Tables, source: string, keys: set<string>)
    ensures var after := Retired(t, source, keys);
            && after.chunks.Keys == t.chunks.Keys && after.members.Keys == t.members.Keys
            && (forall k :: k in t.members ==>
                  var m := t.members[k];
                  after.members[k] ==
                    if m.current && Outside(t, source, keys, k.chunk) then Member(false, true, m.hash) else m)
            && forall c :: c in t.chunks ==>
                 var row := t.chunks[c];
                 after.chunks[c] ==
                   if Outside(t, source, keys, c) && exists v :: IsCurrent(t, c, v)
                   then ChunkRow(row.source, None, row.hash) else row
  {
    forall c | c in t.chunks
      ensures (exists k :: k in StaleMembers(t, source, keys) && k.chunk == c) <==>
                Outside(t, source, keys, c) && exists v :: IsCurrent(t, c, v)
    {
      if Outside(t, source, keys, c) {
        if v :| IsCurrent(t, c, v) { assert MemberKey(c, v) in StaleMembers(t, source, keys); }
        if k :| k in StaleMembers(t, source, keys) && k.chunk == c {
          assert k == MemberKey(c, k.version) && IsCurrent(t, c, k.version);
        }
      }
    }
  }

  predicate Outside(t: Tables, source: string, keys: set<string>, c: string) {
    c in t.chunks && t.chunks[c].source == source && c !in keys
  }

  function Apply(t: Tables, step: Step): Tables {
    match step
    case Upserting(c) => if Upserted(t, c).Some? then Upserted(t, c).value else t
    case Retiring(source, keys) => Retired(t, source, keys)
  }

  function Run(t: Tables, steps: seq<Step>): Tables
    decreases |steps|
  {
    if steps == [] then t else Run(Apply(t, steps[0]), steps[1..])
  }

  predicate IsCurrent(t: Tables, c: string, v: string) {
    MemberKey(c, v) in t.members && t.members[MemberKey(c, v)].current
  }

  ghost predicate Consistent(t: Tables) {
    && (forall c, j, k :: IsCurrent(t, c, j) && IsCurrent(t, c, k) ==> j == k)
    && (forall k :: k in t.members ==> k.chunk in t.chunks)
    && (forall k :: k in t.members && t.members[k].current ==> !t.members[k].tombstoned)
  }

  ghost predicate PointersAgree(t: Tables) {
    forall c, v :: IsCurrent(t, c, v) <==> c in t.chunks && t.chunks[c].version == Some(v)
  }

  lemma ApplyKeeps(t: Tables, step: Step)
    requires Consistent(t)
    ensures Consistent(Apply(t, step))
    ensures t.chunks.Keys <= Apply(t, step).chunks.Keys && t.members.Keys <= Apply(t, step).members.Keys
  {
    var after := Apply(t, step);
    match step
    case Upserting(c) =>
      forall x, v ensures IsCurrent(after, x, v) <==>
        if Upserted(t, c).Some? && c.version.Some? && x == c.key then v == c.version.value else IsCurrent(t, x, v)
      {}
    case Retiring(source, keys) =>
      assert forall x, v :: IsCurrent(after, x, v) ==> IsCurrent(t, x, v);
  }

  /** Over every sequence of upserts and retirements a chunk has at most one current membership. */
  lemma {:induction false} RunKeeps(t: Tables, steps: seq<Step>)
    requires Consistent(t)
    ensures Consistent(Run(t, steps))
    ensures t.members.Keys <= Run(t, steps).members.Keys && t.chunks.Keys <= Run(t, steps).chunks.Keys
    decreases |steps|
  {
    if steps != [] {
      ApplyKeeps(t, steps[0]);
      RunKeeps(Apply(t, steps[0]), steps[1..]);
    }
  }

  /** An upsert keeps version pointer and membership in step unless it drops the version of a chunk that is current. */
  lemma UpsertKeepsPointersIff(t: Tables, c: Sanitized)
    requires Consistent(t) && PointersAgree(t) && Upserted(t, c).Some?
    ensures PointersAgree(Upserted(t, c).value) <==> c.version.Some? || forall v :: !IsCurrent(t, c.key, v)
  {
    var after := Upserted(t, c).value;
    forall x, v ensures IsCurrent(after, x, v) <==>
      if c.version.Some? && x == c.key then v == c.version.value else IsCurrent(t, x, v)
    {}
    if c.version.None? {
      if v :| IsCurrent(t, c.key, v) { assert IsCurrent(after, c.key, v); }
    }
  }

  /** A chunk ingested with a version and then without: the pointer is gone and the membership still current. */
  lemma DroppedVersionSplits(c: Sanitized)
    requires c.version.Some?
    ensures var t := Run(EMPTY, [Upserting(c), Upserting(c.(version := None))]);
            && c.key in t.chunks && t.chunks[c.key].version == None
            && IsCurrent(t, c.key, c.version.value) && !PointersAgree(t)
  {
    var first, second := Upserting(c), Upserting(c.(version := None));
    var once := Apply(EMPTY, first);
    var twice := Apply(once, second);
    assert [first, second][1..] == [second] && [second][1..] == [];
    assert Run(twice, []) == twice && Run(once, [second]) == twice;
    assert IsCurrent(twice, c.key, c.version.value);
  }

  lemma RetireKeepsPointers(t: Tables, source: string, keys: set<string>)
    requires Consistent(t) && PointersAgree(t)
    ensures PointersAgree(Retired(t, source, keys))
    ensures forall c, v :: IsCurrent(Retired(t, source, keys), c, v) <==>
              IsCurrent(t, c, v) && !(t.chunks[c].source == source && c !in keys)
  {
    var stale := StaleMembers(t, source, keys);
    forall c, v ensures IsCurrent(Retired(t, source, keys), c, v) <==>
              IsCurrent(t, c, v) && !(t.chunks[c].source == source && c !in keys)
    {
      if IsCurrent(t, c, v) && t.chunks[c].source == source && c !in keys { assert MemberKey(c, v) in stale; }
      if k :| k in stale && k.chunk == c {
        assert k == MemberKey(c, k.version) && IsCurrent(t, c, k.version);
      }
    }
    forall c | c in t.chunks && t.chunks[c].version.Some? ensures IsCurrent(t, c, t.chunks[c].version.value) {}
  }

  function AsMemberships(t: Tables): map<E.MemberKey, E.Membership> {
    map k | k in set m | m in t.members :: E.MemberKey(m.chunk, m.version) ::
      E.Membership(t.members[MemberKey(k.chunk, k.version)].current,
                   t.members[MemberKey(k.chunk, k.version)].tombstoned)
  }

  /** What the planner needs of the chunk tables holds whatever was ingested before. */
  lemma PlannerSeesOneMembership(steps: seq<Step>, db: E.Db)
    requires db.memberships == AsMemberships(Run(EMPTY, steps))
    ensures P.OneCurrent(db)
  {
    var t := Run(EMPTY, steps);
    RunKeeps(EMPTY, steps);
    forall c, j, k | j in E.CurrentMemberships(db, c) && k in E.CurrentMemberships(db, c) ensures j == k {
      assert IsCurrent(t, c, j.version) && IsCurrent(t, c, k.version);
    }
  }

  class ChunkRepository {
    var chunks: map<string, ChunkRow>
    var members: map<MemberKey, Member>

    constructor (t: Tables)
      ensures View() == t
    {
      chunks, members := t.chunks, t.members;
    }

    function View(): Tables
      reads this
    {
      Tables(chunks, members)
    }

    method UpsertChunk(c: Sanitized) returns (ok: bool)
      modifies this`chunks
      ensures ok <==> Upserted(old(View()), c).Some?
      ensures chunks == if ok then old(chunks)[c.key := ChunkRow(c.source, c.version, c.hash)] else old(chunks)
    {
      if c.key in chunks && chunks[c.key].source != c.source { return false; }
      chunks := chunks[c.key := ChunkRow(c.source, c.version, c.hash)];
      return true;
    }

    method UpsertChunkVersion(key: string) returns (recorded: bool)
      requires key in chunks
      modifies this`members
      ensures recorded <==> chunks[key].version.Some?
      ensures members == if recorded
                then NotCurrent(old(members), key)
                       [MemberKey(key, chunks[key].version.value) := Member(true, false, chunks[key].hash)]
                else old(members)
    {
      if chunks[key].version.None? { return false; }
      members := map k | k in members :: if k.chunk == key then members[k].(current := false) else members[k];
      members := members[MemberKey(key, chunks[key].version.value) := Member(true, false, chunks[key].hash)];
      return true;
    }

    method Upsert(c: Sanitized) returns (ok: bool)
      modifies this
      ensures ok <==> Upserted(old(View()), c).Some?
      ensures View() == Apply(old(View()), Upserting(c))
    {
      ok := UpsertChunk(c);
      if ok { var _ := UpsertChunkVersion(c.key); }
    }

    method RetireChunksAbsentFromSnapshot(source: string, keys: set<string>) returns (count: nat)
      modifies this
      ensures View() == Retired(old(View()), source, keys)
      ensures count == |StaleMembers(old(View()), source, keys)|
    {
      var stale := StaleMembers(View(), source, keys);
      var ids := set k | k in stale :: k.chunk;
      count := |stale|;
      members := map k | k in members ::
        if k.chunk in ids && members[k].current then members[k].(current := false, tombstoned := true) else members[k];
      chunks := map c | c in chunks :: if c in ids then chunks[c].(version := None) else chunks[c];
    }
  }
}
