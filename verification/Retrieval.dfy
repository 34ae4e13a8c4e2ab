/** The retrieval service end to end: seeds, fusion, the cut to the best candidates, reranking, evidence. */
module Retrieval {
  import opened Ordering
  import opened Candidates
  import opened Fusion
  import opened FusionLaws
  import opened Reranking
  import opened Evidence
  import opened EvidenceLaws
  import Paths = RelationshipPaths

  // ----- Seeds of the relationship traversal -----

  ghost predicate FirstOf(cs: seq<Candidate>, j: nat) {
    j < |cs| && forall i :: 0 <= i < j ==> cs[i].chunk != cs[j].chunk
  }

  /** `at` lists the places in `cs` of the entries of `r`, the first of each chunk, in order. */
  ghost predicate FirstsAt(cs: seq<Candidate>, n: nat, r: seq<Candidate>, at: seq<nat>)
    requires n <= |cs|
  {
    && |at| == |r| && (forall i, j :: 0 <= i < j < |at| ==> at[i] < at[j])
    && (forall i :: 0 <= i < |at| ==> at[i] < n && FirstOf(cs, at[i]) && r[i] == cs[at[i]])
    && (forall j :: 0 <= j < n && FirstOf(cs, j) ==> j in at)
  }

  ghost predicate ReadTo(cs: seq<Candidate>, n: nat, seen: set<string>)
    requires n <= |cs|
  {
    forall c :: c in seen <==> exists j :: 0 <= j < n && cs[j].chunk == c
  }

  method FirstPerChunk(cs: seq<Candidate>) returns (r: seq<Candidate>, ghost at: seq<nat>)
    ensures FirstsAt(cs, |cs|, r, at)
    ensures OncePerChunk(r) && forall c :: Mentions(r, c) <==> Mentions(cs, c)
  {
    r, at := [], [];
    var seen: set<string> := {};
    for n := 0 to |cs|
      invariant ReadTo(cs, n, seen) && FirstsAt(cs, n, r, at)
    {
      if cs[n].chunk !in seen {
        assert FirstOf(cs, n);
        seen, r, at := seen + {cs[n].chunk}, r + [cs[n]], at + [n];
      } else {
        var j :| 0 <= j < n && cs[j].chunk == cs[n].chunk;
        assert !FirstOf(cs, n);
      }
    }
    FirstsCoverOnce(cs, r, at);
  }

  ghost predicate OncePerChunk(cs: seq<Candidate>) {
    forall i, j :: 0 <= i < j < |cs| ==> cs[i].chunk != cs[j].chunk
  }

  /** Keeping the first of each chunk keeps every chunk, once. */
  lemma FirstsCoverOnce(cs: seq<Candidate>, r: seq<Candidate>, at: seq<nat>)
    requires FirstsAt(cs, |cs|, r, at)
    ensures OncePerChunk(r) && forall c :: Mentions(r, c) <==> Mentions(cs, c)
  {
    forall c ensures Mentions(r, c) <==> Mentions(cs, c) {
      if Mentions(cs, c) {
        var j := FirstMention(cs, c);
        assert j in at;
        var i :| 0 <= i < |at| && at[i] == j;
        assert r[i].chunk == c;
      }
      if Mentions(r, c) {
        var i :| 0 <= i < |r| && r[i].chunk == c;
        assert cs[at[i]].chunk == c;
      }
    }
  }

  lemma FirstMention(cs: seq<Candidate>, chunk: string) returns (j: nat)
    requires Mentions(cs, chunk)
    ensures FirstOf(cs, j) && cs[j].chunk == chunk
  {
    j := 0;
    while cs[j].chunk != chunk
      invariant j < |cs| && forall i :: 0 <= i < j ==> cs[i].chunk != chunk
      decreases |cs| - j
    {
      var k :| 0 <= k < |cs| && cs[k].chunk == chunk;
      j := j + 1;
    }
  }

  /** The best-ranked of a chunk's path candidates, the first path winning ties. */
  function LeastRanked(paths: map<string, Candidate>, names: seq<string>): Option<Candidate> {
    if names == [] then None
    else
      var before, p := LeastRanked(paths, names[..|names| - 1]), names[|names| - 1];
      if p in paths then Better(before, paths[p]) else before
  }

  lemma {:induction false} LeastRankedIsLeast(paths: map<string, Candidate>, names: seq<string>)
    ensures LeastRanked(paths, names).None? ==> forall p :: p in names ==> p !in paths
    ensures LeastRanked(paths, names).Some? ==>
              && LeastRanked(paths, names).value in paths.Values
              && forall p :: p in names && p in paths ==> LeastRanked(paths, names).value.rank <= paths[p].rank
  {
    if names != [] {
      var most, last := names[..|names| - 1], names[|names| - 1];
      LeastRankedIsLeast(paths, most);
      assert names == most + [last];
    }
  }

  /** The chunks the named seed sources put forward; `fused` stands for every list. */
  ghost predicate SeedChunk(lists: Lists, sources: seq<string>, chunk: string) {
    exists p :: p in lists && Mentions(lists[p], chunk) && ("fused" in sources || p in sources)
  }

  ghost predicate Plain(lists: Lists, sources: seq<string>, n: nat, chunk: string)
    requires n <= |sources|
  {
    exists i :: 0 <= i < n && sources[i] != "fused" && sources[i] in lists && Mentions(lists[sources[i]], chunk)
  }

  lemma MentionsEither(a: seq<Candidate>, b: seq<Candidate>, chunk: string)
    ensures Mentions(a + b, chunk) <==> Mentions(a, chunk) || Mentions(b, chunk)
  {
    var all := a + b;
    if Mentions(a, chunk) {
      var i :| 0 <= i < |a| && a[i].chunk == chunk;
      assert all[i].chunk == chunk;
    }
    if Mentions(b, chunk) {
      var i :| 0 <= i < |b| && b[i].chunk == chunk;
      assert all[|a| + i].chunk == chunk;
    }
  }

  method PlainSeeds(lists: Lists, sources: seq<string>) returns (seeds: seq<Candidate>)
    ensures forall c :: Mentions(seeds, c) <==> Plain(lists, sources, |sources|, c)
  {
    seeds := [];
    for i := 0 to |sources|
      invariant forall c :: Mentions(seeds, c) <==> Plain(lists, sources, i, c)
    {
      var more := if sources[i] != "fused" && sources[i] in lists then lists[sources[i]] else [];
      forall c ensures Mentions(seeds + more, c) <==> Plain(lists, sources, i + 1, c) {
        MentionsEither(seeds, more, c);
      }
      seeds := seeds + more;
    }
  }

  method FusedSeeds(fused: seq<Fused>, lists: Lists, names: seq<string>) returns (seeds: seq<Candidate>)
    requires Named(lists, names)
    requires forall i :: 0 <= i < |fused| ==>
               Seen(lists, names, fused[i].chunk) && fused[i].paths == PathsFor(lists, names, fused[i].chunk)
    ensures |seeds| == |fused| && forall i :: 0 <= i < |fused| ==> seeds[i].chunk == fused[i].chunk
    ensures forall i :: 0 <= i < |fused| ==> LeastRanked(fused[i].paths, names) == Some(seeds[i])
  {
    seeds := [];
    for i := 0 to |fused|
      invariant |seeds| == i && forall j :: 0 <= j < i ==> seeds[j].chunk == fused[j].chunk
      invariant forall j :: 0 <= j < i ==> LeastRanked(fused[j].paths, names) == Some(seeds[j])
    {
      var least := LeastRanked(fused[i].paths, names);
      SeedOfEntry(lists, names, fused[i].chunk);
      seeds := seeds + [least.value];
    }
  }

  lemma SeedOfEntry(lists: Lists, names: seq<string>, chunk: string)
    requires Named(lists, names) && Seen(lists, names, chunk)
    ensures LeastRanked(PathsFor(lists, names, chunk), names).Some?
    ensures LeastRanked(PathsFor(lists, names, chunk), names).value.chunk == chunk
  {
    var paths := PathsFor(lists, names, chunk);
    EntryPathsExact(lists, names, chunk);
    LeastRankedIsLeast(paths, names);
    var q :| q in paths;
    var p :| p in paths && paths[p] == LeastRanked(paths, names).value;
    BestRankIsLeast(lists[p], chunk);
  }

  lemma FusedMentions(lists: Lists, weights: map<string, real>, k: int, signals: Signals, names: seq<string>,
                      r: seq<Fused>, chunk: string)
    requires IsFusion(lists, weights, k, signals, names, r)
    ensures (exists i :: 0 <= i < |r| && r[i].chunk == chunk) <==> (exists p :: p in lists && Mentions(lists[p], chunk))
    ensures (exists i :: 0 <= i < |r| && r[i].chunk == chunk) <==> Seen(lists, names, chunk)
  {
    EntryPathsExact(lists, names, chunk);
    if i :| 0 <= i < |r| && r[i].chunk == chunk {
      assert r[i] == FusedFor(lists, weights, k, names, chunk) && r[i] in r;
      var p :| p in PathsFor(lists, names, chunk);
      BestRankIsLeast(lists[p], chunk);
    }
    if p :| p in lists && Mentions(lists[p], chunk) {
      BestRankIsLeast(lists[p], chunk);
      SeenOnPath(lists, names, chunk, p);
      assert FusedFor(lists, weights, k, names, chunk) in r;
    }
  }

  /** `_relationship_seeds`: the chunks the sources put forward, each once. */
  method RelationshipSeeds(lists: Lists, weights: map<string, real>, k: int, sources: seq<string>)
    returns (r: Result<seq<Candidate>, FusionError>)
    requires "fused" !in lists
    ensures r.Err? <==> "fused" in sources && (k <= 0 || !NonNegative(lists, weights))
    ensures r.Ok? ==> OncePerChunk(r.value)
    ensures r.Ok? ==> forall c :: Mentions(r.value, c) <==> SeedChunk(lists, sources, c)
  {
    var plain := PlainSeeds(lists, sources);
    var extra: seq<Candidate> := [];
    if "fused" in sources {
      var fusion, names := Fuse(lists, weights, k, Signals(true, true));
      if fusion.Err? { return Err(fusion.error); }
      forall i | 0 <= i < |fusion.value|
        ensures Seen(lists, names, fusion.value[i].chunk)
        ensures fusion.value[i].paths == PathsFor(lists, names, fusion.value[i].chunk)
      {
        FusedMentions(lists, weights, k, Signals(true, true), names, fusion.value, fusion.value[i].chunk);
      }
      extra := FusedSeeds(fusion.value, lists, names);
      forall c ensures Mentions(extra, c) <==> exists p :: p in lists && Mentions(lists[p], c) {
        FusedMentions(lists, weights, k, Signals(true, true), names, fusion.value, c);
        if Mentions(extra, c) {
          var i :| 0 <= i < |extra| && extra[i].chunk == c;
          assert fusion.value[i].chunk == c;
        }
        if i :| 0 <= i < |fusion.value| && fusion.value[i].chunk == c { assert extra[i].chunk == c; }
      }
    }
    var seeds, at := FirstPerChunk(plain + extra);
    forall c ensures Mentions(seeds, c) <==> SeedChunk(lists, sources, c) {
      MentionsEither(plain, extra, c);
      PlainIsSeed(lists, sources, c);
    }
    return Ok(seeds);
  }

  lemma PlainIsSeed(lists: Lists, sources: seq<string>, chunk: string)
    requires "fused" !in lists
    ensures Plain(lists, sources, |sources|, chunk) <==>
              exists p :: p in lists && Mentions(lists[p], chunk) && p in sources
  {
    if p :| p in lists && Mentions(lists[p], chunk) && p in sources {
      var i :| 0 <= i < |sources| && sources[i] == p;
    }
  }

  // ----- Fusion, cut, reranking -----

  /** No reranker asked for; one asked for but not wired; or a registered one and whether it may be skipped. */
  datatype Reranker =
    | NotAsked
    | Missing
    | Registered(resolved: Option<Profile>, fallback: bool, limit: Option<nat>, provider: seq<Input> -> Reply)

  datatype RetrievalError =
    | NoExpander
    | PathRefused(refusal: Paths.Refusal)
    | FusionFailed(fusion: FusionError)
    | RerankFailed(failure: Failure)
    | AssemblyFailed(assembly: AssemblyError)

  datatype Ranking = Ranking(fused: seq<Fused>, ranked: seq<Fused>, reranked: Option<seq<Reranked>>)

  /** What the service may answer with instead when the provider cannot be used; bad candidates are never excused. */
  predicate Excusable(failure: Failure) {
    failure.Unavailable? || failure.ProviderFailed? || failure.WrongCandidates? || failure.WrongScores?
  }

  ghost predicate IsRanking(full: seq<Fused>, limit: nat, reranker: Reranker, r: Ranking) {
    && r.fused == Limited(full, limit)
    && match r.reranked
       case None => r.ranked == r.fused && !reranker.Missing?
                    && (reranker.Registered? ==> reranker.fallback && exists failure ::
                          Excusable(failure) && FailsWith(r.fused, reranker, failure))
       case Some(rs) =>
         && reranker.Registered? && reranker.resolved.Some? && r.ranked == FusedOf(rs)
         && RerankedTo(Sent(r.fused, reranker.resolved, reranker.limit), reranker.resolved.value, reranker.provider, rs)
  }

  ghost predicate FailsWith(fused: seq<Fused>, reranker: Reranker, failure: Failure)
    requires reranker.Registered?
  {
    Explains(Sent(fused, reranker.resolved, reranker.limit), reranker.resolved, reranker.provider, failure)
  }

  method Rank(full: seq<Fused>, limit: nat, reranker: Reranker) returns (r: Result<Ranking, RetrievalError>)
    ensures r.Ok? ==> IsRanking(full, limit, reranker, r.value)
    ensures r.Err? ==> r.error.RerankFailed? && !reranker.NotAsked?
    ensures r.Err? && reranker.Registered? ==>
              && FailsWith(Limited(full, limit), reranker, r.error.failure)
              && (Excusable(r.error.failure) ==> !reranker.fallback)
  {
    var fused := Limited(full, limit);
    match reranker
    case NotAsked => return Ok(Ranking(fused, fused, None));
    case Missing => return Err(RerankFailed(Unavailable));
    case Registered(resolved, fallback, queryLimit, provider) =>
      var reply := Rerank(fused, resolved, queryLimit, provider);
      if reply.Ok? { return Ok(Ranking(fused, FusedOf(reply.value), Some(reply.value))); }
      assert FailsWith(fused, reranker, reply.error);
      if Excusable(reply.error) && fallback { return Ok(Ranking(fused, fused, None)); }
      return Err(RerankFailed(reply.error));
  }

  lemma LimitedKeepsOneEntry(cs: seq<Fused>, limit: nat)
    requires OneEntryAChunk(cs)
    ensures OneEntryAChunk(Limited(cs, limit))
    ensures forall f :: f in Limited(cs, limit) ==> f in cs
  {}

  /** Whatever the reranker does, the ranked list holds fused candidates only, each chunk at most once. */
  lemma RankingKeepsFused(full: seq<Fused>, limit: nat, reranker: Reranker, r: Ranking)
    requires IsRanking(full, limit, reranker, r) && OneEntryAChunk(full)
    ensures OneEntryAChunk(r.ranked) && |r.ranked| <= limit
    ensures forall f :: f in r.ranked ==> f in full
    ensures r.reranked.None? ==> r.ranked == Limited(full, limit)
    ensures r.reranked.Some? ==> forall f :: f in r.ranked <==>
              f in Sent(Limited(full, limit), reranker.resolved, reranker.limit)
  {
    LimitedKeepsOneEntry(full, limit);
    if r.reranked.Some? {
      var rs := r.reranked.value;
      var profile := reranker.resolved.value;
      var sent := Sent(r.fused, reranker.resolved, reranker.limit);
      var byId :| IsReranking(sent, byId, Truncations(sent, profile.maxTextLength), rs);
      LimitedKeepsOneEntry(r.fused, LimitOf(profile, reranker.limit));
      RerankingPermutes(sent, byId, Truncations(sent, profile.maxTextLength), rs);
      forall f ensures f in r.ranked <==> f in sent {
        if f in r.ranked { var i :| 0 <= i < |rs| && rs[i].fused == f; }
        if f in sent {
          var i :| 0 <= i < |rs| && rs[i].fused == f;
          assert r.ranked[i] == f;
        }
      }
    }
  }

  // ----- Evidence for a query -----

  /** The ranked candidates come from the lists, each chunk once. */
  ghost predicate RankedFrom(lists: Lists, ranked: seq<Fused>) {
    OneEntryAChunk(ranked) && forall f :: f in ranked ==> EntryFrom(lists, f)
  }

  /** The entry has exactly the paths whose list has the chunk, each with a best-ranked candidate of that list. */
  ghost predicate EntryFrom(lists: Lists, f: Fused) {
    && (forall p :: p in f.paths <==> p in lists && Mentions(lists[p], f.chunk))
    && f.paths != map[]
    && forall p :: p in f.paths ==> BestIn(lists[p], f.chunk, f.paths[p])
  }

  ghost predicate BestIn(list: seq<Candidate>, chunk: string, c: Candidate) {
    c in list && c.chunk == chunk && forall d :: d in list && d.chunk == chunk ==> c.rank <= d.rank
  }

  lemma FusedEntryFrom(lists: Lists, weights: map<string, real>, k: int, signals: Signals, names: seq<string>,
                       r: seq<Fused>, f: Fused)
    requires IsFusion(lists, weights, k, signals, names, r) && f in r
    ensures EntryFrom(lists, f)
  {
    var i :| 0 <= i < |r| && r[i] == f;
    assert f == FusedFor(lists, weights, k, names, f.chunk);
    EntryPathsExact(lists, names, f.chunk);
    FusedMentions(lists, weights, k, signals, names, r, f.chunk);
    forall p ensures p in f.paths <==> p in lists && Mentions(lists[p], f.chunk) {
      if p in lists { BestRankIsLeast(lists[p], f.chunk); }
    }
    forall p | p in f.paths ensures BestIn(lists[p], f.chunk, f.paths[p]) {
      BestRankIsLeast(lists[p], f.chunk);
    }
  }

  method EvidenceFromLists(lists: Lists, weights: map<string, real>, k: int, signals: Signals, fusedLimit: nat,
                           reranker: Reranker, fetcher: seq<Fused> -> Fetched, budget: nat)
    returns (r: Result<Bundle, RetrievalError>, ghost ranking: Ranking, ghost names: seq<string>,
             ghost full: seq<Fused>)
    ensures r.Err? && r.error.FusionFailed? <==> k <= 0 || !NonNegative(lists, weights)
    ensures r.Err? ==> r.error.FusionFailed? || r.error.RerankFailed? || r.error.AssemblyFailed?
    ensures r.Ok? ==>
              IsFusion(lists, weights, k, signals, names, full) && IsRanking(full, fusedLimit, reranker, ranking)
    ensures r.Ok? ==> RankedFrom(lists, ranking.ranked) && |ranking.ranked| <= fusedLimit
    ensures r.Ok? ==> IsBundle(ranking.ranked, fetcher(ranking.ranked), budget, r.value) && r.value.estimated <= budget
  {
    ranking, names, full := Ranking([], [], None), [], [];
    var fusion, paths := Fuse(lists, weights, k, signals);
    if fusion.Err? { return Err(FusionFailed(fusion.error)), ranking, names, full; }
    names, full := paths, fusion.value;
    var ranked := Rank(fusion.value, fusedLimit, reranker);
    if ranked.Err? { return Err(ranked.error), ranking, names, full; }
    ranking := ranked.value;
    FusedChunksDistinct(lists, weights, k, signals, paths, fusion.value);
    RankingKeepsFused(fusion.value, fusedLimit, reranker, ranked.value);
    forall f | f in ranked.value.ranked ensures EntryFrom(lists, f) {
      FusedEntryFrom(lists, weights, k, signals, paths, fusion.value, f);
    }
    var fetched := fetcher(ranked.value.ranked);
    var bundle := Assemble(ranked.value.ranked, fetched, budget);
    if bundle.Err? { return Err(AssemblyFailed(bundle.error)), ranking, names, full; }
    BundleFitsBudget(ranked.value.ranked, fetched, budget, bundle.value);
    return Ok(bundle.value), ranking, names, full;
  }

  // ----- Relationship paths survive to the evidence -----

  /** The relationship list as the service's own check lets it through. */
  ghost predicate ListValidated(lists: Lists, t: Paths.Traversal, seeds: set<string>) {
    "relationship" in lists ==> forall c :: c in lists["relationship"] ==> Paths.ServiceAccepts(c, t, seeds)
  }

  /** Evidence, budget left, and every edge of the path, if there is one, fit to be released. */
  ghost predicate Deserves(ranked: seq<Fused>, fetched: Fetched, budget: nat, n: nat)
    requires n < |ranked|
  {
    && Usable(fetched, ranked[n].chunk) && Asked(ranked, fetched, n) < 4 * budget
    && PathReleasable(ranked[n], set c | c in fetched.records[ranked[n].chunk].citations)
  }

  ghost predicate PathReleasable(f: Fused, allowed: set<string>) {
    forall i :: 0 <= i < |ShownPath(f)| ==> Paths.Releasable(ShownPath(f)[i], allowed)
  }

  /** With a validated list no candidate is dropped for the shape of its path. */
  lemma ValidatedPathsReachEvidence(lists: Lists, t: Paths.Traversal, seeds: set<string>, ranked: seq<Fused>,
                                    fetched: Fetched, budget: nat, n: nat)
    requires RankedFrom(lists, ranked) && ListValidated(lists, t, seeds) && t.maxDepth <= 3 && n < |ranked|
    ensures Kept(ranked, fetched, budget, n) <==> Deserves(ranked, fetched, budget, n)
  {
    var f := ranked[n];
    assert f in ranked;
    DroppedExactlyWhen(ranked, fetched, budget, n);
    if "relationship" in f.paths && Usable(fetched, f.chunk) {
      var c := f.paths["relationship"];
      assert BestIn(lists["relationship"], f.chunk, c);
      var allowed := set c | c in fetched.records[f.chunk].citations;
      assert ShownPath(f) == Paths.EdgesOf(c);
      Paths.ServicePathsPassEvidence(c, t, seeds, allowed);
      assert PathAccepted(f, allowed) <==> PathReleasable(f, allowed);
    }
  }

  // ----- The whole service -----

  /** Whether and how relationships are followed; an expander may not be wired. */
  datatype Relationships =
    | Ignored
    | Followed(settings: Paths.Traversal, sources: seq<string>, expander: Option<seq<Candidate> -> seq<Candidate>>)

  /** The bounds a configured traversal keeps to. */
  predicate Configured(relationships: Relationships) {
    relationships.Followed? ==> 1 <= relationships.settings.limit && relationships.settings.maxDepth <= 3
  }

  function ChunksOf(cs: seq<Candidate>): set<string> { set i | 0 <= i < |cs| :: cs[i].chunk }

  /** What the expander made of the seeds, read up to the limit, each chunk once and each path acceptable. */
  ghost predicate ExpandedTo(given: Lists, relationships: Relationships, seeds: seq<Candidate>, read: nat,
                             lists: Lists)
  {
    match relationships
    case Ignored => lists == given
    case Followed(t, sources, expander) =>
      && expander.Some? && OncePerChunk(seeds)
      && (forall c :: c in ChunksOf(seeds) <==> SeedChunk(given, sources, c))
      && var found := expander.value(seeds);
         && read <= |found| && Paths.AllAccepted(found, read, t, ChunksOf(seeds))
         && Paths.FanoutKept(found, read, t.fanout)
         && lists == given["relationship" := Paths.FirstByChunk(found, read)]
         && |lists["relationship"]| <= t.limit && (read == |found| || |lists["relationship"]| == t.limit)
  }

  /** Why relationships could not be followed. */
  ghost predicate ExpansionFails(given: Lists, weights: map<string, real>, k: int, relationships: Relationships,
                                 seeds: seq<Candidate>, read: nat, error: RetrievalError)
  {
    && relationships.Followed?
    && match error
       case NoExpander => relationships.expander.None?
       case FusionFailed(_) => "fused" in relationships.sources && (k <= 0 || !NonNegative(given, weights))
       case PathRefused(refusal) =>
         && relationships.expander.Some? && OncePerChunk(seeds)
         && (forall c :: c in ChunksOf(seeds) <==> SeedChunk(given, relationships.sources, c))
         && var found := relationships.expander.value(seeds);
            && read < |found|
            && if refusal == Paths.TooWide then Paths.FanoutBroken(found, read, relationships.settings.fanout)
               else Paths.Faulty(found[read], relationships.settings, ChunksOf(seeds), refusal)
       case _ => false
  }

  /** The relationship list is built from the seeds before anything is fused. */
  method Expand(given: Lists, weights: map<string, real>, k: int, relationships: Relationships)
    returns (r: Result<Lists, RetrievalError>, ghost seeds: seq<Candidate>, ghost read: nat)
    requires "fused" !in given && "relationship" !in given && Configured(relationships)
    ensures r.Err? && r.error.NoExpander? <==> relationships.Followed? && relationships.expander.None?
    ensures r.Ok? ==> ExpandedTo(given, relationships, seeds, read, r.value)
    ensures r.Err? ==> ExpansionFails(given, weights, k, relationships, seeds, read, r.error)
  {
    seeds, read := [], 0;
    match relationships
    case Ignored => return Ok(given), seeds, read;
    case Followed(t, sources, expander) =>
      if expander.None? { return Err(NoExpander), seeds, read; }
      var from := RelationshipSeeds(given, weights, k, sources);
      if from.Err? { return Err(FusionFailed(from.error)), seeds, read; }
      seeds := from.value;
      forall c ensures c in ChunksOf(from.value) <==> SeedChunk(given, sources, c) {
        assert c in ChunksOf(from.value) <==> Mentions(from.value, c);
      }
      var valid, looked := Paths.ValidateRelationshipCandidates(expander.value(from.value), t, ChunksOf(from.value));
      read := looked;
      if valid.Err? { return Err(PathRefused(valid.error)), seeds, read; }
      return Ok(given["relationship" := valid.value]), seeds, read;
  }

  /** Whatever the expander returns, the relationship list that goes on is a validated one. */
  lemma ExpandedIsValidated(given: Lists, relationships: Relationships, seeds: seq<Candidate>, read: nat,
                            lists: Lists)
    requires ExpandedTo(given, relationships, seeds, read, lists) && relationships.Followed?
    ensures ListValidated(lists, relationships.settings, ChunksOf(seeds))
  {
    var t, from := relationships.settings, ChunksOf(seeds);
    var found, valid := relationships.expander.value(seeds), lists["relationship"];
    Paths.FirstByChunkLists(found, read);
    forall c | c in valid ensures Paths.ServiceAccepts(c, t, from) {
      var i :| 0 <= i < |valid| && valid[i] == c;
      var j: nat :| j < read && Paths.FirstFor(found, j) && valid[i] == found[j].(rank := i + 1);
      Paths.AcceptedEach(found, read, t, from, j);
    }
  }

  /** What happened on the way to a bundle. */
  datatype Course = Course(
    seeds: seq<Candidate>, read: nat, lists: Lists, names: seq<string>, full: seq<Fused>, ranking: Ranking)

  /** Every list is accounted for, and of the ranked candidates exactly the deserving become items. */
  ghost predicate Retrieved(given: Lists, weights: map<string, real>, k: int, signals: Signals,
                            relationships: Relationships, fusedLimit: nat, reranker: Reranker,
                            fetcher: seq<Fused> -> Fetched, budget: nat, course: Course, bundle: Bundle)
  {
    var ranked, fetched := course.ranking.ranked, fetcher(course.ranking.ranked);
    && ExpandedTo(given, relationships, course.seeds, course.read, course.lists)
    && IsFusion(course.lists, weights, k, signals, course.names, course.full)
    && IsRanking(course.full, fusedLimit, reranker, course.ranking)
    && RankedFrom(course.lists, ranked) && |ranked| <= fusedLimit
    && IsBundle(ranked, fetched, budget, bundle) && bundle.estimated <= budget
    && forall n :: 0 <= n < |ranked| ==> (Kept(ranked, fetched, budget, n) <==> Deserves(ranked, fetched, budget, n))
  }

  lemma EveryPathReachesEvidence(given: Lists, relationships: Relationships, seeds: seq<Candidate>, read: nat,
                                 lists: Lists, ranked: seq<Fused>, fetched: Fetched, budget: nat)
    requires "relationship" !in given && Configured(relationships)
    requires ExpandedTo(given, relationships, seeds, read, lists) && RankedFrom(lists, ranked)
    ensures forall n :: 0 <= n < |ranked| ==>
              (Kept(ranked, fetched, budget, n) <==> Deserves(ranked, fetched, budget, n))
  {
    var t := if relationships.Followed? then relationships.settings else Paths.Traversal(0, 0, 0, {}, {});
    if relationships.Followed? { ExpandedIsValidated(given, relationships, seeds, read, lists); }
    forall n | 0 <= n < |ranked|
      ensures Kept(ranked, fetched, budget, n) <==> Deserves(ranked, fetched, budget, n)
    {
      ValidatedPathsReachEvidence(lists, t, ChunksOf(seeds), ranked, fetched, budget, n);
    }
  }

  /** `retrieve_evidence`: seeds, expansion, validation, fusion, ranking and assembly, whatever the expander returns. */
  method RetrieveEvidence(given: Lists, weights: map<string, real>, k: int, signals: Signals,
                          relationships: Relationships, fusedLimit: nat, reranker: Reranker,
                          fetcher: seq<Fused> -> Fetched, budget: nat)
    returns (r: Result<Bundle, RetrievalError>, ghost course: Course)
    requires "fused" !in given && "relationship" !in given && Configured(relationships)
    ensures r.Ok? ==> Retrieved(given, weights, k, signals, relationships, fusedLimit, reranker, fetcher, budget,
                                course, r.value)
    ensures r.Err? && r.error.NoExpander? <==> relationships.Followed? && relationships.expander.None?
    ensures r.Err? && r.error.PathRefused? ==>
              ExpansionFails(given, weights, k, relationships, course.seeds, course.read, r.error)
    ensures r.Ok? ==> k > 0 && NonNegative(course.lists, weights) && r.value.estimated <= budget
    ensures r.Err? && r.error.FusionFailed? ==>
              k <= 0 || !NonNegative(given, weights) || !NonNegative(course.lists, weights)
  {
    course := Course([], 0, map[], [], [], Ranking([], [], None));
    var lists, seeds, read := Expand(given, weights, k, relationships);
    course := course.(seeds := seeds, read := read);
    if lists.Err? { return Err(lists.error), course; }
    ghost var ranking, names, full;
    r, ranking, names, full :=
      EvidenceFromLists(lists.value, weights, k, signals, fusedLimit, reranker, fetcher, budget);
    course := Course(seeds, read, lists.value, names, full, ranking);
    if r.Ok? {
      EveryPathReachesEvidence(given, relationships, seeds, read, lists.value, ranking.ranked,
                               fetcher(ranking.ranked), budget);
    }
  }
}
