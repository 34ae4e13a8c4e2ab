/** What a retrieved bundle shows of relationships, and why a ranking is the fused order, read off the inputs. */
module RetrievalContents {
  import opened Ordering
  import opened Candidates
  import opened Fusion
  import opened FusionLaws
  import opened Reranking
  import opened RerankContents
  import opened Evidence
  import opened EvidenceLaws
  import opened BundleContents
  import opened Retrieval
  import Paths = RelationshipPaths

  /** A path the traversal allows from a chunk that a named source puts forward to the chunk shown. */
  ghost predicate LeadsFromSeed(given: Lists, sources: seq<string>, t: Paths.Traversal, path: seq<Edge>,
                                chunk: string)
  {
    && 1 <= |path| <= t.maxDepth && Paths.AreEdges(path)
    && (forall i :: 0 <= i < |path| ==> Paths.HopServes(path, i, t))
    && Paths.NoneTwice(path) && path[|path| - 1].target == chunk
    && SeedChunk(given, sources, path[0].source)
  }

  /** Every hop cites something, and only what the item cites. */
  predicate CitedByItem(item: Item) {
    forall e :: e in item.path ==> e.Edge? && e.citations != [] && forall c :: c in e.citations ==> c in item.citations
  }

  lemma RelationshipServes(given: Lists, relationships: Relationships, seeds: seq<Candidate>, read: nat, lists: Lists,
                           f: Fused)
    requires "relationship" !in given && relationships.Followed? && "relationship" in f.paths
    requires ExpandedTo(given, relationships, seeds, read, lists) && EntryFrom(lists, f)
    ensures f.paths["relationship"].data.edges.Some?
    ensures LeadsFromSeed(given, relationships.sources, relationships.settings,
                          f.paths["relationship"].data.edges.value, f.chunk)
  {
    var c, t := f.paths["relationship"], relationships.settings;
    ExpandedIsValidated(given, relationships, seeds, read, lists);
    assert BestIn(lists["relationship"], f.chunk, c);
    Paths.AcceptsIffServes(c, t, ChunksOf(seeds));
  }

  lemma ShownFromEntry(cs: seq<Fused>, fetched: Fetched, budget: nat, b: Bundle, i: nat, n: nat)
    requires OneEntryAChunk(cs) && n < |cs| && i < |b.items|
    requires Earns(cs, fetched, budget, n) && ItemFrom(cs, fetched, b.items[i], n) && ShowsPathOf(cs, b.items[i], n)
    ensures if "relationship" in cs[n].paths then cs[n].paths["relationship"].data.edges == Some(b.items[i].path)
            else b.items[i].path == []
    ensures CitedByItem(b.items[i])
  {
    assert LastOfChunk(cs, n, cs[n].chunk);
    var item := b.items[i];
    forall e | e in item.path
      ensures e.Edge? && e.citations != [] && forall c :: c in e.citations ==> c in item.citations
    {
      var k :| 0 <= k < |item.path| && item.path[k] == e;
      assert HopFits(item.path, k, set c | c in fetched.records[cs[n].chunk].citations);
    }
  }

  /**
   An item of a retrieved bundle shows a relationship path if and only if its chunk was found over
   relationships; the path is one the traversal allows, from a seed to that chunk, and the item cites
   whatever its hops cite.
   */
  lemma ShownPathsServe(given: Lists, weights: map<string, real>, k: int, signals: Signals,
                        relationships: Relationships, fusedLimit: nat, reranker: Reranker,
                        fetcher: seq<Fused> -> Fetched, budget: nat, course: Course, b: Bundle)
    returns (from: seq<nat>)
    requires "relationship" !in given
    requires Retrieved(given, weights, k, signals, relationships, fusedLimit, reranker, fetcher, budget, course, b)
    ensures |from| == |b.items| && forall i :: 0 <= i < |from| ==> from[i] < |course.ranking.ranked|
    ensures forall i :: 0 <= i < |from| ==>
              ShowsServed(given, relationships, course.ranking.ranked[from[i]], b.items[i])
  {
    var ranked, fetched := course.ranking.ranked, fetcher(course.ranking.ranked);
    from := BundleTells(ranked, fetched, budget, b);
    forall i | 0 <= i < |from| ensures from[i] < |ranked| { assert from[i] in from; }
    forall i | 0 <= i < |from| ensures ShowsServed(given, relationships, ranked[from[i]], b.items[i]) {
      assert from[i] in from;
      var f := ranked[from[i]];
      assert f in ranked;
      assert ShowsWhatIsLeft(ranked, fetched, budget, b.items[i], from[i]);
      ShownFromEntry(ranked, fetched, budget, b, i, from[i]);
      if "relationship" in f.paths {
        assert relationships.Followed?;
        RelationshipServes(given, relationships, course.seeds, course.read, course.lists, f);
      }
    }
  }

  ghost predicate ShowsServed(given: Lists, relationships: Relationships, f: Fused, item: Item) {
    && (item.path != [] <==> "relationship" in f.paths) && CitedByItem(item)
    && (item.path != [] ==>
          && relationships.Followed?
          && LeadsFromSeed(given, relationships.sources, relationships.settings, item.path, f.chunk))
  }

  // ----- The ranking -----

  /** The provider failed, or answered the candidates sent, all fit to be, with unusable scores. */
  ghost predicate ProviderUnusable(fused: seq<Fused>, reranker: Reranker)
    requires reranker.Registered?
  {
    reranker.resolved.Some? ==>
      var sent := Sent(fused, reranker.resolved, reranker.limit);
      && sent != [] && AllMaySend(sent)
      && exists inputs, failure :: InputsFor(sent, reranker.resolved.value.maxTextLength, inputs)
                                   && AnswerFails(sent, reranker.provider(inputs), failure)
  }

  /**
   The fused order stands only when no reranker was asked for, or when one that may be skipped is missing its
   provider or got no usable answer from it; a candidate that may not be sent never leads to it.
   */
  lemma FusedOrderOnlyWhen(full: seq<Fused>, limit: nat, reranker: Reranker, r: Ranking)
    requires IsRanking(full, limit, reranker, r) && r.reranked.None?
    ensures r.ranked <= full && (r.ranked == full || |r.ranked| == limit) && |r.ranked| <= limit
    ensures match reranker
            case NotAsked => true
            case Missing => false
            case Registered(_, fallback, _, _) => fallback && ProviderUnusable(r.fused, reranker)
  {
    if reranker.Registered? {
      var failure :| Excusable(failure) && FailsWith(r.fused, reranker, failure);
      FailureTells(Sent(r.fused, reranker.resolved, reranker.limit), reranker.resolved, reranker.provider, failure);
    }
  }

  /** A ranking by scores is of the first candidates, as many as every limit allows, and all fit to be sent. */
  lemma ScoreOrderTells(full: seq<Fused>, limit: nat, reranker: Reranker, r: Ranking)
    returns (scores: seq<Scored>, sent: seq<Fused>)
    requires IsRanking(full, limit, reranker, r) && OneEntryAChunk(full) && r.reranked.Some?
    ensures reranker.Registered? && reranker.resolved.Some? && sent <= full && AllMaySend(sent)
    ensures |sent| <= limit && |sent| <= reranker.resolved.value.candidateLimit
    ensures |sent| in {|full|, limit, reranker.resolved.value.candidateLimit} || reranker.limit == Some(|sent|)
    ensures Numbered(sent, reranker.resolved.value.maxTextLength, r.reranked.value) && BestScoreFirst(r.reranked.value)
    ensures |r.ranked| == |sent| && forall i :: 0 <= i < |sent| ==> r.ranked[i] == r.reranked.value[i].fused
    ensures sent != [] ==> Answered(sent, reranker.resolved.value, reranker.provider, scores)
                           && forall x :: x in r.reranked.value ==> ScoredAs(scores, x)
  {
    sent := Sent(r.fused, reranker.resolved, reranker.limit);
    LimitedKeepsOneEntry(full, limit);
    LimitedKeepsOneEntry(r.fused, LimitOf(reranker.resolved.value, reranker.limit));
    SentTells(r.fused, reranker.resolved.value, reranker.limit);
    scores := RerankTells(sent, reranker.resolved.value, reranker.provider, r.reranked.value);
  }
}
