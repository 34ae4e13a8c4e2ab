/** What goes to the reranking provider and what comes back, read off the candidates and the reply. */
module RerankContents {
  import opened Ordering
  import opened Candidates
  import opened Fusion
  import opened Reranking

  const LABELS := {"allowed", "default_retrievable", "eligible"}

  /** An excerpt to send and a label that allows it. */
  predicate MaySend(f: Fused) { f.excerpt.Some? && f.eligibility.Some? && f.eligibility.value in LABELS }

  predicate AllMaySend(cs: seq<Fused>) { forall f :: f in cs ==> MaySend(f) }

  lemma AllMaySendIff(cs: seq<Fused>)
    ensures AllSendable(cs) <==> AllMaySend(cs)
  {
    if AllSendable(cs) {
      forall f | f in cs ensures MaySend(f) {
        var i :| 0 <= i < |cs| && cs[i] == f;
        assert Sendable(cs[i]);
      }
    } else {
      var i :| 0 <= i < |cs| && !Sendable(cs[i]);
      assert cs[i] in cs;
    }
  }

  /** The longest start of the text within the limit. */
  predicate StartOf(text: string, max: nat, start: string) {
    start <= text && |start| <= max && (start == text || |start| == max)
  }

  /** The candidates in order, numbered from one, each with the start of its excerpt. */
  predicate InputsFor(cs: seq<Fused>, max: nat, inputs: seq<Input>) {
    && |inputs| == |cs|
    && forall i :: 0 <= i < |cs| ==>
         && cs[i].excerpt.Some? && inputs[i].chunk == cs[i].chunk && inputs[i].fusedRank == i + 1
         && StartOf(cs[i].excerpt.value, max, inputs[i].text)
  }

  lemma PreparedIff(cs: seq<Fused>, max: nat, inputs: seq<Input>)
    ensures Prepared(cs, max, inputs) <==> InputsFor(cs, max, inputs)
  {
    if InputsFor(cs, max, inputs) {
      forall i | 0 <= i < |cs| ensures inputs[i] == Input(cs[i].chunk, Cut(cs[i].excerpt.value, max), i + 1) {
        StartIsCut(cs[i].excerpt.value, max, inputs[i].text);
      }
    }
  }

  lemma StartIsCut(text: string, max: nat, start: string)
    ensures StartOf(text, max, start) <==> start == Cut(text, max)
  {}

  /** Excerpts too long to send whole. */
  function LongOnes(cs: seq<Fused>, max: nat): set<nat> {
    set i: nat | i < |cs| && cs[i].excerpt.Some? && |cs[i].excerpt.value| > max
  }

  lemma {:induction false} TruncationsCount(cs: seq<Fused>, max: nat)
    ensures Truncations(cs, max) == |LongOnes(cs, max)|
  {
    if cs == [] {
      assert LongOnes(cs, max) == {};
    } else {
      TruncationsCount(cs[..|cs| - 1], max);
      LongOnesOneMore(cs, max);
    }
  }

  lemma LongOnesOneMore(cs: seq<Fused>, max: nat)
    requires cs != []
    ensures var last := |cs| - 1;
            |LongOnes(cs, max)| == |LongOnes(cs[..last], max)|
            + if cs[last].excerpt.Some? && |cs[last].excerpt.value| > max then 1 else 0
  {
    var last := |cs| - 1;
    var most := LongOnes(cs[..last], max);
    assert LongOnes(cs, max) == if last in LongOnes(cs, max) then most + {last} else most;
  }

  /** The first candidates, as many as both limits allow. */
  lemma SentTells(cs: seq<Fused>, profile: Profile, queryLimit: Option<nat>)
    ensures var sent := Sent(cs, Some(profile), queryLimit);
            && sent <= cs && |sent| <= profile.candidateLimit && (queryLimit.Some? ==> |sent| <= queryLimit.value)
            && (sent == cs || |sent| == profile.candidateLimit || queryLimit == Some(|sent|))
  {}

  /** The provider's answer gives the entry this score, a finite one. */
  predicate ScoredAs(scores: seq<Scored>, r: Reranked) { Scored(r.fused.chunk, Finite(r.score)) in scores }

  /** Best score first, then the smaller chunk id. */
  predicate BestScoreFirst(rs: seq<Reranked>) {
    forall i, j :: 0 <= i < j < |rs| ==>
      || rs[i].score > rs[j].score
      || (rs[i].score == rs[j].score && !StringLess(rs[j].fused.chunk, rs[i].fused.chunk))
  }

  /** Ranks from one, each entry a candidate at its fused rank and the same count of cut excerpts on all. */
  predicate Numbered(cs: seq<Fused>, max: nat, rs: seq<Reranked>) {
    && |rs| == |cs|
    && (forall i :: 0 <= i < |rs| ==> rs[i].rank == i + 1 && rs[i].truncated == |LongOnes(cs, max)|)
    && (forall i :: 0 <= i < |rs| ==> 1 <= rs[i].fusedRank <= |cs| && rs[i].fused == cs[rs[i].fusedRank - 1])
    && forall i, j :: 0 <= i < j < |rs| ==> rs[i].fusedRank != rs[j].fusedRank
  }

  /** The provider answered the inputs for the candidates with these scores. */
  ghost predicate Answered(cs: seq<Fused>, profile: Profile, provider: seq<Input> -> Reply, scores: seq<Scored>) {
    exists inputs :: InputsFor(cs, profile.maxTextLength, inputs) && provider(inputs) == Replied(scores)
  }

  lemma ScoresFound(cs: seq<Fused>, scores: seq<Scored>, byId: map<string, real>, truncated: nat, rs: seq<Reranked>,
                    i: nat)
    requires IsReranking(cs, byId, truncated, rs) && ScoresEach(cs, scores) && ScoresAre(scores, byId) && i < |rs|
    ensures ScoredAs(scores, rs[i])
  {
    assert Stands(cs, byId, truncated, rs, i);
    var chunk := rs[i].fused.chunk;
    assert chunk in ReturnedIds(scores);
    var j :| 0 <= j < |scores| && scores[j].chunk == chunk;
    assert scores[j] == Scored(chunk, Finite(byId[chunk]));
  }

  lemma RerankingTells(cs: seq<Fused>, byId: map<string, real>, max: nat, rs: seq<Reranked>)
    requires OneEntryAChunk(cs) && IsReranking(cs, byId, Truncations(cs, max), rs)
    ensures Numbered(cs, max, rs) && BestScoreFirst(rs)
  {
    TruncationsCount(cs, max);
    RerankingPermutes(cs, byId, Truncations(cs, max), rs);
    forall i | 0 <= i < |rs| ensures rs[i].rank == i + 1 && rs[i].truncated == |LongOnes(cs, max)| {
      assert Stands(cs, byId, Truncations(cs, max), rs, i);
    }
    StringLessTotal();
    forall i, j | 0 <= i < j < |rs|
      ensures rs[i].score > rs[j].score
              || (rs[i].score == rs[j].score && !StringLess(rs[j].fused.chunk, rs[i].fused.chunk))
    {
      assert Earlier(rs[i].score, rs[i].fused.chunk, rs[j].score, rs[j].fused.chunk);
    }
  }

  /**
   A reranked list is the candidates sent, all of them fit to be, in the order of the finite scores the
   provider answered their cut excerpts with, one for each.
   */
  lemma RerankTells(cs: seq<Fused>, profile: Profile, provider: seq<Input> -> Reply, rs: seq<Reranked>)
    returns (scores: seq<Scored>)
    requires OneEntryAChunk(cs) && RerankedTo(cs, profile, provider, rs)
    ensures AllMaySend(cs) && Numbered(cs, profile.maxTextLength, rs) && BestScoreFirst(rs)
    ensures cs != [] ==> Answered(cs, profile, provider, scores) && forall r :: r in rs ==> ScoredAs(scores, r)
    ensures cs != [] ==> |scores| == |cs| && forall i, j :: 0 <= i < j < |scores| ==> scores[i].chunk != scores[j].chunk
  {
    AllMaySendIff(cs);
    var truncated := Truncations(cs, profile.maxTextLength);
    var byId :| IsReranking(cs, byId, truncated, rs) && (cs == [] || ReplyHolds(cs, profile, provider, byId));
    RerankingTells(cs, byId, profile.maxTextLength, rs);
    scores := [];
    if cs != [] {
      var inputs, all :| Prepared(cs, profile.maxTextLength, inputs) && provider(inputs) == Replied(all)
                         && ScoresEach(cs, all) && ScoresAre(all, byId);
      PreparedIff(cs, profile.maxTextLength, inputs);
      scores := all;
      assert Answered(cs, profile, provider, scores);
      ReplyAsLong(cs, scores);
      forall r | r in rs ensures ScoredAs(scores, r) {
        var i :| 0 <= i < |rs| && rs[i] == r;
        ScoresFound(cs, scores, byId, truncated, rs, i);
      }
    }
  }

  lemma ReplyAsLong(cs: seq<Fused>, scores: seq<Scored>)
    requires OneEntryAChunk(cs) && ScoresEach(cs, scores)
    ensures |scores| == |cs| && forall i, j :: 0 <= i < j < |scores| ==> scores[i].chunk != scores[j].chunk
  {
    var ids := ReturnedIds(scores);
    var chunks := seq(|cs|, i requires 0 <= i < |cs| => cs[i].chunk);
    assert Distinct(chunks);
    DistinctCardinality(ids);
    DistinctCardinality(chunks);
    forall c ensures c in chunks <==> c in ids {
      assert c in ids <==> c in Chunks(cs);
      if c in Chunks(cs) {
        var i :| 0 <= i < |cs| && cs[i].chunk == c;
        assert chunks[i] == c;
      }
    }
    assert (set c | c in ids) == set c | c in chunks;
    forall i, j | 0 <= i < j < |scores| ensures scores[i].chunk != scores[j].chunk { assert ids[i] != ids[j]; }
  }

  /** The candidate is not fit to be sent, and all before it are. */
  predicate FirstUnfit(cs: seq<Fused>, i: nat) {
    i < |cs| && !MaySend(cs[i]) && forall j :: 0 <= j < i ==> MaySend(cs[j])
  }

  /** Each candidate of the list is scored once and nothing else is. */
  predicate ScoresMatch(cs: seq<Fused>, scores: seq<Scored>) {
    && (forall i, j :: 0 <= i < j < |scores| ==> scores[i].chunk != scores[j].chunk)
    && (forall s :: s in scores ==> exists i :: 0 <= i < |cs| && cs[i].chunk == s.chunk)
    && forall f :: f in cs ==> exists i :: 0 <= i < |scores| && scores[i].chunk == f.chunk
  }

  lemma ScoresMatchIff(cs: seq<Fused>, scores: seq<Scored>)
    ensures ScoresEach(cs, scores) <==> ScoresMatch(cs, scores)
  {
    var ids := ReturnedIds(scores);
    assert Distinct(ids) <==> forall i, j :: 0 <= i < j < |scores| ==> scores[i].chunk != scores[j].chunk;
    if ScoresEach(cs, scores) {
      forall s | s in scores ensures exists i :: 0 <= i < |cs| && cs[i].chunk == s.chunk {
        var j :| 0 <= j < |scores| && scores[j] == s;
        assert ids[j] in ids;
      }
      forall f | f in cs ensures exists i :: 0 <= i < |scores| && scores[i].chunk == f.chunk {
        assert f.chunk in Chunks(cs);
        var i :| 0 <= i < |ids| && ids[i] == f.chunk;
      }
    }
    if ScoresMatch(cs, scores) {
      forall c ensures c in ids <==> c in Chunks(cs) {
        if c in ids {
          var j :| 0 <= j < |ids| && ids[j] == c;
          assert scores[j] in scores;
        }
        if c in Chunks(cs) {
          var i :| 0 <= i < |cs| && cs[i].chunk == c;
          assert cs[i] in cs;
          var j :| 0 <= j < |scores| && scores[j].chunk == c;
          assert ids[j] == c;
        }
      }
    }
  }

  /** Why nothing is reranked: what was sent, the answer, or no provider at all. */
  lemma FailureTells(cs: seq<Fused>, resolved: Option<Profile>, provider: seq<Input> -> Reply, failure: Failure)
    requires Explains(cs, resolved, provider, failure)
    ensures failure.Unavailable? <==> resolved.None?
    ensures failure.UntrustedExcerpt? ==> exists i: nat :: FirstUnfit(cs, i) && cs[i].excerpt.None?
    ensures failure.NotEligible? ==> exists i: nat :: FirstUnfit(cs, i) && cs[i].excerpt.Some?
    ensures failure !in {Unavailable, UntrustedExcerpt, NotEligible} ==>
              && cs != [] && AllMaySend(cs)
              && exists inputs :: InputsFor(cs, resolved.value.maxTextLength, inputs)
                                  && AnswerFails(cs, provider(inputs), failure)
  {
    AllMaySendIff(cs);
    if failure.UntrustedExcerpt? || failure.NotEligible? {
      var i: nat :| FirstUnsendable(cs, i) && failure == Refusal(cs[i]);
      assert FirstUnfit(cs, i);
    } else if !failure.Unavailable? {
      var inputs :|
        Prepared(cs, resolved.value.maxTextLength, inputs) && ReplyFails(cs, provider(inputs), failure);
      PreparedIff(cs, resolved.value.maxTextLength, inputs);
      AnswerFailsIff(cs, provider(inputs), failure);
    }
  }

  /** No answer, one that scores other candidates, or one with a score that is no finite number. */
  predicate AnswerFails(cs: seq<Fused>, reply: Reply, failure: Failure) {
    match reply
    case Raised => failure == ProviderFailed
    case Replied(scores) =>
      if !ScoresMatch(cs, scores) then failure == WrongCandidates
      else failure == WrongScores && exists i :: 0 <= i < |scores| && scores[i].score == Unusable
  }

  lemma AnswerFailsIff(cs: seq<Fused>, reply: Reply, failure: Failure)
    requires ReplyFails(cs, reply, failure)
    ensures AnswerFails(cs, reply, failure)
  {
    if reply.Replied? { ScoresMatchIff(cs, reply.scores); }
  }
}
