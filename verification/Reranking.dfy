/** Reranking of the fused list by an untrusted provider: what goes out, what may come back, what is kept. */
module Reranking {
  import opened Ordering
  import opened Candidates
  import opened Fusion
  import RelationshipPaths

  datatype Profile = Profile(candidateLimit: nat, maxTextLength: nat)

  /** One provider input: the excerpt cut to length, and the candidate's place in the fused list. */
  datatype Input = Input(chunk: string, text: string, fusedRank: nat)

  /** A returned score; booleans, non-numbers, infinities and NaN are all `Unusable`. */
  datatype Score = Finite(value: real) | Unusable

  datatype Scored = Scored(chunk: string, score: Score)

  datatype Reply = Raised | Replied(scores: seq<Scored>)

  datatype Failure = Unavailable | ProviderFailed | UntrustedExcerpt | NotEligible | WrongCandidates | WrongScores

  datatype Reranked = Reranked(fused: Fused, fusedRank: nat, rank: nat, score: real, truncated: nat)

  const ELIGIBLE := {"allowed", "default_retrievable", "eligible"}

  predicate Eligible(f: Fused) { f.eligibility.Some? && f.eligibility.value in ELIGIBLE }

  predicate Sendable(f: Fused) { f.excerpt.Some? && Eligible(f) }

  function Refusal(f: Fused): Failure { if f.excerpt.None? then UntrustedExcerpt else NotEligible }

  function Limited(cs: seq<Fused>, limit: nat): (r: seq<Fused>) { if |cs| <= limit then cs else cs[..limit] }

  function Cut(text: string, max: nat): string { if |text| <= max then text else text[..max] }

  /** The candidates whose excerpt is longer than the provider may see. */
  function Truncations(cs: seq<Fused>, max: nat): nat {
    if cs == [] then 0
    else
      var f := cs[|cs| - 1];
      Truncations(cs[..|cs| - 1], max) + if f.excerpt.Some? && |f.excerpt.value| > max then 1 else 0
  }

  /** The last candidate of a chunk, the one an index by chunk id keeps. */
  function Latest(cs: seq<Fused>, chunk: string): Option<Fused> {
    if cs == [] then None
    else if cs[|cs| - 1].chunk == chunk then Some(cs[|cs| - 1]) else Latest(cs[..|cs| - 1], chunk)
  }

  ghost predicate Indexes(cs: seq<Fused>, index: map<string, Fused>) {
    forall c :: Latest(cs, c) == if c in index then Some(index[c]) else None
  }

  method IndexByChunk(cs: seq<Fused>) returns (index: map<string, Fused>)
    ensures Indexes(cs, index)
  {
    index := map[];
    for i := 0 to |cs|
      invariant Indexes(cs[..i], index)
    {
      assert cs[..i + 1][..i] == cs[..i] && cs[..i + 1][i] == cs[i];
      index := index[cs[i].chunk := cs[i]];
    }
    assert cs[..|cs|] == cs;
  }

  ghost predicate OneEntryAChunk(cs: seq<Fused>) {
    forall i, j :: 0 <= i < j < |cs| ==> cs[i].chunk != cs[j].chunk
  }

  /** In a list with one entry a chunk, the index finds each entry itself. */
  lemma {:induction false} LatestIsItself(cs: seq<Fused>, i: nat)
    requires OneEntryAChunk(cs) && i < |cs|
    ensures Latest(cs, cs[i].chunk) == Some(cs[i])
  {
    if i < |cs| - 1 {
      LatestIsItself(cs[..|cs| - 1], i);
    }
  }

  lemma {:induction false} LatestIsMember(cs: seq<Fused>, chunk: string)
    ensures Latest(cs, chunk).Some? <==> exists i :: 0 <= i < |cs| && cs[i].chunk == chunk
    ensures Latest(cs, chunk).Some? ==> Latest(cs, chunk).value in cs && Latest(cs, chunk).value.chunk == chunk
  {
    if cs != [] {
      LatestIsMember(cs[..|cs| - 1], chunk);
      if Latest(cs[..|cs| - 1], chunk).Some? {
        var i :| 0 <= i < |cs| - 1 && cs[..|cs| - 1][i].chunk == chunk;
        assert cs[i].chunk == chunk;
      }
    }
  }

  // ----- Preparing the inputs -----

  ghost predicate Prepared(cs: seq<Fused>, max: nat, inputs: seq<Input>) {
    && |inputs| == |cs|
    && forall i :: 0 <= i < |cs| ==>
         cs[i].excerpt.Some? && inputs[i] == Input(cs[i].chunk, Cut(cs[i].excerpt.value, max), i + 1)
  }

  /** The first candidate that may not be sent decides the refusal. */
  ghost predicate FirstUnsendable(cs: seq<Fused>, i: nat) {
    i < |cs| && !Sendable(cs[i]) && forall j :: 0 <= j < i ==> Sendable(cs[j])
  }

  method Prepare(cs: seq<Fused>, max: nat) returns (r: Result<seq<Input>, Failure>, truncations: nat)
    ensures r.Ok? <==> forall i :: 0 <= i < |cs| ==> Sendable(cs[i])
    ensures r.Ok? ==> Prepared(cs, max, r.value) && truncations == Truncations(cs, max)
    ensures r.Err? ==> exists i: nat :: FirstUnsendable(cs, i) && r.error == Refusal(cs[i])
  {
    var inputs: seq<Input> := [];
    truncations := 0;
    assert cs[..0] == [];
    for i := 0 to |cs|
      invariant forall j :: 0 <= j < i ==> Sendable(cs[j])
      invariant Prepared(cs[..i], max, inputs) && truncations == Truncations(cs[..i], max)
    {
      if cs[i].excerpt.None? || !Eligible(cs[i]) {
        assert FirstUnsendable(cs, i);
        return Err(Refusal(cs[i])), truncations;
      }
      assert cs[..i + 1][..i] == cs[..i] && cs[..i + 1][i] == cs[i];
      var text := Cut(cs[i].excerpt.value, max);
      if |text| < |cs[i].excerpt.value| { truncations := truncations + 1; }
      inputs := inputs + [Input(cs[i].chunk, text, i + 1)];
    }
    assert cs[..|cs|] == cs;
    return Ok(inputs), truncations;
  }

  // ----- Checking the reply -----

  function ReturnedIds(scores: seq<Scored>): (ids: seq<string>)
    ensures |ids| == |scores| && forall i :: 0 <= i < |ids| ==> ids[i] == scores[i].chunk
  {
    seq(|scores|, i requires 0 <= i < |scores| => scores[i].chunk)
  }

  function Chunks(cs: seq<Fused>): set<string> { set i | 0 <= i < |cs| :: cs[i].chunk }

  /** Each candidate scored once and nothing else. */
  ghost predicate ScoresEach(cs: seq<Fused>, scores: seq<Scored>) {
    && Distinct(ReturnedIds(scores))
    && forall c :: c in ReturnedIds(scores) <==> c in Chunks(cs)
  }

  ghost predicate AllFinite(scores: seq<Scored>) { forall i :: 0 <= i < |scores| ==> scores[i].score.Finite? }

  /** The scores by chunk, as the reply gives them. */
  ghost predicate ScoresAre(scores: seq<Scored>, byId: map<string, real>) {
    && (forall i :: 0 <= i < |scores| ==> scores[i].chunk in byId && scores[i].score == Finite(byId[scores[i].chunk]))
    && forall c :: c in byId ==> c in ReturnedIds(scores)
  }

  method CheckReply(cs: seq<Fused>, scores: seq<Scored>) returns (r: Result<map<string, real>, Failure>)
    ensures r.Ok? <==> ScoresEach(cs, scores) && AllFinite(scores)
    ensures r.Err? ==> r.error == if ScoresEach(cs, scores) then WrongScores else WrongCandidates
    ensures r.Ok? ==> ScoresAre(scores, r.value) && r.value.Keys == Chunks(cs)
  {
    var ids := ReturnedIds(scores);
    RelationshipPaths.SameSizeIffDistinct(ids);
    if |ids| != |set c | c in ids| || (set c | c in ids) != Chunks(cs) {
      assert (set c | c in ids) == Chunks(cs) ==> !Distinct(ids);
      assert ScoresEach(cs, scores) ==> (set c | c in ids) == Chunks(cs);
      return Err(WrongCandidates);
    }
    assert ScoresEach(cs, scores);
    var byId := map[];
    for i := 0 to |scores|
      invariant AllFinite(scores[..i]) && ScoresAre(scores[..i], byId)
    {
      if scores[i].score.Unusable? { return Err(WrongScores); }
      assert ReturnedIds(scores[..i + 1]) == ReturnedIds(scores[..i]) + [scores[i].chunk];
      forall j | 0 <= j < i ensures scores[j].chunk != scores[i].chunk {
        assert ids[j] != ids[i];
      }
      byId := byId[scores[i].chunk := scores[i].score.value];
    }
    assert scores[..|scores|] == scores;
    assert byId.Keys == Chunks(cs) by {
      forall c ensures c in byId <==> c in ids {
        if c in ids { var i :| 0 <= i < |ids| && ids[i] == c; assert scores[i].chunk == c; }
      }
    }
    return Ok(byId);
  }

  // ----- The reranked list -----

  /** Greater scores come first, and then smaller chunk ids. */
  predicate Earlier(scoreA: real, chunkA: string, scoreB: real, chunkB: string) {
    scoreA > scoreB || (scoreA == scoreB && StringLess(chunkA, chunkB))
  }

  predicate EntryEarlier(a: (real, string), b: (real, string)) { Earlier(a.0, a.1, b.0, b.1) }

  lemma EntryOrderTotal()
    ensures StrictTotalOrder(EntryEarlier)
  {
    StringLessTotal();
  }

  /** Entry i stands for the candidate at its fused rank, with that chunk's score. */
  ghost predicate Stands(cs: seq<Fused>, byId: map<string, real>, truncated: nat, rs: seq<Reranked>, i: nat)
    requires i < |rs|
  {
    && 1 <= rs[i].fusedRank <= |cs| && rs[i].rank == i + 1 && rs[i].truncated == truncated
    && cs[rs[i].fusedRank - 1].chunk in byId
    && rs[i].score == byId[cs[rs[i].fusedRank - 1].chunk]
    && Latest(cs, cs[rs[i].fusedRank - 1].chunk) == Some(rs[i].fused)
    && rs[i].fused.chunk == cs[rs[i].fusedRank - 1].chunk
  }

  /** The candidates permuted, ranked from one, in score order, their fused ranks kept. */
  ghost predicate IsReranking(cs: seq<Fused>, byId: map<string, real>, truncated: nat, rs: seq<Reranked>) {
    && |rs| == |cs|
    && (forall i :: 0 <= i < |rs| ==> Stands(cs, byId, truncated, rs, i))
    && (forall i, j :: 0 <= i < j < |rs| ==> rs[i].fusedRank != rs[j].fusedRank)
    && (forall i, j :: 0 <= i < j < |rs| ==> !Earlier(rs[j].score, rs[j].fused.chunk, rs[i].score, rs[i].fused.chunk))
  }

  function KeyOfInput(byId: map<string, real>, a: Input): (real, string) {
    (if a.chunk in byId then byId[a.chunk] else 0.0, a.chunk)
  }

  predicate InputEarlier(byId: map<string, real>, a: Input, b: Input) {
    EntryEarlier(KeyOfInput(byId, a), KeyOfInput(byId, b))
  }

  lemma InputOrderWeak(byId: map<string, real>)
    ensures StrictWeakOrder((a, b) => InputEarlier(byId, a, b))
  {
    EntryOrderTotal();
    TotalIsWeak(EntryEarlier);
    WeakByKey(EntryEarlier, a => KeyOfInput(byId, a), (a, b) => InputEarlier(byId, a, b));
  }

  lemma SortedInputsPermute(cs: seq<Fused>, max: nat, inputs: seq<Input>, byId: map<string, real>, ordered: seq<Input>)
    requires Prepared(cs, max, inputs) && ordered == Sort((a, b) => InputEarlier(byId, a, b), inputs)
    ensures |ordered| == |cs|
    ensures forall i :: 0 <= i < |ordered| ==>
              1 <= ordered[i].fusedRank <= |cs| && ordered[i] == inputs[ordered[i].fusedRank - 1]
    ensures forall i, j :: 0 <= i < j < |ordered| ==> ordered[i].fusedRank != ordered[j].fusedRank
    ensures forall i, j :: 0 <= i < j < |ordered| ==> !InputEarlier(byId, ordered[j], ordered[i])
  {
    var less := (a, b) => InputEarlier(byId, a, b);
    SortPermutes(less, inputs);
    InputOrderWeak(byId);
    SortAscends(less, inputs);
    PermutedDistinct(inputs, ordered);
    forall i | 0 <= i < |ordered|
      ensures 1 <= ordered[i].fusedRank <= |cs| && ordered[i] == inputs[ordered[i].fusedRank - 1]
    {
      assert ordered[i] in inputs;
    }
    forall i, j | 0 <= i < j < |ordered| ensures !InputEarlier(byId, ordered[j], ordered[i]) {
      assert !less(ordered[j], ordered[i]);
    }
  }

  lemma RerankedStands(cs: seq<Fused>, max: nat, inputs: seq<Input>, byId: map<string, real>, ordered: seq<Input>,
                       index: map<string, Fused>, truncated: nat, rs: seq<Reranked>)
    requires Prepared(cs, max, inputs) && ordered == Sort((a, b) => InputEarlier(byId, a, b), inputs)
    requires byId.Keys == Chunks(cs) && Indexes(cs, index) && |rs| == |ordered|
    requires forall i :: 0 <= i < |rs| ==>
               ordered[i].chunk in index && ordered[i].chunk in byId
               && rs[i] == Reranked(index[ordered[i].chunk], ordered[i].fusedRank, i + 1, byId[ordered[i].chunk],
                                    truncated)
    ensures IsReranking(cs, byId, truncated, rs)
  {
    SortedInputsPermute(cs, max, inputs, byId, ordered);
    forall i | 0 <= i < |rs| ensures Stands(cs, byId, truncated, rs, i) {
      LatestIsMember(cs, ordered[i].chunk);
    }
    forall i, j | 0 <= i < j < |rs|
      ensures !Earlier(rs[j].score, rs[j].fused.chunk, rs[i].score, rs[i].fused.chunk)
    {
      assert !InputEarlier(byId, ordered[j], ordered[i]);
      LatestIsMember(cs, ordered[i].chunk);
      LatestIsMember(cs, ordered[j].chunk);
    }
  }

  method Rerank(cs: seq<Fused>, resolved: Option<Profile>, queryLimit: Option<nat>, provider: seq<Input> -> Reply)
    returns (r: Result<seq<Reranked>, Failure>)
    ensures r.Ok? ==> resolved.Some? && RerankedTo(Sent(cs, resolved, queryLimit), resolved.value, provider, r.value)
    ensures r.Err? ==> Explains(Sent(cs, resolved, queryLimit), resolved, provider, r.error)
  {
    if resolved.None? { return Err(Unavailable); }
    var profile := resolved.value;
    var limited := Limited(cs, LimitOf(profile, queryLimit));
    var prepared, truncations := Prepare(limited, profile.maxTextLength);
    if prepared.Err? { return Err(prepared.error); }
    var inputs := prepared.value;
    if inputs == [] {
      assert IsReranking([], map[], truncations, []);
      return Ok([]);
    }
    var reply := provider(inputs);
    if reply.Raised? { return Err(ProviderFailed); }
    var checked := CheckReply(limited, reply.scores);
    if checked.Err? { return Err(checked.error); }
    var rs := InScoreOrder(limited, profile.maxTextLength, inputs, checked.value, truncations);
    assert ReplyHolds(limited, profile, provider, checked.value);
    return Ok(rs);
  }

  /** The candidates the provider gets to see. */
  function Sent(cs: seq<Fused>, resolved: Option<Profile>, queryLimit: Option<nat>): seq<Fused> {
    if resolved.None? then [] else Limited(cs, LimitOf(resolved.value, queryLimit))
  }

  /** All candidates may be sent, and they come back in the order of the provider's own finite scores. */
  ghost predicate RerankedTo(cs: seq<Fused>, profile: Profile, provider: seq<Input> -> Reply, rs: seq<Reranked>) {
    AllSendable(cs)
    && exists byId :: IsReranking(cs, byId, Truncations(cs, profile.maxTextLength), rs)
                      && (cs == [] || ReplyHolds(cs, profile, provider, byId))
  }

  function LimitOf(profile: Profile, queryLimit: Option<nat>): nat {
    if queryLimit.Some? && queryLimit.value < profile.candidateLimit then queryLimit.value else profile.candidateLimit
  }

  ghost predicate AllSendable(cs: seq<Fused>) { forall i :: 0 <= i < |cs| ==> Sendable(cs[i]) }

  /** The provider, given the prepared inputs, scores every candidate by a finite number. */
  ghost predicate ReplyHolds(cs: seq<Fused>, profile: Profile, provider: seq<Input> -> Reply, byId: map<string, real>) {
    exists inputs, scores :: Prepared(cs, profile.maxTextLength, inputs) && provider(inputs) == Replied(scores)
                             && ScoresEach(cs, scores) && ScoresAre(scores, byId)
  }

  /** The one situation in which each failure is reported. */
  ghost predicate Explains(cs: seq<Fused>, resolved: Option<Profile>, provider: seq<Input> -> Reply, failure: Failure) {
    match failure
    case Unavailable => resolved.None?
    case UntrustedExcerpt | NotEligible =>
      resolved.Some? && exists i: nat :: FirstUnsendable(cs, i) && failure == Refusal(cs[i])
    case _ =>
      && resolved.Some? && cs != [] && AllSendable(cs)
      && exists inputs ::
           Prepared(cs, resolved.value.maxTextLength, inputs) && ReplyFails(cs, provider(inputs), failure)
  }

  ghost predicate ReplyFails(cs: seq<Fused>, reply: Reply, failure: Failure) {
    match failure
    case ProviderFailed => reply.Raised?
    case WrongCandidates => reply.Replied? && !ScoresEach(cs, reply.scores)
    case WrongScores => reply.Replied? && ScoresEach(cs, reply.scores) && !AllFinite(reply.scores)
    case _ => false
  }

  method InScoreOrder(cs: seq<Fused>, max: nat, inputs: seq<Input>, byId: map<string, real>, truncations: nat)
    returns (rs: seq<Reranked>)
    requires Prepared(cs, max, inputs) && byId.Keys == Chunks(cs)
    ensures IsReranking(cs, byId, truncations, rs)
  {
    var ordered := Sort((a, b) => InputEarlier(byId, a, b), inputs);
    SortedInputsPermute(cs, max, inputs, byId, ordered);
    var index := IndexByChunk(cs);
    forall i | 0 <= i < |ordered| ensures ordered[i].chunk in index && ordered[i].chunk in byId {
      assert cs[ordered[i].fusedRank - 1].chunk == ordered[i].chunk;
      assert ordered[i].chunk in Chunks(cs);
      LatestIsMember(cs, ordered[i].chunk);
    }
    rs := seq(|ordered|, i requires 0 <= i < |ordered| && ordered[i].chunk in index && ordered[i].chunk in byId =>
            Reranked(index[ordered[i].chunk], ordered[i].fusedRank, i + 1, byId[ordered[i].chunk], truncations));
    RerankedStands(cs, max, inputs, byId, ordered, index, truncations, rs);
  }

  // ----- What the reranked list keeps -----

  /** Every fused rank occurs exactly once, so nothing is lost or repeated. */
  lemma EveryCandidateReranked(cs: seq<Fused>, byId: map<string, real>, truncated: nat, rs: seq<Reranked>, k: nat)
    requires IsReranking(cs, byId, truncated, rs) && k < |cs|
    ensures exists i :: 0 <= i < |rs| && rs[i].fusedRank == k + 1
  {
    var ranks: seq<nat> := seq(|rs|, i requires 0 <= i < |rs| => rs[i].fusedRank);
    forall i | 0 <= i < |ranks| ensures 1 <= ranks[i] < |cs| + 1 {
      assert Stands(cs, byId, truncated, rs, i);
    }
    DistinctCovers(ranks, 1, |cs| + 1, k + 1);
    var i :| 0 <= i < |ranks| && ranks[i] == k + 1;
  }

  /**
   On a list with one entry a chunk, each entry is the very candidate at its fused rank, in strictly falling
   order.
   */
  lemma RerankingPermutes(cs: seq<Fused>, byId: map<string, real>, truncated: nat, rs: seq<Reranked>)
    requires IsReranking(cs, byId, truncated, rs) && OneEntryAChunk(cs)
    ensures forall i :: 0 <= i < |rs| ==> 1 <= rs[i].fusedRank <= |cs| && rs[i].fused == cs[rs[i].fusedRank - 1]
    ensures forall f :: f in cs <==> exists i :: 0 <= i < |rs| && rs[i].fused == f
    ensures OneEntryAChunk(FusedOf(rs))
    ensures forall i, j :: 0 <= i < j < |rs| ==> Earlier(rs[i].score, rs[i].fused.chunk, rs[j].score, rs[j].fused.chunk)
  {
    forall i | 0 <= i < |rs| ensures 1 <= rs[i].fusedRank <= |cs| && rs[i].fused == cs[rs[i].fusedRank - 1] {
      assert Stands(cs, byId, truncated, rs, i);
      LatestIsItself(cs, rs[i].fusedRank - 1);
    }
    forall f | f in cs ensures exists i :: 0 <= i < |rs| && rs[i].fused == f {
      var k :| 0 <= k < |cs| && cs[k] == f;
      EveryCandidateReranked(cs, byId, truncated, rs, k);
      var i :| 0 <= i < |rs| && rs[i].fusedRank == k + 1;
      assert rs[i].fused == f;
    }
    EntryOrderTotal();
    forall i, j | 0 <= i < j < |rs|
      ensures rs[i].fused.chunk != rs[j].fused.chunk
      ensures Earlier(rs[i].score, rs[i].fused.chunk, rs[j].score, rs[j].fused.chunk)
    {
      var a, b := rs[i].fusedRank - 1, rs[j].fusedRank - 1;
      assert a != b && cs[a].chunk != cs[b].chunk;
      assert EntryEarlier((rs[i].score, rs[i].fused.chunk), (rs[j].score, rs[j].fused.chunk))
             || EntryEarlier((rs[j].score, rs[j].fused.chunk), (rs[i].score, rs[i].fused.chunk));
    }
  }

  function FusedOf(rs: seq<Reranked>): (cs: seq<Fused>)
    ensures |cs| == |rs| && forall i :: 0 <= i < |cs| ==> cs[i] == rs[i].fused
  {
    seq(|rs|, i requires 0 <= i < |rs| => rs[i].fused)
  }

  /** The scores alone decide the reranked list: the order in which the provider lists them does not matter. */
  lemma RerankingUnique(cs: seq<Fused>, byId: map<string, real>, truncated: nat, rs: seq<Reranked>, ss: seq<Reranked>)
    requires OneEntryAChunk(cs)
    requires IsReranking(cs, byId, truncated, rs) && IsReranking(cs, byId, truncated, ss)
    ensures rs == ss
  {
    RerankingPermutes(cs, byId, truncated, rs);
    RerankingPermutes(cs, byId, truncated, ss);
    var a, b := ScoreKeys(rs), ScoreKeys(ss);
    SameKeys(cs, byId, truncated, rs, ss);
    SameKeys(cs, byId, truncated, ss, rs);
    EntryOrderTotal();
    AscendingListingUnique(EntryEarlier, a, b);
    forall i | 0 <= i < |rs| ensures rs[i] == ss[i] {
      assert a[i] == b[i];
      assert Stands(cs, byId, truncated, rs, i) && Stands(cs, byId, truncated, ss, i);
      assert cs[rs[i].fusedRank - 1].chunk == cs[ss[i].fusedRank - 1].chunk;
    }
  }

  ghost function ScoreKeys(rs: seq<Reranked>): (keys: seq<(real, string)>)
    ensures |keys| == |rs| && forall i :: 0 <= i < |rs| ==> keys[i] == (rs[i].score, rs[i].fused.chunk)
  {
    seq(|rs|, i requires 0 <= i < |rs| => (rs[i].score, rs[i].fused.chunk))
  }

  lemma SameKeys(cs: seq<Fused>, byId: map<string, real>, truncated: nat, rs: seq<Reranked>, ss: seq<Reranked>)
    requires OneEntryAChunk(cs)
    requires IsReranking(cs, byId, truncated, rs) && IsReranking(cs, byId, truncated, ss)
    ensures forall key :: key in ScoreKeys(rs) ==> key in ScoreKeys(ss)
  {
    forall key | key in ScoreKeys(rs) ensures key in ScoreKeys(ss) {
      var i :| 0 <= i < |rs| && ScoreKeys(rs)[i] == key;
      assert Stands(cs, byId, truncated, rs, i);
      EveryCandidateReranked(cs, byId, truncated, ss, rs[i].fusedRank - 1);
      var j :| 0 <= j < |ss| && ss[j].fusedRank == rs[i].fusedRank;
      assert Stands(cs, byId, truncated, ss, j);
      assert ScoreKeys(ss)[j] == key;
    }
  }
}
