/** Weighted reciprocal-rank fusion of ranked candidate lists, in exact arithmetic. */
module Fusion {
  import opened Ordering
  import opened Candidates

  type Lists = map<string, seq<Candidate>>

  datatype Fused = Fused(
    chunk: string, score: real, paths: map<string, Candidate>, eligibility: Option<string>, excerpt: Option<string>)

  datatype Signals = Signals(authority: bool, freshness: bool)

  datatype FusionError = RankConstantNotPositive | NegativeWeight

  // ----- Scores -----

  function Better(best: Option<Candidate>, c: Candidate): Option<Candidate> {
    if best.None? || c.rank < best.value.rank then Some(c) else best
  }

  /** A chunk repeated in one list counts once, at its best rank, the earliest of equals. */
  function Best(list: seq<Candidate>, chunk: string): Option<Candidate> {
    if list == [] then None
    else
      var before, c := Best(list[..|list| - 1], chunk), list[|list| - 1];
      if c.chunk == chunk then Better(before, c) else before
  }

  function WeightOf(weights: map<string, real>, path: string): real {
    if path in weights then weights[path] else 0.0
  }

  function Term(weight: real, k: int, best: Option<Candidate>): real
    requires k > 0
  {
    if best.None? then 0.0 else weight / (k + best.value.rank) as real
  }

  /** The sum over the named paths of weight / (k + best rank). */
  function Score(lists: Lists, weights: map<string, real>, k: int, names: seq<string>, chunk: string): real
    requires k > 0 && forall p :: p in names ==> p in lists
  {
    if names == [] then 0.0
    else
      var p := names[|names| - 1];
      Score(lists, weights, k, names[..|names| - 1], chunk) + Term(WeightOf(weights, p), k, Best(lists[p], chunk))
  }

  function PathsFor(lists: Lists, names: seq<string>, chunk: string): map<string, Candidate>
    requires forall p :: p in names ==> p in lists
  {
    if names == [] then map[]
    else
      var p := names[|names| - 1];
      var before := PathsFor(lists, names[..|names| - 1], chunk);
      var best := Best(lists[p], chunk);
      if best.Some? then before[p := best.value] else before
  }

  /** Metadata comes from the first path in name order that has the chunk. */
  function FirstEligibility(lists: Lists, names: seq<string>, chunk: string): Option<Option<string>>
    requires forall p :: p in names ==> p in lists
  {
    if names == [] then None
    else
      var before := FirstEligibility(lists, names[..|names| - 1], chunk);
      var best := Best(lists[names[|names| - 1]], chunk);
      if before.Some? || best.None? then before else Some(best.value.eligibility)
  }

  function TrustedExcerpt(lists: Lists, names: seq<string>, chunk: string): Option<string>
    requires forall p :: p in names ==> p in lists
  {
    if names == [] then None
    else
      var before := TrustedExcerpt(lists, names[..|names| - 1], chunk);
      var best := Best(lists[names[|names| - 1]], chunk);
      if before.Some? || best.None? || !best.value.trusted then before else best.value.excerpt
  }

  function FusedFor(lists: Lists, weights: map<string, real>, k: int, names: seq<string>, chunk: string): Fused
    requires k > 0 && forall p :: p in names ==> p in lists
  {
    var e := FirstEligibility(lists, names, chunk);
    Fused(chunk, Score(lists, weights, k, names, chunk), PathsFor(lists, names, chunk),
          if e.Some? then e.value else None, TrustedExcerpt(lists, names, chunk))
  }

  // ----- Sort key -----

  const MISSING_RANK := 0x7FFF_FFFF

  function RankOn(f: Fused, path: string): int {
    if path in f.paths then f.paths[path].rank else MISSING_RANK
  }

  function Least(a: Option<real>, b: Option<real>): Option<real> {
    if a.None? then b else if b.None? || a.value <= b.value then a else b
  }

  function Greatest(a: Option<real>, b: Option<real>): Option<real> {
    if a.None? then b else if b.None? || a.value >= b.value then a else b
  }

  /** The least authority rank over the chunk's paths; None stands for infinity. */
  function Authority(paths: map<string, Candidate>, names: seq<string>): Option<real> {
    if names == [] then None
    else
      var before, p := Authority(paths, names[..|names| - 1]), names[|names| - 1];
      if p in paths then Least(before, paths[p].authority) else before
  }

  /** The greatest freshness over the chunk's paths; None stands for minus infinity. */
  function Freshness(paths: map<string, Candidate>, names: seq<string>): Option<real> {
    if names == [] then None
    else
      var before, p := Freshness(paths, names[..|names| - 1]), names[|names| - 1];
      if p in paths then Greatest(before, paths[p].freshness) else before
  }

  /** Greater scores come first; then the lists' own ranks, authority, freshness, and the id. */
  datatype SortKey = SortKey(
    score: real, exact: int, bm25: int, vector: int, authority: Option<real>, freshness: Option<real>, chunk: string)

  function KeyOf(signals: Signals, names: seq<string>, f: Fused): SortKey {
    SortKey(f.score, RankOn(f, "exact"), RankOn(f, "bm25"), RankOn(f, "vector"),
            if signals.authority then Authority(f.paths, names) else None,
            if signals.freshness then Freshness(f.paths, names) else None, f.chunk)
  }

  /** Smaller authority ranks come first, unknown ones last. */
  predicate AuthorityLess(a: Option<real>, b: Option<real>) { a.Some? && (b.None? || a.value < b.value) }

  /** Fresher candidates come first, undated ones last. */
  predicate FreshnessLess(a: Option<real>, b: Option<real>) { a.Some? && (b.None? || a.value > b.value) }

  predicate KeyLess(a: SortKey, b: SortKey) {
    if a.score != b.score then a.score > b.score
    else if a.exact != b.exact then a.exact < b.exact
    else if a.bm25 != b.bm25 then a.bm25 < b.bm25
    else if a.vector != b.vector then a.vector < b.vector
    else if a.authority != b.authority then AuthorityLess(a.authority, b.authority)
    else if a.freshness != b.freshness then FreshnessLess(a.freshness, b.freshness)
    else StringLess(a.chunk, b.chunk)
  }

  lemma KeyOrderTotal()
    ensures StrictTotalOrder(KeyLess)
  {
    StringLessTotal();
  }

  // ----- The fused list -----

  predicate Seen(lists: Lists, names: seq<string>, chunk: string)
    requires forall p :: p in names ==> p in lists
  {
    FirstEligibility(lists, names, chunk).Some?
  }

  /** The fused list, said directly: one entry per chunk seen, each with its score and paths, in key order. */
  ghost predicate IsFusion(lists: Lists, weights: map<string, real>, k: int, signals: Signals, names: seq<string>,
                           r: seq<Fused>)
  {
    && k > 0 && (forall p :: p in names <==> p in lists) && StrictlyAscending(StringLess, names)
    && (forall i :: 0 <= i < |r| ==> r[i] == FusedFor(lists, weights, k, names, r[i].chunk))
    && (forall chunk :: Seen(lists, names, chunk) <==> FusedFor(lists, weights, k, names, chunk) in r)
    && StrictlyAscending(KeyLess, Keys(signals, names, r))
  }

  ghost function Keys(signals: Signals, names: seq<string>, r: seq<Fused>): seq<SortKey> {
    seq(|r|, i requires 0 <= i < |r| => KeyOf(signals, names, r[i]))
  }

  ghost predicate NonNegative(lists: Lists, weights: map<string, real>) {
    forall p :: p in lists ==> WeightOf(weights, p) >= 0.0
  }

  datatype Sums = Sums(
    order: seq<string>, scores: map<string, real>, paths: map<string, map<string, Candidate>>,
    metadata: map<string, Option<string>>)

  /** The running entry of one chunk is what its definition gives over the named paths. */
  ghost predicate EntryAgrees(lists: Lists, weights: map<string, real>, k: int, names: seq<string>, acc: Sums,
                              c: string)
    requires k > 0 && forall p :: p in names ==> p in lists
  {
    && c in acc.scores && c in acc.paths && c in acc.metadata
    && acc.scores[c] == Score(lists, weights, k, names, c)
    && acc.paths[c] == PathsFor(lists, names, c)
    && Some(acc.metadata[c]) == FirstEligibility(lists, names, c)
  }

  ghost predicate Accumulated(lists: Lists, weights: map<string, real>, k: int, names: seq<string>, acc: Sums)
    requires k > 0 && forall p :: p in names ==> p in lists
  {
    && Distinct(acc.order)
    && (forall c :: c in acc.order <==> Seen(lists, names, c))
    && acc.scores.Keys == acc.paths.Keys == acc.metadata.Keys && (forall c :: c in acc.order <==> c in acc.scores)
    && (forall c :: c in acc.order ==> EntryAgrees(lists, weights, k, names, acc, c))
  }

  lemma {:induction false} UnseenIsEmpty(lists: Lists, weights: map<string, real>, k: int, names: seq<string>,
                                         chunk: string)
    requires k > 0 && (forall p :: p in names ==> p in lists) && !Seen(lists, names, chunk)
    ensures Score(lists, weights, k, names, chunk) == 0.0 && PathsFor(lists, names, chunk) == map[]
  {
    if names != [] { UnseenIsEmpty(lists, weights, k, names[..|names| - 1], chunk); }
  }

  ghost predicate BestOf(list: seq<Candidate>, best: map<string, Candidate>) {
    forall c :: Best(list, c) == if c in best then Some(best[c]) else None
  }

  method BestByChunk(list: seq<Candidate>) returns (best: map<string, Candidate>)
    ensures BestOf(list, best)
  {
    best := map[];
    for i := 0 to |list|
      invariant forall c :: Best(list[..i], c) == if c in best then Some(best[c]) else None
    {
      assert list[..i + 1][..i] == list[..i] && list[..i + 1][i] == list[i];
      var c := list[i];
      if c.chunk !in best || c.rank < best[c.chunk].rank { best := best[c.chunk := c]; }
    }
    assert list[..|list|] == list;
  }

  /** Add one chunk's best candidate on one path to the running sums. */
  function Added(acc: Sums, p: string, weight: real, k: int, c: string, best: Candidate): Sums
    requires k > 0
  {
    var score := if c in acc.scores then acc.scores[c] else 0.0;
    var paths := if c in acc.paths then acc.paths[c] else map[];
    Sums(if c in acc.order then acc.order else acc.order + [c],
         acc.scores[c := score + weight / (k + best.rank) as real],
         acc.paths[c := paths[p := best]],
         if c in acc.metadata then acc.metadata else acc.metadata[c := best.eligibility])
  }

  /** `names` are the paths summed before and one more. */
  ghost predicate OneMorePath(lists: Lists, names: seq<string>, before: seq<string>, p: string) {
    && names != [] && before == names[..|names| - 1] && p == names[|names| - 1]
    && (forall q :: q in names ==> q in lists) && (forall q :: q in before ==> q in lists)
  }

  /** The sums when the chunks in `done` have been added for the last path. */
  ghost predicate Adding(lists: Lists, weights: map<string, real>, k: int, names: seq<string>, before: seq<string>,
                         p: string, done: set<string>, acc: Sums)
    requires k > 0 && OneMorePath(lists, names, before, p)
  {
    && Distinct(acc.order)
    && (forall c :: c in acc.order <==> Seen(lists, before, c) || c in done)
    && acc.scores.Keys == acc.paths.Keys == acc.metadata.Keys && (forall c :: c in acc.order <==> c in acc.scores)
    && (forall c :: c in acc.order ==> EntryAgrees(lists, weights, k, if c in done then names else before, acc, c))
  }

  lemma AddingOneMore(lists: Lists, weights: map<string, real>, k: int, names: seq<string>, before: seq<string>,
                      p: string, done: set<string>, acc: Sums, c: string, best: Candidate)
    requires k > 0 && OneMorePath(lists, names, before, p) && c !in done
    requires Adding(lists, weights, k, names, before, p, done, acc)
    requires Best(lists[p], c) == Some(best)
    ensures Adding(lists, weights, k, names, before, p, done + {c}, Added(acc, p, WeightOf(weights, p), k, c, best))
  {
    AddedShape(acc, p, WeightOf(weights, p), k, c, best);
    AddedEntry(lists, weights, k, names, before, p, acc, c, best);
    var after := Added(acc, p, WeightOf(weights, p), k, c, best);
    forall d | d in after.order && d != c
      ensures EntryAgrees(lists, weights, k, if d in done + {c} then names else before, after, d)
    {
      AddedFrame(lists, weights, k, if d in done then names else before, acc, p, c, best, d);
    }
  }

  lemma AddedShape(acc: Sums, p: string, weight: real, k: int, c: string, best: Candidate)
    requires k > 0 && Distinct(acc.order)
    requires acc.scores.Keys == acc.paths.Keys == acc.metadata.Keys && (forall d :: d in acc.order <==> d in acc.scores)
    ensures var after := Added(acc, p, weight, k, c, best);
            && Distinct(after.order) && (forall d :: d in after.order <==> d in acc.order || d == c)
            && after.scores.Keys == after.paths.Keys == after.metadata.Keys
            && (forall d :: d in after.order <==> d in after.scores)
  {}

  lemma AddedFrame(lists: Lists, weights: map<string, real>, k: int, names: seq<string>, acc: Sums,
                   p: string, c: string, best: Candidate, d: string)
    requires k > 0 && (forall q :: q in names ==> q in lists) && d != c && EntryAgrees(lists, weights, k, names, acc, d)
    ensures EntryAgrees(lists, weights, k, names, Added(acc, p, WeightOf(weights, p), k, c, best), d)
  {}

  lemma AddedEntry(lists: Lists, weights: map<string, real>, k: int, names: seq<string>, before: seq<string>,
                   p: string, acc: Sums, c: string, best: Candidate)
    requires k > 0 && OneMorePath(lists, names, before, p)
    requires Best(lists[p], c) == Some(best)
    requires c in acc.order <==> Seen(lists, before, c)
    requires acc.scores.Keys == acc.paths.Keys == acc.metadata.Keys && (c in acc.order <==> c in acc.scores)
    requires c in acc.order ==> EntryAgrees(lists, weights, k, before, acc, c)
    ensures EntryAgrees(lists, weights, k, names, Added(acc, p, WeightOf(weights, p), k, c, best), c)
  {
    if c !in acc.order { UnseenIsEmpty(lists, weights, k, before, c); }
  }

  function AddAll(start: Sums, p: string, weight: real, k: int, picked: seq<string>, best: map<string, Candidate>): Sums
    requires k > 0 && forall c :: c in picked ==> c in best
  {
    if picked == [] then start
    else
      var c := picked[|picked| - 1];
      Added(AddAll(start, p, weight, k, picked[..|picked| - 1], best), p, weight, k, c, best[c])
  }

  lemma {:induction false} AddAllAdds(lists: Lists, weights: map<string, real>, k: int, names: seq<string>,
                                      before: seq<string>, p: string, start: Sums, picked: seq<string>,
                                      best: map<string, Candidate>)
    requires k > 0 && OneMorePath(lists, names, before, p) && p in lists && BestOf(lists[p], best)
    requires Distinct(picked) && forall c :: c in picked ==> c in best
    requires Accumulated(lists, weights, k, before, start)
    ensures Adding(lists, weights, k, names, before, p, (set c | c in picked),
                   AddAll(start, p, WeightOf(weights, p), k, picked, best))
  {
    if picked == [] {
      assert (set c | c in picked) == {};
      AddingStarts(lists, weights, k, names, before, p, start);
    } else {
      var most, c := picked[..|picked| - 1], picked[|picked| - 1];
      AddAllAdds(lists, weights, k, names, before, p, start, most, best);
      assert picked == most + [c] && c !in most;
      assert (set d | d in picked) == (set d | d in most) + {c};
      AddingOneMore(lists, weights, k, names, before, p, (set d | d in most),
                    AddAll(start, p, WeightOf(weights, p), k, most, best), c, best[c]);
    }
  }

  /** The loop over one path's best candidates. */
  method AddChunks(p: string, weight: real, k: int, start: Sums, best: map<string, Candidate>)
    returns (acc: Sums, ghost picked: seq<string>)
    requires k > 0
    ensures Distinct(picked) && (forall c :: c in picked <==> c in best)
    ensures acc == AddAll(start, p, weight, k, picked, best)
  {
    acc, picked := start, [];
    var rest := best.Keys;
    while rest != {}
      invariant rest <= best.Keys && Distinct(picked)
      invariant forall c :: c in picked <==> c in best && c !in rest
      invariant acc == AddAll(start, p, weight, k, picked, best)
      decreases |rest|
    {
      var c :| c in rest;
      acc := Added(acc, p, weight, k, c, best[c]);
      rest := rest - {c};
      assert (picked + [c])[..|picked|] == picked;
      picked := picked + [c];
    }
  }

  method AddPath(lists: Lists, weights: map<string, real>, k: int, ghost names: seq<string>, ghost before: seq<string>,
                 p: string, start: Sums)
    returns (acc: Sums)
    requires k > 0 && OneMorePath(lists, names, before, p) && p in lists
    requires Accumulated(lists, weights, k, before, start)
    ensures Accumulated(lists, weights, k, names, acc)
  {
    var best := BestByChunk(lists[p]);
    ghost var picked;
    acc, picked := AddChunks(p, WeightOf(weights, p), k, start, best);
    PathAdded(lists, weights, k, names, before, p, start, picked, best, acc);
  }

  lemma PathAdded(lists: Lists, weights: map<string, real>, k: int, names: seq<string>, before: seq<string>, p: string,
                  start: Sums, picked: seq<string>, best: map<string, Candidate>, acc: Sums)
    requires k > 0 && OneMorePath(lists, names, before, p) && p in lists && BestOf(lists[p], best)
    requires Distinct(picked) && forall c :: c in picked <==> c in best
    requires Accumulated(lists, weights, k, before, start)
    requires acc == AddAll(start, p, WeightOf(weights, p), k, picked, best)
    ensures Accumulated(lists, weights, k, names, acc)
  {
    AddAllAdds(lists, weights, k, names, before, p, start, picked, best);
    AddingDone(lists, weights, k, names, before, p, (set c | c in picked), acc);
  }

  lemma AddingStarts(lists: Lists, weights: map<string, real>, k: int, names: seq<string>, before: seq<string>,
                     p: string, acc: Sums)
    requires k > 0 && OneMorePath(lists, names, before, p) && Accumulated(lists, weights, k, before, acc)
    ensures Adding(lists, weights, k, names, before, p, {}, acc)
  {}

  lemma AddingDone(lists: Lists, weights: map<string, real>, k: int, names: seq<string>, before: seq<string>,
                   p: string, done: set<string>, acc: Sums)
    requires k > 0 && OneMorePath(lists, names, before, p)
    requires Adding(lists, weights, k, names, before, p, done, acc)
    requires forall c :: c in done <==> Best(lists[p], c).Some?
    ensures Accumulated(lists, weights, k, names, acc)
  {
    forall c | c in acc.order ensures EntryAgrees(lists, weights, k, names, acc, c) {
      assert EntryAgrees(lists, weights, k, if c in done then names else before, acc, c);
    }
  }

  method Accumulate(lists: Lists, weights: map<string, real>, k: int, names: seq<string>)
    returns (r: Result<Sums, FusionError>)
    requires k > 0 && forall p :: p in names <==> p in lists
    ensures r.Err? <==> !NonNegative(lists, weights)
    ensures r.Err? ==> r.error == NegativeWeight
    ensures r.Ok? ==> Accumulated(lists, weights, k, names, r.value)
  {
    var acc := Sums([], map[], map[], map[]);
    assert names[..0] == [];
    for i := 0 to |names|
      invariant Accumulated(lists, weights, k, names[..i], acc)
      invariant forall j :: 0 <= j < i ==> WeightOf(weights, names[j]) >= 0.0
    {
      assert names[i] in names;
      if WeightOf(weights, names[i]) < 0.0 { return Err(NegativeWeight); }
      assert names[..i + 1][..i] == names[..i] && names[..i + 1][i] == names[i];
      acc := AddPath(lists, weights, k, names[..i + 1], names[..i], names[i], acc);
    }
    assert names[..|names|] == names;
    forall p | p in lists ensures WeightOf(weights, p) >= 0.0 {
      assert p in names;
      var j :| 0 <= j < |names| && names[j] == p;
    }
    return Ok(acc);
  }

  method Fuse(lists: Lists, weights: map<string, real>, k: int, signals: Signals)
    returns (r: Result<seq<Fused>, FusionError>, names: seq<string>)
    ensures r.Err? <==> k <= 0 || !NonNegative(lists, weights)
    ensures r.Err? ==> r.error == if k <= 0 then RankConstantNotPositive else NegativeWeight
    ensures r.Ok? ==> IsFusion(lists, weights, k, signals, names, r.value)
  {
    names := SortedStrings(lists.Keys);
    if k <= 0 { return Err(RankConstantNotPositive), names; }
    var sums := Accumulate(lists, weights, k, names);
    if sums.Err? { return Err(sums.error), names; }
    var acc := sums.value;
    var fused := seq(|acc.order|, i requires 0 <= i < |acc.order| => FusedFrom(lists, names, acc, acc.order[i]));
    forall i | 0 <= i < |fused| ensures fused[i] == FusedFor(lists, weights, k, names, acc.order[i]) {
      assert acc.order[i] in acc.order;
    }
    var sorted := Sort((a, b) => KeyLess(KeyOf(signals, names, a), KeyOf(signals, names, b)), fused);
    FusedListSorts(lists, weights, k, signals, names, acc.order, fused, sorted);
    return Ok(sorted), names;
  }

  function FusedFrom(lists: Lists, names: seq<string>, acc: Sums, c: string): Fused
    requires forall p :: p in names ==> p in lists
  {
    Fused(c, if c in acc.scores then acc.scores[c] else 0.0, if c in acc.paths then acc.paths[c] else map[],
          if c in acc.metadata then acc.metadata[c] else None, TrustedExcerpt(lists, names, c))
  }

  lemma ByKeyIsWeak(signals: Signals, names: seq<string>)
    ensures StrictWeakOrder((a, b) => KeyLess(KeyOf(signals, names, a), KeyOf(signals, names, b)))
  {
    KeyOrderTotal();
    TotalIsWeak(KeyLess);
    WeakByKey(KeyLess, f => KeyOf(signals, names, f),
              (a, b) => KeyLess(KeyOf(signals, names, a), KeyOf(signals, names, b)));
  }

  lemma SeenIsListed(lists: Lists, weights: map<string, real>, k: int, names: seq<string>, order: seq<string>,
                     fused: seq<Fused>, c: string)
    requires k > 0 && (forall p :: p in names <==> p in lists) && |fused| == |order|
    requires forall i :: 0 <= i < |order| ==> fused[i] == FusedFor(lists, weights, k, names, order[i])
    ensures c in order <==> FusedFor(lists, weights, k, names, c) in fused
  {
    if c in order {
      var j :| 0 <= j < |order| && order[j] == c;
      assert fused[j] in fused;
    }
    if FusedFor(lists, weights, k, names, c) in fused {
      var j :| 0 <= j < |fused| && fused[j] == FusedFor(lists, weights, k, names, c);
      assert fused[j].chunk == order[j];
    }
  }

  lemma FusedListSorts(lists: Lists, weights: map<string, real>, k: int, signals: Signals, names: seq<string>,
                       order: seq<string>, fused: seq<Fused>, r: seq<Fused>)
    requires k > 0 && (forall p :: p in names <==> p in lists) && StrictlyAscending(StringLess, names)
    requires Distinct(order) && (forall c :: c in order <==> Seen(lists, names, c)) && |fused| == |order|
    requires forall i :: 0 <= i < |order| ==> fused[i] == FusedFor(lists, weights, k, names, order[i])
    requires r == Sort((a, b) => KeyLess(KeyOf(signals, names, a), KeyOf(signals, names, b)), fused)
    ensures IsFusion(lists, weights, k, signals, names, r)
  {
    var less := (a, b) => KeyLess(KeyOf(signals, names, a), KeyOf(signals, names, b));
    SortPermutes(less, fused);
    ByKeyIsWeak(signals, names);
    SortAscends(less, fused);
    forall i, j | 0 <= i < j < |fused| ensures fused[i] != fused[j] {
      assert fused[i].chunk == order[i] && fused[j].chunk == order[j];
    }
    PermutedDistinct(fused, r);
    forall i | 0 <= i < |r| ensures r[i] == FusedFor(lists, weights, k, names, r[i].chunk) {
      assert r[i] in r;
      var j :| 0 <= j < |fused| && fused[j] == r[i];
    }
    forall c ensures Seen(lists, names, c) <==> FusedFor(lists, weights, k, names, c) in r {
      SeenIsListed(lists, weights, k, names, order, fused, c);
    }
    forall i, j | 0 <= i < j < |r| ensures r[i].chunk != r[j].chunk {
      assert r[i] != r[j];
    }
    KeysAscend(signals, names, r);
  }

  lemma KeysAscend(signals: Signals, names: seq<string>, r: seq<Fused>)
    requires Ascending((a, b) => KeyLess(KeyOf(signals, names, a), KeyOf(signals, names, b)), r)
    requires forall i, j :: 0 <= i < j < |r| ==> r[i].chunk != r[j].chunk
    ensures StrictlyAscending(KeyLess, Keys(signals, names, r))
  {
    KeyOrderTotal();
    var keys := Keys(signals, names, r);
    var less := (a, b) => KeyLess(KeyOf(signals, names, a), KeyOf(signals, names, b));
    forall i, j | 0 <= i < j < |keys| ensures KeyLess(keys[i], keys[j]) {
      assert !less(r[j], r[i]);
      assert keys[i].chunk == r[i].chunk && keys[j].chunk == r[j].chunk;
    }
  }
}
