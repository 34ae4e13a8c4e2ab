/** What reciprocal-rank fusion promises of its result, proved about its definition. */
module FusionLaws {
  import opened Ordering
  import opened Candidates
  import opened Fusion

  // ----- The best candidate of a list -----

  /** The candidate at `i` is the first of the chunk's best-ranked candidates. */
  ghost predicate FirstBest(list: seq<Candidate>, chunk: string, i: nat) {
    && i < |list| && list[i].chunk == chunk
    && forall j :: 0 <= j < |list| && list[j].chunk == chunk ==>
         if j < i then list[i].rank < list[j].rank else list[i].rank <= list[j].rank
  }

  lemma {:induction false} BestIsFirstBest(list: seq<Candidate>, chunk: string)
    ensures Best(list, chunk).None? ==> forall j :: 0 <= j < |list| ==> list[j].chunk != chunk
    ensures Best(list, chunk).Some? ==> exists i: nat :: FirstBest(list, chunk, i) && Best(list, chunk) == Some(list[i])
  {
    if list != [] {
      var last := |list| - 1;
      var most := list[..last];
      BestIsFirstBest(most, chunk);
      if Best(most, chunk).Some? {
        var i: nat :| FirstBest(most, chunk, i) && Best(most, chunk) == Some(most[i]);
        if list[last].chunk == chunk && list[last].rank < list[i].rank {
          assert forall j :: 0 <= j < last ==> list[j] == most[j];
          assert FirstBest(list, chunk, last);
        } else {
          assert forall j :: 0 <= j < last ==> list[j] == most[j];
          assert FirstBest(list, chunk, i);
        }
      } else {
        assert forall j :: 0 <= j < last ==> list[j] == most[j];
        if list[last].chunk == chunk { assert FirstBest(list, chunk, last); }
      }
    }
  }

  ghost predicate Mentions(list: seq<Candidate>, chunk: string) {
    exists i :: 0 <= i < |list| && list[i].chunk == chunk
  }

  /** The best rank is the least one, whatever the order of the list. */
  lemma BestRankIsLeast(list: seq<Candidate>, chunk: string)
    ensures Best(list, chunk).Some? <==> Mentions(list, chunk)
    ensures Best(list, chunk).Some? ==> Best(list, chunk).value in list && Best(list, chunk).value.chunk == chunk
    ensures Best(list, chunk).Some? ==>
              forall c :: c in list && c.chunk == chunk ==> Best(list, chunk).value.rank <= c.rank
  {
    BestIsFirstBest(list, chunk);
  }

  // ----- Permuted lists -----

  ghost predicate SameCandidates(a: Lists, b: Lists) {
    a.Keys == b.Keys && forall p :: p in a ==> multiset(a[p]) == multiset(b[p])
  }

  /** Two different candidates of one chunk share its best rank. */
  ghost predicate BestTie(list: seq<Candidate>, c: Candidate, d: Candidate) {
    && c in list && d in list && c != d && c.chunk == d.chunk
    && Best(list, c.chunk).Some? && c.rank == d.rank == Best(list, c.chunk).value.rank
  }

  ghost predicate NoBestTies(list: seq<Candidate>) { forall c, d :: !BestTie(list, c, d) }

  lemma SameElements(a: seq<Candidate>, b: seq<Candidate>)
    requires multiset(a) == multiset(b)
    ensures forall c :: c in a <==> c in b
  {
    forall c ensures c in a <==> c in b {
      assert c in a <==> c in multiset(a);
      assert c in b <==> c in multiset(b);
    }
  }

  lemma BestRankPermuted(a: seq<Candidate>, b: seq<Candidate>, chunk: string)
    requires multiset(a) == multiset(b)
    ensures Best(a, chunk).Some? <==> Best(b, chunk).Some?
    ensures Best(a, chunk).Some? ==> Best(a, chunk).value.rank == Best(b, chunk).value.rank
    ensures NoBestTies(a) ==> Best(a, chunk) == Best(b, chunk)
  {
    SameElements(a, b);
    BestRankIsLeast(a, chunk);
    BestRankIsLeast(b, chunk);
    if Mentions(a, chunk) {
      var i :| 0 <= i < |a| && a[i].chunk == chunk;
      assert a[i] in b;
      var j :| 0 <= j < |b| && b[j] == a[i];
    }
    if Mentions(b, chunk) {
      var i :| 0 <= i < |b| && b[i].chunk == chunk;
      assert b[i] in a;
      var j :| 0 <= j < |a| && a[j] == b[i];
    }
    if Mentions(a, chunk) && Mentions(b, chunk) {
      assert !BestTie(a, Best(a, chunk).value, Best(b, chunk).value) || !NoBestTies(a);
    }
  }

  ghost predicate Named(lists: Lists, names: seq<string>) { forall p :: p in names ==> p in lists }

  /** Scores and the set of chunks do not depend on the order within any list. */
  lemma {:induction false} ScoresIgnoreListOrder(
      a: Lists, b: Lists, weights: map<string, real>, k: int, names: seq<string>, chunk: string)
    requires k > 0 && SameCandidates(a, b) && Named(a, names) && Named(b, names)
    ensures Score(a, weights, k, names, chunk) == Score(b, weights, k, names, chunk)
    ensures Seen(a, names, chunk) <==> Seen(b, names, chunk)
  {
    if names != [] {
      var p := names[|names| - 1];
      ScoresIgnoreListOrder(a, b, weights, k, names[..|names| - 1], chunk);
      BestRankPermuted(a[p], b[p], chunk);
    }
  }

  lemma {:induction false} EntriesIgnoreListOrder(
      a: Lists, b: Lists, weights: map<string, real>, k: int, names: seq<string>, chunk: string)
    requires k > 0 && SameCandidates(a, b) && Named(a, names) && Named(b, names)
    requires forall p :: p in a ==> NoBestTies(a[p])
    ensures FusedFor(a, weights, k, names, chunk) == FusedFor(b, weights, k, names, chunk)
    ensures FirstEligibility(a, names, chunk) == FirstEligibility(b, names, chunk)
  {
    if names != [] {
      var p := names[|names| - 1];
      EntriesIgnoreListOrder(a, b, weights, k, names[..|names| - 1], chunk);
      BestRankPermuted(a[p], b[p], chunk);
    }
  }

  // ----- The fused list as a whole -----

  lemma SameEntriesSameKeys(a: Lists, b: Lists, weights: map<string, real>, k: int, signals: Signals,
                            names: seq<string>, r: seq<Fused>, s: seq<Fused>)
    requires IsFusion(a, weights, k, signals, names, r) && Named(b, names)
    requires forall i :: 0 <= i < |s| ==> s[i] == FusedFor(b, weights, k, names, s[i].chunk)
    requires forall c :: Seen(b, names, c) <==> FusedFor(b, weights, k, names, c) in s
    requires forall c :: FusedFor(a, weights, k, names, c) == FusedFor(b, weights, k, names, c)
    requires forall c :: Seen(a, names, c) <==> Seen(b, names, c)
    ensures forall key :: key in Keys(signals, names, s) ==> key in Keys(signals, names, r)
    ensures forall f :: f in s ==> f in r
  {
    forall f | f in s ensures f in r {
      assert f == FusedFor(b, weights, k, names, f.chunk);
      assert Seen(b, names, f.chunk);
      assert FusedFor(a, weights, k, names, f.chunk) in r;
    }
    forall key | key in Keys(signals, names, s) ensures key in Keys(signals, names, r) {
      var i :| 0 <= i < |s| && Keys(signals, names, s)[i] == key;
      assert s[i] in r;
      var j :| 0 <= j < |r| && r[j] == s[i];
      assert Keys(signals, names, r)[j] == key;
    }
  }

  /** Entry for entry equal definitions give equal fused lists. */
  lemma SameEntriesSameFusion(a: Lists, b: Lists, weights: map<string, real>, k: int, signals: Signals,
                              names: seq<string>, r: seq<Fused>, s: seq<Fused>)
    requires IsFusion(a, weights, k, signals, names, r) && IsFusion(b, weights, k, signals, names, s)
    requires forall c :: FusedFor(a, weights, k, names, c) == FusedFor(b, weights, k, names, c)
    requires forall c :: Seen(a, names, c) <==> Seen(b, names, c)
    ensures r == s
  {
    SameEntriesSameKeys(a, b, weights, k, signals, names, r, s);
    SameEntriesSameKeys(b, a, weights, k, signals, names, s, r);
    KeyOrderTotal();
    AscendingListingUnique(KeyLess, Keys(signals, names, r), Keys(signals, names, s));
    assert |Keys(signals, names, r)| == |Keys(signals, names, s)|;
    forall i | 0 <= i < |r| ensures r[i] == s[i] {
      assert Keys(signals, names, r)[i] == Keys(signals, names, s)[i];
      assert r[i].chunk == s[i].chunk;
    }
  }

  lemma NamesUnique(lists: Lists, names: seq<string>, others: seq<string>)
    requires forall p :: p in names <==> p in lists
    requires forall p :: p in others <==> p in lists
    requires StrictlyAscending(StringLess, names) && StrictlyAscending(StringLess, others)
    ensures names == others
  {
    StringLessTotal();
    AscendingListingUnique(StringLess, names, others);
  }

  /** The fused list does not depend on the order within the lists, if no chunk has two best candidates in a list. */
  lemma FusionIgnoresListOrder(a: Lists, b: Lists, weights: map<string, real>, k: int, signals: Signals,
                               names: seq<string>, others: seq<string>, r: seq<Fused>, s: seq<Fused>)
    requires IsFusion(a, weights, k, signals, names, r) && IsFusion(b, weights, k, signals, others, s)
    requires SameCandidates(a, b) && forall p :: p in a ==> NoBestTies(a[p])
    ensures r == s
  {
    NamesUnique(a, names, others);
    forall c ensures FusedFor(a, weights, k, names, c) == FusedFor(b, weights, k, names, c)
      ensures Seen(a, names, c) <==> Seen(b, names, c)
    {
      EntriesIgnoreListOrder(a, b, weights, k, names, c);
    }
    SameEntriesSameFusion(a, b, weights, k, signals, names, r, s);
  }

  lemma BestComesFirst(list: seq<Candidate>, e: Candidate) returns (front: seq<Candidate>)
    requires e in list && forall c :: c in list && c.chunk == e.chunk ==> e.rank <= c.rank
    ensures multiset(front) == multiset(list) && Best(front, e.chunk) == Some(e)
  {
    var i :| 0 <= i < |list| && list[i] == e;
    front := [e] + (list[..i] + list[i + 1..]);
    assert list == list[..i] + [e] + list[i + 1..];
    SameElements(list, front);
    BestIsFirstBest(front, e.chunk);
    BestRankIsLeast(front, e.chunk);
    assert front[0] == e;
    var j: nat :| FirstBest(front, e.chunk, j) && Best(front, e.chunk) == Some(front[j]);
    assert front[j] in list;
  }

  /** The fused lists of one set of candidates in two orders. */
  ghost predicate Reordered(a: Lists, b: Lists, weights: map<string, real>, k: int, signals: Signals,
                            names: seq<string>, others: seq<string>, r: seq<Fused>, s: seq<Fused>) {
    && SameCandidates(a, b)
    && IsFusion(a, weights, k, signals, names, r) && IsFusion(b, weights, k, signals, others, s)
  }

  /** With two best candidates some other order of the list gives another fused list. */
  lemma BestTieShows(a: Lists, weights: map<string, real>, k: int, signals: Signals, p: string, c: Candidate,
                     d: Candidate)
    returns (b: Lists)
    requires k > 0 && p in a && BestTie(a[p], c, d)
    ensures forall names, others, r, s :: Reordered(a, b, weights, k, signals, names, others, r, s) ==> r != s
    ensures SameCandidates(a, b)
  {
    var chunk := c.chunk;
    BestRankIsLeast(a[p], chunk);
    var e := if Best(a[p], chunk) == Some(c) then d else c;
    var front := BestComesFirst(a[p], e);
    b := a[p := front];
    forall names, others, r, s: seq<Fused> | Reordered(a, b, weights, k, signals, names, others, r, s) ensures r != s {
      NamesUnique(a, names, others);
      SeenOnPath(a, names, chunk, p);
      EntryPathsExact(a, names, chunk);
      EntryPathsExact(b, names, chunk);
      assert p in PathsFor(a, names, chunk) && p in PathsFor(b, names, chunk);
      var entry := FusedFor(a, weights, k, names, chunk);
      assert entry in r && entry != FusedFor(b, weights, k, names, chunk);
      assert forall i :: 0 <= i < |s| ==> s[i] == FusedFor(b, weights, k, names, s[i].chunk) && s[i] != entry;
    }
  }

  /** There is a fused list for any lists. */
  lemma FusionExists(lists: Lists, weights: map<string, real>, k: int, signals: Signals)
    returns (names: seq<string>, r: seq<Fused>)
    requires k > 0
    ensures IsFusion(lists, weights, k, signals, names, r)
  {
    names := SortedStrings(lists.Keys);
    var chunks := set p, i | p in lists && 0 <= i < |lists[p]| :: lists[p][i].chunk;
    var order := SetListing(chunks);
    forall c ensures c in order <==> Seen(lists, names, c) {
      SeenIfMentioned(lists, names, c);
    }
    var fused := seq(|order|, i requires 0 <= i < |order| => FusedFor(lists, weights, k, names, order[i]));
    r := Sort((x, y) => KeyLess(KeyOf(signals, names, x), KeyOf(signals, names, y)), fused);
    FusedListSorts(lists, weights, k, signals, names, order, fused, r);
  }

  lemma SeenIfMentioned(lists: Lists, names: seq<string>, chunk: string)
    requires forall p :: p in names <==> p in lists
    ensures Seen(lists, names, chunk) <==> exists p :: p in lists && Mentions(lists[p], chunk)
  {
    EntryPathsExact(lists, names, chunk);
    if Seen(lists, names, chunk) {
      var p :| p in PathsFor(lists, names, chunk);
      BestRankIsLeast(lists[p], chunk);
    }
    if p :| p in lists && Mentions(lists[p], chunk) {
      BestRankIsLeast(lists[p], chunk);
      SeenOnPath(lists, names, chunk, p);
    }
  }

  /** Every order of the lists gives the same fused list if and only if no chunk has two best candidates in a list. */
  lemma OrderFreeIff(a: Lists, weights: map<string, real>, k: int, signals: Signals)
    requires k > 0
    ensures (forall b, names, others, r, s :: Reordered(a, b, weights, k, signals, names, others, r, s) ==> r == s)
            <==> (forall p :: p in a ==> NoBestTies(a[p]))
  {
    if forall p :: p in a ==> NoBestTies(a[p]) {
      forall b, names, others, r, s | Reordered(a, b, weights, k, signals, names, others, r, s) ensures r == s {
        FusionIgnoresListOrder(a, b, weights, k, signals, names, others, r, s);
      }
    } else {
      var p :| p in a && !NoBestTies(a[p]);
      var c, d :| BestTie(a[p], c, d);
      var b := BestTieShows(a, weights, k, signals, p, c, d);
      var names, r := FusionExists(a, weights, k, signals);
      var others, s := FusionExists(b, weights, k, signals);
      assert Reordered(a, b, weights, k, signals, names, others, r, s);
    }
  }

  /** One entry a chunk. */
  lemma FusedChunksDistinct(lists: Lists, weights: map<string, real>, k: int, signals: Signals, names: seq<string>,
                            r: seq<Fused>)
    requires IsFusion(lists, weights, k, signals, names, r)
    ensures forall i, j :: 0 <= i < j < |r| ==> r[i].chunk != r[j].chunk
    ensures forall i, j :: 0 <= i < j < |r| ==> r[i].score >= r[j].score
  {
    KeyOrderTotal();
    forall i, j | 0 <= i < j < |r| ensures r[i].chunk != r[j].chunk && r[i].score >= r[j].score {
      var keys := Keys(signals, names, r);
      assert r[i] == FusedFor(lists, weights, k, names, r[i].chunk);
      assert r[j] == FusedFor(lists, weights, k, names, r[j].chunk);
      assert KeyLess(keys[i], keys[j]);
      assert !KeyLess(keys[i], keys[i]);
    }
  }

  // ----- Dominance -----

  /** On one path: `a` is ranked at least as well as `b`. */
  predicate NoWorse(list: seq<Candidate>, a: string, b: string) {
    var best, other := Best(list, a), Best(list, b);
    other.Some? ==> best.Some? && best.value.rank <= other.value.rank
  }

  predicate BetterOn(list: seq<Candidate>, a: string, b: string) {
    var best, other := Best(list, a), Best(list, b);
    best.Some? && (other.None? || best.value.rank < other.value.rank)
  }

  lemma ReciprocalFalls(weight: real, m: real, n: real)
    requires weight >= 0.0 && 0.0 < m <= n
    ensures weight / m >= weight / n
    ensures weight > 0.0 && m < n ==> weight / m > weight / n
  {
    var x, y := weight / m, weight / n;
    assert x * m == weight && y * n == weight;
    assert y >= 0.0;
    assert x * m == y * n >= y * m;
    if weight > 0.0 && m < n {
      assert y > 0.0;
      assert y * n > y * m;
    }
  }

  lemma TermGrows(list: seq<Candidate>, weight: real, k: int, a: string, b: string)
    requires k > 0 && weight >= 0.0 && NoWorse(list, a, b)
    ensures Term(weight, k, Best(list, a)) >= Term(weight, k, Best(list, b))
    ensures weight > 0.0 && BetterOn(list, a, b) ==>
              Term(weight, k, Best(list, a)) > Term(weight, k, Best(list, b))
  {
    var best, other := Best(list, a), Best(list, b);
    if best.Some? {
      var m := (k + best.value.rank) as real;
      assert m > 0.0;
      assert (weight / m) * m == weight;
      if other.Some? {
        ReciprocalFalls(weight, m, (k + other.value.rank) as real);
      }
    }
  }

  lemma {:induction false} ScoreGrows(lists: Lists, weights: map<string, real>, k: int, names: seq<string>, a: string,
                                      b: string)
    requires k > 0 && Named(lists, names) && NonNegative(lists, weights)
    requires forall p :: p in names ==> NoWorse(lists[p], a, b)
    ensures Score(lists, weights, k, names, a) >= Score(lists, weights, k, names, b)
    ensures (exists p :: p in names && WeightOf(weights, p) > 0.0 && BetterOn(lists[p], a, b)) ==>
              Score(lists, weights, k, names, a) > Score(lists, weights, k, names, b)
  {
    if names != [] {
      var most, p := names[..|names| - 1], names[|names| - 1];
      ScoreGrows(lists, weights, k, most, a, b);
      TermGrows(lists[p], WeightOf(weights, p), k, a, b);
      assert names == most + [p];
    }
  }

  /** A chunk no worse on any path, and better on one that weighs, comes strictly earlier. */
  lemma DominatingChunkComesFirst(lists: Lists, weights: map<string, real>, k: int, signals: Signals,
                                  names: seq<string>,
                                  r: seq<Fused>, a: string, b: string, p: string)
    requires IsFusion(lists, weights, k, signals, names, r) && NonNegative(lists, weights)
    requires forall q :: q in lists ==> NoWorse(lists[q], a, b)
    requires p in lists && WeightOf(weights, p) > 0.0 && BetterOn(lists[p], a, b)
    ensures exists i :: 0 <= i < |r| && r[i].chunk == a
    ensures forall i, j :: 0 <= i < |r| && 0 <= j < |r| && r[i].chunk == a && r[j].chunk == b ==> i < j
  {
    ScoreGrows(lists, weights, k, names, a, b);
    assert p in names;
    SeenOnPath(lists, names, a, p);
    forall i, j | 0 <= i < |r| && 0 <= j < |r| && r[i].chunk == a && r[j].chunk == b ensures i < j {
      assert r[i].score > r[j].score;
      FusedChunksDistinct(lists, weights, k, signals, names, r);
    }
  }

  /** A chunk is fused exactly when some path has it. */
  lemma {:induction false} SeenOnPath(lists: Lists, names: seq<string>, chunk: string, p: string)
    requires Named(lists, names)
    requires p in names && Best(lists[p], chunk).Some?
    ensures Seen(lists, names, chunk)
  {
    var most := names[..|names| - 1];
    assert names == most + [names[|names| - 1]];
    if p in most { SeenOnPath(lists, most, chunk, p); }
  }

  // ----- What an entry carries -----

  /** The paths of an entry are exactly those that have the chunk, each with its best candidate there. */
  lemma {:induction false} EntryPathsExact(lists: Lists, names: seq<string>, chunk: string)
    requires Named(lists, names)
    ensures forall p :: p in PathsFor(lists, names, chunk) <==> p in names && Best(lists[p], chunk).Some?
    ensures forall p :: p in PathsFor(lists, names, chunk) ==>
              Best(lists[p], chunk) == Some(PathsFor(lists, names, chunk)[p])
    ensures Seen(lists, names, chunk) <==> PathsFor(lists, names, chunk) != map[]
  {
    if names != [] {
      var most, last := names[..|names| - 1], names[|names| - 1];
      EntryPathsExact(lists, most, chunk);
      assert names == most + [last];
      if Best(lists[last], chunk).Some? { assert last in PathsFor(lists, names, chunk); }
    }
  }

  predicate TrustedOn(list: seq<Candidate>, chunk: string) {
    Best(list, chunk).Some? && Best(list, chunk).value.trusted && Best(list, chunk).value.excerpt.Some?
  }

  ghost predicate Excerpts(lists: Lists, names: seq<string>, chunk: string, p: string)
    requires Named(lists, names)
  {
    p in names && TrustedOn(lists[p], chunk)
  }

  /** The excerpt of an entry is the trusted one of one of its own candidates, and absent only if none has one. */
  lemma {:induction false} ExcerptIsTrusted(lists: Lists, names: seq<string>, chunk: string)
    requires Named(lists, names)
    ensures forall p :: Excerpts(lists, names, chunk, p) ==> TrustedExcerpt(lists, names, chunk).Some?
    ensures TrustedExcerpt(lists, names, chunk).Some? ==>
              exists p :: Excerpts(lists, names, chunk, p)
                          && Best(lists[p], chunk).value.excerpt == TrustedExcerpt(lists, names, chunk)
  {
    if names != [] {
      var most, last := names[..|names| - 1], names[|names| - 1];
      ExcerptIsTrusted(lists, most, chunk);
      assert names == most + [last];
      assert forall p :: Excerpts(lists, names, chunk, p) <==>
                         Excerpts(lists, most, chunk, p) || (p == last && TrustedOn(lists[last], chunk));
      assert TrustedOn(lists[last], chunk) ==> Excerpts(lists, names, chunk, last);
    }
  }

  ghost predicate Ranks(paths: map<string, Candidate>, names: seq<string>, p: string) {
    p in names && p in paths && paths[p].authority.Some?
  }

  /** The authority sorted by is the least known one. */
  lemma {:induction false} AuthorityIsLeast(paths: map<string, Candidate>, names: seq<string>)
    ensures Authority(paths, names).None? <==> forall p :: !Ranks(paths, names, p)
    ensures Authority(paths, names).Some? ==>
              exists p :: Ranks(paths, names, p) && paths[p].authority == Authority(paths, names)
    ensures forall p :: Ranks(paths, names, p) ==> Authority(paths, names).Some?
                                                   && Authority(paths, names).value <= paths[p].authority.value
  {
    if names != [] {
      var most, last := names[..|names| - 1], names[|names| - 1];
      AuthorityIsLeast(paths, most);
      assert names == most + [last];
      assert forall p :: Ranks(paths, names, p) <==> Ranks(paths, most, p) || (p == last && Ranks(paths, [last], last));
    }
  }

  ghost predicate Dates(paths: map<string, Candidate>, names: seq<string>, p: string) {
    p in names && p in paths && paths[p].freshness.Some?
  }

  /** The freshness sorted by is the greatest known one. */
  lemma {:induction false} FreshnessIsGreatest(paths: map<string, Candidate>, names: seq<string>)
    ensures Freshness(paths, names).None? <==> forall p :: !Dates(paths, names, p)
    ensures Freshness(paths, names).Some? ==>
              exists p :: Dates(paths, names, p) && paths[p].freshness == Freshness(paths, names)
    ensures forall p :: Dates(paths, names, p) ==> Freshness(paths, names).Some?
                                                   && Freshness(paths, names).value >= paths[p].freshness.value
  {
    if names != [] {
      var most, last := names[..|names| - 1], names[|names| - 1];
      FreshnessIsGreatest(paths, most);
      assert names == most + [last];
      assert forall p :: Dates(paths, names, p) <==> Dates(paths, most, p) || (p == last && Dates(paths, [last], last));
    }
  }
}
