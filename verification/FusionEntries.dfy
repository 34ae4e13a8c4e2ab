/** What an entry of a fused list says, read off the candidate lists. */
module FusionEntries {
  import opened Ordering
  import opened Candidates
  import opened Fusion
  import opened FusionLaws

  function Sum(terms: seq<real>): real {
    if terms == [] then 0.0 else terms[0] + Sum(terms[1..])
  }

  lemma {:induction false} SumOfMore(terms: seq<real>, term: real)
    ensures Sum(terms + [term]) == Sum(terms) + term
  {
    if terms != [] {
      assert (terms + [term])[1..] == terms[1..] + [term];
      SumOfMore(terms[1..], term);
    }
  }

  ghost predicate LeastAt(list: seq<Candidate>, chunk: string, i: int) {
    && 0 <= i < |list| && list[i].chunk == chunk
    && forall j :: 0 <= j < |list| && list[j].chunk == chunk ==> list[i].rank <= list[j].rank
  }

  predicate IsShare(term: real, weight: real, k: int, rank: nat) { term * (k + rank) as real == weight }

  /** A path without the chunk adds nothing; another one its weight over the constant and the least rank there. */
  ghost predicate Adds(list: seq<Candidate>, weight: real, k: int, chunk: string, term: real)
    requires k > 0
  {
    && (!Mentions(list, chunk) ==> term == 0.0)
    && forall i :: LeastAt(list, chunk, i) ==> IsShare(term, weight, k, list[i].rank)
  }

  ghost predicate AllAdd(lists: Lists, weights: map<string, real>, k: int, names: seq<string>, chunk: string,
                         terms: seq<real>)
    requires k > 0 && Named(lists, names)
  {
    && |terms| == |names|
    && forall n :: 0 <= n < |names| ==>
         Adds(lists[names[n]], if names[n] in weights then weights[names[n]] else 0.0, k, chunk, terms[n])
  }

  lemma LeastIsBest(list: seq<Candidate>, chunk: string, i: int)
    requires LeastAt(list, chunk, i)
    ensures Best(list, chunk).Some? && Best(list, chunk).value.rank == list[i].rank
  {
    BestIsFirstBest(list, chunk);
    var b: nat :| FirstBest(list, chunk, b) && Best(list, chunk) == Some(list[b]);
  }

  lemma TermIsShare(weight: real, k: int, best: Candidate)
    requires k > 0
    ensures IsShare(Term(weight, k, Some(best)), weight, k, best.rank)
  {}

  lemma TermAdds(list: seq<Candidate>, weight: real, k: int, chunk: string)
    requires k > 0
    ensures Adds(list, weight, k, chunk, Term(weight, k, Best(list, chunk)))
  {
    BestRankIsLeast(list, chunk);
    forall i | LeastAt(list, chunk, i)
      ensures IsShare(Term(weight, k, Best(list, chunk)), weight, k, list[i].rank)
    {
      LeastIsBest(list, chunk, i);
      TermIsShare(weight, k, Best(list, chunk).value);
    }
  }

  lemma AllAddOneMore(lists: Lists, weights: map<string, real>, k: int, names: seq<string>, chunk: string,
                      terms: seq<real>, term: real)
    requires k > 0 && Named(lists, names) && names != []
    requires AllAdd(lists, weights, k, names[..|names| - 1], chunk, terms)
    requires var last := names[|names| - 1];
             Adds(lists[last], if last in weights then weights[last] else 0.0, k, chunk, term)
    ensures AllAdd(lists, weights, k, names, chunk, terms + [term])
  {}

  lemma {:induction false} ScoreIsSum(lists: Lists, weights: map<string, real>, k: int, names: seq<string>,
                                      chunk: string)
    returns (terms: seq<real>)
    requires k > 0 && Named(lists, names)
    ensures AllAdd(lists, weights, k, names, chunk, terms) && Score(lists, weights, k, names, chunk) == Sum(terms)
  {
    if names == [] {
      terms := [];
    } else {
      var last := names[|names| - 1];
      var before := ScoreIsSum(lists, weights, k, names[..|names| - 1], chunk);
      terms := before + [Term(WeightOf(weights, last), k, Best(lists[last], chunk))];
      TermAdds(lists[last], WeightOf(weights, last), k, chunk);
      AllAddOneMore(lists, weights, k, names, chunk, before, terms[|before|]);
      SumOfMore(before, terms[|before|]);
    }
  }

  /** Of the paths that have the chunk and meet the condition this one comes first by name. */
  ghost predicate FirstPath(f: Fused, meets: Candidate -> bool, p: string) {
    p in f.paths && meets(f.paths[p]) && forall q :: q in f.paths && meets(f.paths[q]) ==> q == p || StringLess(p, q)
  }

  lemma {:induction false} EligibilityIsFirst(lists: Lists, names: seq<string>, chunk: string, p: string)
    requires Named(lists, names) && StrictlyAscending(StringLess, names) && p in names
    requires Best(lists[p], chunk).Some?
    requires forall q :: q in names && Best(lists[q], chunk).Some? ==> q == p || StringLess(p, q)
    ensures FirstEligibility(lists, names, chunk) == Some(Best(lists[p], chunk).value.eligibility)
  {
    var most, last := names[..|names| - 1], names[|names| - 1];
    assert names == most + [last];
    if last != p {
      EligibilityIsFirst(lists, most, chunk, p);
    } else {
      StringLessTotal();
      forall q | q in most ensures Best(lists[q], chunk).None? { LaterName(names, q); }
      NoEligibility(lists, most, chunk);
    }
  }

  lemma LaterName(names: seq<string>, q: string)
    requires names != [] && StrictlyAscending(StringLess, names) && q in names[..|names| - 1]
    ensures StringLess(q, names[|names| - 1])
  {}

  lemma {:induction false} NoEligibility(lists: Lists, names: seq<string>, chunk: string)
    requires Named(lists, names) && forall q :: q in names ==> Best(lists[q], chunk).None?
    ensures FirstEligibility(lists, names, chunk).None?
  {
    if names != [] { NoEligibility(lists, names[..|names| - 1], chunk); }
  }

  lemma {:induction false} ExcerptIsFirst(lists: Lists, names: seq<string>, chunk: string, p: string)
    requires Named(lists, names) && StrictlyAscending(StringLess, names) && Excerpts(lists, names, chunk, p)
    requires forall q :: Excerpts(lists, names, chunk, q) ==> q == p || StringLess(p, q)
    ensures TrustedExcerpt(lists, names, chunk) == Best(lists[p], chunk).value.excerpt
  {
    var most, last := names[..|names| - 1], names[|names| - 1];
    assert names == most + [last];
    if last != p {
      forall q | Excerpts(lists, most, chunk, q) ensures q == p || StringLess(p, q) {
        assert Excerpts(lists, names, chunk, q);
      }
      ExcerptIsFirst(lists, most, chunk, p);
    } else {
      StringLessTotal();
      forall q ensures !Excerpts(lists, most, chunk, q) {
        if Excerpts(lists, most, chunk, q) {
          LaterName(names, q);
          assert Excerpts(lists, names, chunk, q);
        }
      }
      ExcerptIsTrusted(lists, most, chunk);
    }
  }

  predicate HasTrusted(c: Candidate) { c.trusted && c.excerpt.Some? }

  /** The candidates an entry carries are, path by path, the first best-ranked ones of its chunk. */
  ghost predicate CarriesBest(lists: Lists, f: Fused) {
    forall p :: && (p in f.paths <==> p in lists && Mentions(lists[p], f.chunk))
                && (p in f.paths ==> exists i: nat :: FirstBest(lists[p], f.chunk, i) && f.paths[p] == lists[p][i])
  }

  /** Label and excerpt are those of the first path by name that has the chunk, and a trusted excerpt of it. */
  ghost predicate DescribesFirst(f: Fused) {
    && (forall p :: FirstPath(f, c => true, p) ==> f.eligibility == f.paths[p].eligibility)
    && (forall p :: FirstPath(f, HasTrusted, p) ==> f.excerpt == f.paths[p].excerpt)
    && ((forall p :: p in f.paths ==> !HasTrusted(f.paths[p])) ==> f.excerpt == None)
  }

  lemma EntryCarries(lists: Lists, names: seq<string>, f: Fused)
    requires (forall p :: p in names <==> p in lists) && f.paths == PathsFor(lists, names, f.chunk)
    ensures CarriesBest(lists, f)
  {
    EntryPathsExact(lists, names, f.chunk);
    forall p ensures p in f.paths <==> p in lists && Mentions(lists[p], f.chunk)
      ensures p in f.paths ==> exists i: nat :: FirstBest(lists[p], f.chunk, i) && f.paths[p] == lists[p][i]
    {
      if p in lists {
        BestRankIsLeast(lists[p], f.chunk);
        BestIsFirstBest(lists[p], f.chunk);
      }
    }
  }

  lemma EntryDescribes(lists: Lists, weights: map<string, real>, k: int, names: seq<string>, f: Fused)
    requires k > 0 && (forall p :: p in names <==> p in lists) && StrictlyAscending(StringLess, names)
    requires f == FusedFor(lists, weights, k, names, f.chunk)
    ensures DescribesFirst(f)
  {
    EntryPathsExact(lists, names, f.chunk);
    forall p | FirstPath(f, c => true, p) ensures f.eligibility == f.paths[p].eligibility {
      EligibilityIsFirst(lists, names, f.chunk, p);
    }
    forall p ensures Excerpts(lists, names, f.chunk, p) <==> p in f.paths && HasTrusted(f.paths[p]) {}
    forall p | FirstPath(f, HasTrusted, p) ensures f.excerpt == f.paths[p].excerpt {
      ExcerptIsFirst(lists, names, f.chunk, p);
    }
    ExcerptIsTrusted(lists, names, f.chunk);
  }

  /**
   Each chunk of the lists has one entry: its score is the sum over the paths of weight over constant plus
   least rank, its candidates are the first best-ranked ones, its label and excerpt the first path's.
   */
  lemma EntriesTell(lists: Lists, weights: map<string, real>, k: int, signals: Signals, names: seq<string>,
                    r: seq<Fused>, i: nat)
    returns (terms: seq<real>)
    requires IsFusion(lists, weights, k, signals, names, r) && i < |r|
    ensures AllAdd(lists, weights, k, names, r[i].chunk, terms) && r[i].score == Sum(terms)
    ensures CarriesBest(lists, r[i]) && DescribesFirst(r[i]) && r[i].paths != map[]
    ensures forall j :: 0 <= j < |r| && j != i ==> r[j].chunk != r[i].chunk
  {
    terms := ScoreIsSum(lists, weights, k, names, r[i].chunk);
    EntryCarries(lists, names, r[i]);
    EntryDescribes(lists, weights, k, names, r[i]);
    EntryIsSeen(lists, weights, k, signals, names, r, i);
    FusedChunksDistinct(lists, weights, k, signals, names, r);
  }

  lemma EntryIsSeen(lists: Lists, weights: map<string, real>, k: int, signals: Signals, names: seq<string>,
                    r: seq<Fused>, i: nat)
    requires IsFusion(lists, weights, k, signals, names, r) && i < |r|
    ensures r[i].paths != map[]
  {
    assert r[i] in r && r[i] == FusedFor(lists, weights, k, names, r[i].chunk);
    EntryPathsExact(lists, names, r[i].chunk);
  }

  /** No chunk of any list is without an entry. */
  lemma EveryChunkFused(lists: Lists, weights: map<string, real>, k: int, signals: Signals, names: seq<string>,
                        r: seq<Fused>, p: string, i: nat)
    requires IsFusion(lists, weights, k, signals, names, r) && p in lists && i < |lists[p]|
    ensures exists j :: 0 <= j < |r| && r[j].chunk == lists[p][i].chunk
  {
    var chunk := lists[p][i].chunk;
    SeenIfMentioned(lists, names, chunk);
    assert FusedFor(lists, weights, k, names, chunk) in r;
  }
}
