/** How entries of equal score are ordered, read off their candidates. */
module FusionTies {
  import opened Ordering
  import opened Candidates
  import opened Fusion
  import opened FusionLaws

  /** On the path `f` has a better rank than `g`, or has one where `g` has none. */
  predicate AheadOn(f: Fused, g: Fused, path: string) {
    path in f.paths && (path in g.paths ==> f.paths[path].rank < g.paths[path].rank)
  }

  predicate LevelOn(f: Fused, g: Fused, path: string) {
    (path in f.paths <==> path in g.paths) && (path in f.paths ==> f.paths[path].rank == g.paths[path].rank)
  }

  ghost predicate HasAuthority(f: Fused, v: real) { exists p :: p in f.paths && f.paths[p].authority == Some(v) }

  /** Some authority of `f` is smaller than every one of `g`, of which there may be none. */
  ghost predicate AheadByAuthority(f: Fused, g: Fused) {
    exists v :: HasAuthority(f, v) && forall w :: HasAuthority(g, w) ==> v < w
  }

  ghost predicate HasFreshness(f: Fused, v: real) { exists p :: p in f.paths && f.paths[p].freshness == Some(v) }

  /** Some freshness of `f` is greater than every one of `g`, of which there may be none. */
  ghost predicate AheadByFreshness(f: Fused, g: Fused) {
    exists v :: HasFreshness(f, v) && forall w :: HasFreshness(g, w) ==> v > w
  }

  ghost predicate AheadBySignals(signals: Signals, f: Fused, g: Fused) {
    || (signals.authority && AheadByAuthority(f, g))
    || ((signals.authority ==> !AheadByAuthority(g, f))
        && (|| (signals.freshness && AheadByFreshness(f, g))
            || ((signals.freshness ==> !AheadByFreshness(g, f)) && StringLess(f.chunk, g.chunk))))
  }

  /** Exact rank, then full-text rank, then vector rank, then the signals in use, then the id. */
  ghost predicate GoesFirst(signals: Signals, f: Fused, g: Fused) {
    || AheadOn(f, g, "exact")
    || (LevelOn(f, g, "exact")
        && (|| AheadOn(f, g, "bm25")
            || (LevelOn(f, g, "bm25")
                && (AheadOn(f, g, "vector") || (LevelOn(f, g, "vector") && AheadBySignals(signals, f, g))))))
  }

  /** Every rank is below the one that stands for a missing candidate. */
  predicate RanksFit(f: Fused) { forall p :: p in f.paths ==> f.paths[p].rank < 0x7FFF_FFFF }

  lemma RankOrder(f: Fused, g: Fused, path: string)
    requires RanksFit(f) && RanksFit(g)
    ensures RankOn(f, path) < RankOn(g, path) <==> AheadOn(f, g, path)
    ensures RankOn(f, path) == RankOn(g, path) <==> LevelOn(f, g, path)
  {}

  lemma AuthorityOrder(f: Fused, g: Fused, names: seq<string>)
    requires (forall p :: p in f.paths ==> p in names) && forall p :: p in g.paths ==> p in names
    ensures AuthorityLess(Authority(f.paths, names), Authority(g.paths, names)) <==> AheadByAuthority(f, g)
  {
    var a, b := Authority(f.paths, names), Authority(g.paths, names);
    AuthorityAttained(f, names);
    AuthorityAttained(g, names);
    if AuthorityLess(a, b) {
      assert HasAuthority(f, a.value);
      forall w | HasAuthority(g, w) ensures a.value < w {}
    }
    if v :| HasAuthority(f, v) && forall w :: HasAuthority(g, w) ==> v < w {
      assert a.Some? && a.value <= v;
      if b.Some? { assert HasAuthority(g, b.value); }
    }
  }

  lemma AuthorityAttained(f: Fused, names: seq<string>)
    requires forall p :: p in f.paths ==> p in names
    ensures Authority(f.paths, names).Some? ==> HasAuthority(f, Authority(f.paths, names).value)
    ensures forall v :: HasAuthority(f, v) ==>
              Authority(f.paths, names).Some? && Authority(f.paths, names).value <= v
  {
    AuthorityIsLeast(f.paths, names);
    forall v | HasAuthority(f, v) ensures Authority(f.paths, names).Some? && Authority(f.paths, names).value <= v {
      var p :| p in f.paths && f.paths[p].authority == Some(v);
      assert Ranks(f.paths, names, p);
    }
  }

  lemma FreshnessAttained(f: Fused, names: seq<string>)
    requires forall p :: p in f.paths ==> p in names
    ensures Freshness(f.paths, names).Some? ==> HasFreshness(f, Freshness(f.paths, names).value)
    ensures forall v :: HasFreshness(f, v) ==>
              Freshness(f.paths, names).Some? && Freshness(f.paths, names).value >= v
  {
    FreshnessIsGreatest(f.paths, names);
    forall v | HasFreshness(f, v) ensures Freshness(f.paths, names).Some? && Freshness(f.paths, names).value >= v {
      var p :| p in f.paths && f.paths[p].freshness == Some(v);
      assert Dates(f.paths, names, p);
    }
  }

  lemma FreshnessOrder(f: Fused, g: Fused, names: seq<string>)
    requires (forall p :: p in f.paths ==> p in names) && forall p :: p in g.paths ==> p in names
    ensures FreshnessLess(Freshness(f.paths, names), Freshness(g.paths, names)) <==> AheadByFreshness(f, g)
  {
    var a, b := Freshness(f.paths, names), Freshness(g.paths, names);
    FreshnessAttained(f, names);
    FreshnessAttained(g, names);
    if FreshnessLess(a, b) {
      assert HasFreshness(f, a.value);
      forall w | HasFreshness(g, w) ensures a.value > w {}
    }
    if v :| HasFreshness(f, v) && forall w :: HasFreshness(g, w) ==> v > w {
      assert a.Some? && a.value >= v;
      if b.Some? { assert HasFreshness(g, b.value); }
    }
  }

  lemma KeyOrderMeans(signals: Signals, names: seq<string>, f: Fused, g: Fused)
    requires RanksFit(f) && RanksFit(g) && f.score == g.score
    requires (forall p :: p in f.paths ==> p in names) && forall p :: p in g.paths ==> p in names
    ensures KeyLess(KeyOf(signals, names, f), KeyOf(signals, names, g)) <==> GoesFirst(signals, f, g)
  {
    RankOrder(f, g, "exact");
    RankOrder(f, g, "bm25");
    RankOrder(f, g, "vector");
    AuthorityOrder(f, g, names);
    AuthorityOrder(g, f, names);
    FreshnessOrder(f, g, names);
    FreshnessOrder(g, f, names);
  }

  /** Of two entries with the same score the one that comes first in the fused list goes first by this rule. */
  lemma TiesBroken(lists: Lists, weights: map<string, real>, k: int, signals: Signals, names: seq<string>,
                   r: seq<Fused>, i: nat, j: nat)
    requires IsFusion(lists, weights, k, signals, names, r) && i < j < |r| && r[i].score == r[j].score
    requires RanksFit(r[i]) && RanksFit(r[j])
    ensures GoesFirst(signals, r[i], r[j]) && !GoesFirst(signals, r[j], r[i])
  {
    EntryPathsExact(lists, names, r[i].chunk);
    EntryPathsExact(lists, names, r[j].chunk);
    var keys := Keys(signals, names, r);
    assert KeyLess(keys[i], keys[j]);
    KeyOrderTotal();
    KeyOrderMeans(signals, names, r[i], r[j]);
    KeyOrderMeans(signals, names, r[j], r[i]);
  }
}
