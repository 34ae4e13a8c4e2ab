/** Over which entities the traversal can be relied on to report every chain within its bounds. */
module TraversalCompleteness {
  import opened Ordering
  import opened LikePattern
  import opened VisitedText
  import opened Traversal
  import opened TraversalChains

  /** Different entities of the set, none of them `e`. */
  ghost predicate Others(entities: set<Entity>, es: seq<Entity>, e: Entity) {
    es != [] && Distinct(es) && (forall f :: f in es ==> f in entities) && e in entities && e !in es
  }

  /** No repetition-free list of some of them passes the visited test for another one. */
  ghost predicate Unambiguous(entities: set<Entity>) {
    forall es, e :: Others(entities, es, e) ==> !Contains(Visited(es), Needle(e))
  }

  /** In no such list do the parts of another one stand in a row. */
  ghost predicate UnambiguousParts(entities: set<Entity>) {
    forall es, e :: Others(entities, es, e) ==> !TakenForVisited(es, e)
  }

  /** Seeds and relationships are between these entities. */
  predicate Over(rels: seq<Relationship>, seeds: seq<Entity>, entities: set<Entity>) {
    && (forall s :: s in seeds ==> s in entities)
    && forall r :: r in rels ==> r.source in entities && r.target in entities
  }

  /** The hits are the ends of chains that leave out none within the bounds. */
  ghost predicate ListsAll(profile: Profile, rels: seq<Relationship>, seeds: seq<Entity>) {
    && Traverse(profile, rels, seeds).Ok?
    && exists chains :: Reports(profile, rels, seeds, Traverse(profile, rels, seeds).value, chains)
                        && LeavesOutNone(profile, rels, seeds, chains)
  }

  ghost predicate LeavesOutNone(profile: Profile, rels: seq<Relationship>, seeds: seq<Entity>, chains: seq<Chain>) {
    forall c :: Bounded(profile, rels, seeds, c) && c.steps != [] ==> c in chains
  }

  /** Every query over the entities reports every chain within its bounds. */
  ghost predicate AlwaysComplete(entities: set<Entity>) {
    forall profile: Profile, rels, seeds ::
      Over(rels, seeds, entities) && profile.enabled && profile.skipSeen && seeds != [] ==>
        ListsAll(profile, rels, seeds)
  }

  // ----- Unambiguous entities suffice -----

  lemma StopsAreOver(rels: seq<Relationship>, seeds: seq<Entity>, entities: set<Entity>, c: Chain, n: nat)
    requires Over(rels, seeds, entities) && InTables(rels, seeds, c) && n <= |c.steps|
    ensures Stops(rels, seeds, c)[n] in entities
  {
    if n == 0 {
      assert seeds[c.seed] in seeds;
    } else {
      assert rels[c.steps[n - 1].at] in rels;
      assert Stops(rels, seeds, c)[(n - 1) + 1] == To(rels, c.steps[n - 1]);
    }
  }

  lemma UnambiguousUnheld(profile: Profile, rels: seq<Relationship>, seeds: seq<Entity>, entities: set<Entity>,
                          c: Chain)
    requires Over(rels, seeds, entities) && Unambiguous(entities) && Bounded(profile, rels, seeds, c)
    ensures Unheld(rels, seeds, c)
  {
    var stops := Stops(rels, seeds, c);
    forall i: nat | i < |stops| ensures stops[i] in entities { StopsAreOver(rels, seeds, entities, c, i); }
    UnambiguousFresh(entities, stops);
  }

  lemma UnambiguousFresh(entities: set<Entity>, stops: seq<Entity>)
    requires Unambiguous(entities) && Distinct(stops) && forall i: nat :: i < |stops| ==> stops[i] in entities
    ensures AllFresh(stops)
  {
    forall n | 0 < n < |stops| ensures !Contains(Visited(stops[..n]), Needle(stops[n])) {
      assert Others(entities, stops[..n], stops[n]);
    }
  }

  lemma UnambiguousListsAll(profile: Profile, rels: seq<Relationship>, seeds: seq<Entity>, entities: set<Entity>)
    requires Over(rels, seeds, entities) && profile.enabled && profile.skipSeen && seeds != []
    requires Unambiguous(entities) && forall e :: e in entities ==> UnescapedEntity(e)
    ensures ListsAll(profile, rels, seeds)
  {
    var chains := TraversalListsChains(profile, rels, seeds);
    forall c | Bounded(profile, rels, seeds, c) && c.steps != [] ensures c in chains {
      UnambiguousUnheld(profile, rels, seeds, entities, c);
    }
    assert LeavesOutNone(profile, rels, seeds, chains);
  }

  // ----- They are needed -----

  /** A list of the same length that holds all of another holds nothing else. */
  lemma NoRoomFor<T>(some: seq<T>, all: seq<T>, x: T)
    requires Distinct(some) && Distinct(all) && |all| == |some| && x !in some && forall y :: y in some ==> y in all
    ensures x !in all
  {
    DistinctCardinality(some);
    DistinctCardinality(all);
    if x in all { SubsetCardinality((set y | y in some) + {x}, set y | y in all); }
  }

  /** A chain that is held up is missing: there are too few hits for all. */
  lemma HeldIsMissing(profile: Profile, rels: seq<Relationship>, seeds: seq<Entity>, c: Chain)
    requires profile.enabled && profile.skipSeen && seeds != [] && UnescapedEnds(rels)
    requires Bounded(profile, rels, seeds, c) && c.steps != [] && !Unheld(rels, seeds, c)
    ensures !ListsAll(profile, rels, seeds)
  {
    var chains := TraversalListsChains(profile, rels, seeds);
    var hits := Traverse(profile, rels, seeds).value;
    forall all | Reports(profile, rels, seeds, hits, all) ensures !LeavesOutNone(profile, rels, seeds, all) {
      forall d | d in chains ensures Bounded(profile, rels, seeds, d) && d.steps != [] {}
      if LeavesOutNone(profile, rels, seeds, all) { NoRoomFor(chains, all, c); }
    }
  }

  function Line(ns: seq<Entity>): seq<Relationship> {
    seq(if ns == [] then 0 else |ns| - 1, i requires 0 <= i < |ns| - 1 => Relationship("r", "t", ns[i], ns[i + 1]))
  }

  function LineProfile(n: nat): Profile { Profile(true, true, {"t"}, Outbound, n, 1, 2 * n) }

  predicate Straight(c: Chain) { c.seed == 0 && forall i :: 0 <= i < |c.steps| ==> c.steps[i] == Step(i, true) }

  function Along(n: nat): (c: Chain)
    ensures |c.steps| == n && Straight(c)
  {
    Chain(0, seq(n, i requires 0 <= i < n => Step(i, true)))
  }

  lemma LineRank(ns: seq<Entity>, depth: nat, i: nat)
    requires Distinct(ns) && i + 1 < |ns|
    ensures Rank(LineProfile(depth), Line(ns), Step(i, true)) == 1
  {
    StringLessTotal();
    assert StepsBefore(LineProfile(depth), Line(ns), Step(i, true)) == {};
  }

  lemma LineInTables(ns: seq<Entity>, c: Chain)
    requires Straight(c) && |c.steps| < |ns|
    ensures InTables(Line(ns), [ns[0]], c)
  {}

  lemma {:induction false} LineNumber(ns: seq<Entity>, depth: nat, c: Chain)
    requires Distinct(ns) && Straight(c) && |c.steps| < |ns|
    ensures InTables(Line(ns), [ns[0]], c)
    ensures Number(LineProfile(depth), Line(ns), [ns[0]], c) == 2 * |c.steps|
    decreases |c.steps|
  {
    LineInTables(ns, c);
    if c.steps != [] {
      var last := |c.steps| - 1;
      LineNumber(ns, depth, Shorter(c));
      LineRank(ns, depth, last);
      NumberOfLast(LineProfile(depth), Line(ns), [ns[0]], c);
    }
  }

  /** Along a line of different entities, one relationship each, the chain to the end is within the bounds. */
  lemma LineBounded(ns: seq<Entity>)
    requires Distinct(ns) && ns != []
    ensures Bounded(LineProfile(|ns| - 1), Line(ns), [ns[0]], Along(|ns| - 1))
    ensures Stops(Line(ns), [ns[0]], Along(|ns| - 1)) == ns
  {
    LineNumber(ns, |ns| - 1, Along(|ns| - 1));
    LineStops(ns, Along(|ns| - 1));
    LineChainBounded(ns, Along(|ns| - 1));
  }

  lemma LineStops(ns: seq<Entity>, c: Chain)
    requires ns != [] && Straight(c) && |c.steps| == |ns| - 1
    ensures InTables(Line(ns), [ns[0]], c) && Stops(Line(ns), [ns[0]], c) == ns
  {}

  lemma LineChainBounded(ns: seq<Entity>, c: Chain)
    requires ns != [] && Distinct(ns) && Straight(c) && |c.steps| == |ns| - 1
    requires InTables(Line(ns), [ns[0]], c) && Stops(Line(ns), [ns[0]], c) == ns
    requires Number(LineProfile(|ns| - 1), Line(ns), [ns[0]], c) == 2 * (|ns| - 1)
    ensures Bounded(LineProfile(|ns| - 1), Line(ns), [ns[0]], c)
  {
    forall i: nat | i < |c.steps| ensures Joins(LineProfile(|ns| - 1), Line(ns), c.steps[i], ns[i]) {
      LineJoins(ns, i);
    }
  }

  lemma LineJoins(ns: seq<Entity>, i: nat)
    requires Distinct(ns) && i + 1 < |ns|
    ensures Joins(LineProfile(|ns| - 1), Line(ns), Step(i, true), ns[i])
  {
    LineRank(ns, |ns| - 1, i);
  }

  /** If the line is held up somewhere, the query along it leaves out the chain to its end. */
  lemma HeldLine(ns: seq<Entity>)
    requires |ns| > 1 && Distinct(ns) && UnescapedEnds(Line(ns)) && !AllFresh(ns)
    ensures !ListsAll(LineProfile(|ns| - 1), Line(ns), [ns[0]])
  {
    LineBounded(ns);
    HeldIsMissing(LineProfile(|ns| - 1), Line(ns), [ns[0]], Along(|ns| - 1));
  }

  lemma LineEnds(ns: seq<Entity>)
    ensures forall r :: r in Line(ns) ==> r.source in ns && r.target in ns
    ensures (forall f :: f in ns ==> UnescapedEntity(f)) ==> UnescapedEnds(Line(ns))
  {
    forall r | r in Line(ns) ensures r.source in ns && r.target in ns {
      var i :| 0 <= i < |ns| - 1 && r == Line(ns)[i];
      assert ns[i] == r.source && ns[i + 1] == r.target;
    }
  }

  lemma MisledQueryMisses(entities: set<Entity>, ns: seq<Entity>)
    requires |ns| > 1 && Distinct(ns) && !AllFresh(ns)
    requires forall f :: f in ns ==> f in entities && UnescapedEntity(f)
    ensures !AlwaysComplete(entities)
  {
    LineEnds(ns);
    HeldLine(ns);
    assert Over(Line(ns), [ns[0]], entities);
  }

  /**
   Every traversal over entities without escapes reports every chain within its bounds if and only if no
   repetition-free list of some of them passes the visited test for another one.
   */
  lemma CompleteOverIff(entities: set<Entity>)
    requires forall e :: e in entities ==> UnescapedEntity(e)
    ensures AlwaysComplete(entities) <==> Unambiguous(entities)
  {
    if Unambiguous(entities) {
      forall profile: Profile, rels, seeds
        | Over(rels, seeds, entities) && profile.enabled && profile.skipSeen && seeds != []
        ensures ListsAll(profile, rels, seeds)
      {
        UnambiguousListsAll(profile, rels, seeds, entities);
      }
    } else {
      var es, e :| Others(entities, es, e) && Contains(Visited(es), Needle(e));
      FreshLast(es, e);
      MisledQueryMisses(entities, es + [e]);
    }
  }

  /** Without wildcards too, it is the parts between bars that decide. */
  lemma LiteralCompleteOverIff(entities: set<Entity>)
    requires forall e :: e in entities ==> LiteralEntity(e)
    ensures AlwaysComplete(entities) <==> UnambiguousParts(entities)
  {
    CompleteOverIff(entities);
    forall es, e | Others(entities, es, e) ensures Contains(Visited(es), Needle(e)) <==> TakenForVisited(es, e) {
      VisitedTestDecides(es, e);
    }
  }

  /** Entities whose texts hold no delimiters are unambiguous. */
  lemma DelimitedUnambiguous(entities: set<Entity>)
    requires forall e :: e in entities ==> LiteralEntity(e) && Delimited(e)
    ensures Unambiguous(entities)
  {
    forall es, e | Others(entities, es, e) ensures !Contains(Visited(es), Needle(e)) {
      VisitedTestExact(es, e);
    }
  }

  /**
   One relationship to `e` from an entity whose id ends in a bar and the text of `e`, such as from
   `fact:a|fact:b` to `fact:b`: the traversal from there reports nothing.
   */
  lemma PathMissed(f: Entity, head: string, e: Entity)
    requires LiteralEntity(e) && UnescapedEntity(f) && f.id == head + "|" + Token(e)
    ensures Traverse(LineProfile(1), [Relationship("r", "t", f, e)], [f]) == Ok([])
    ensures Bounded(LineProfile(1), [Relationship("r", "t", f, e)], [f], Along(1))
  {
    var rels := [Relationship("r", "t", f, e)];
    BehindBarMatches(f, head, e);
    assert rels == Line([f, e]) && Distinct([f, e]);
    LineBounded([f, e]);
    var chains := TraversalListsChains(LineProfile(1), rels, [f]);
    if chains != [] {
      assert chains[0] in chains;
      OnlyChain(rels, f, e, chains[0]);
    }
  }

  lemma OnlyChain(rels: seq<Relationship>, f: Entity, e: Entity, c: Chain)
    requires rels == [Relationship("r", "t", f, e)] && Bounded(LineProfile(1), rels, [f], c) && c.steps != []
    ensures Unheld(rels, [f], c) ==> !Contains(Visited([f]), Needle(e))
  {
    var stops := Stops(rels, [f], c);
    assert Joins(LineProfile(1), rels, c.steps[0], stops[0]) && c.steps[0] == Step(0, true);
    assert stops == [f] + [e];
    FreshLast([f], e);
  }
}
