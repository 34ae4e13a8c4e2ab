/** The traversal told on the relationships themselves: which chains of them it reports. */
module TraversalChains {
  import opened Ordering
  import opened LikePattern
  import opened VisitedText
  import opened Traversal

  // ----- Chains of relationships -----

  /** The relationship at a place of the table, taken from source to target or back. */
  datatype Step = Step(at: nat, forward: bool)

  datatype Chain = Chain(seed: nat, steps: seq<Step>)

  function From(rels: seq<Relationship>, s: Step): Entity
    requires s.at < |rels|
  {
    if s.forward then rels[s.at].source else rels[s.at].target
  }

  function To(rels: seq<Relationship>, s: Step): Entity
    requires s.at < |rels|
  {
    if s.forward then rels[s.at].target else rels[s.at].source
  }

  /** The relationship has a type that is followed, and is followed this way round. */
  predicate Allowed(profile: Profile, rels: seq<Relationship>, s: Step) {
    && s.at < |rels| && rels[s.at].kind in profile.types
    && (s.forward ==> profile.direction == Outbound || profile.direction == Both)
    && (!s.forward ==> profile.direction == Inbound || profile.direction == Both)
  }

  /** Of two steps away from one entity this one is numbered first; the table settles ties the order leaves open. */
  predicate Sooner(rels: seq<Relationship>, a: Step, b: Step)
    requires a.at < |rels| && b.at < |rels|
  {
    var x, y, to, other := rels[a.at].id, rels[b.at].id, To(rels, a).id, To(rels, b).id;
    || StringLess(x, y) || (x == y && StringLess(to, other))
    || (x == y && to == other && InTable(a, b))
  }

  predicate InTable(a: Step, b: Step) { (a.forward && !b.forward) || (a.forward == b.forward && a.at < b.at) }

  /** The steps away from the same entity that come before this one. */
  ghost function StepsBefore(profile: Profile, rels: seq<Relationship>, s: Step): set<Step>
    requires s.at < |rels|
  {
    set at, forward | 0 <= at < |rels| && forward in {false, true} && Allowed(profile, rels, Step(at, forward))
                      && From(rels, Step(at, forward)) == From(rels, s) && Sooner(rels, Step(at, forward), s)
                    :: Step(at, forward)
  }

  ghost function Rank(profile: Profile, rels: seq<Relationship>, s: Step): nat
    requires s.at < |rels|
  {
    1 + |StepsBefore(profile, rels, s)|
  }

  predicate InTables(rels: seq<Relationship>, seeds: seq<Entity>, c: Chain) {
    c.seed < |seeds| && forall i :: 0 <= i < |c.steps| ==> c.steps[i].at < |rels|
  }

  function Shorter(c: Chain): Chain
    requires c.steps != []
  {
    Chain(c.seed, c.steps[..|c.steps| - 1])
  }

  /** The entities a chain visits, the seed first. */
  function Stops(rels: seq<Relationship>, seeds: seq<Entity>, c: Chain): (stops: seq<Entity>)
    requires InTables(rels, seeds, c)
    ensures |stops| == |c.steps| + 1 && stops[0] == seeds[c.seed]
    ensures forall i :: 0 <= i < |c.steps| ==> stops[i + 1] == To(rels, c.steps[i])
  {
    [seeds[c.seed]] + seq(|c.steps|, i requires 0 <= i < |c.steps| => To(rels, c.steps[i]))
  }

  /** Chains are numbered after the seeds, a block of `fanout` numbers for the steps after each. */
  ghost function Number(profile: Profile, rels: seq<Relationship>, seeds: seq<Entity>, c: Chain): nat
    requires InTables(rels, seeds, c)
    decreases |c.steps|
  {
    if c.steps == [] then c.seed
    else
      |seeds| + Number(profile, rels, seeds, Shorter(c)) * profile.fanout
      + Rank(profile, rels, c.steps[|c.steps| - 1])
  }

  /** The step keeps to the profile and goes on from where the chain is. */
  ghost predicate Joins(profile: Profile, rels: seq<Relationship>, s: Step, at: Entity) {
    Allowed(profile, rels, s) && From(rels, s) == at && Rank(profile, rels, s) <= profile.fanout
  }

  /** A chain from a seed of allowed, joined steps within the bounds, visiting no entity twice. */
  ghost predicate Bounded(profile: Profile, rels: seq<Relationship>, seeds: seq<Entity>, c: Chain) {
    && InTables(rels, seeds, c) && |c.steps| <= profile.maxDepth
    && (forall i :: 0 <= i < |c.steps| ==> Joins(profile, rels, c.steps[i], Stops(rels, seeds, c)[i]))
    && Distinct(Stops(rels, seeds, c))
    && (c.steps != [] ==> Number(profile, rels, seeds, c) <= profile.cap)
  }

  /** No entity of the list passes the visited test against those before it. */
  predicate AllFresh(stops: seq<Entity>) {
    forall n :: 0 < n < |stops| ==> !Contains(Visited(stops[..n]), Needle(stops[n]))
  }

  /** The visited test leaves every stop alone. */
  predicate Unheld(rels: seq<Relationship>, seeds: seq<Entity>, c: Chain)
    requires InTables(rels, seeds, c)
  {
    AllFresh(Stops(rels, seeds, c))
  }

  function HitAt(rels: seq<Relationship>, seeds: seq<Entity>, c: Chain): Hit
    requires InTables(rels, seeds, c) && c.steps != []
  {
    var last := c.steps[|c.steps| - 1];
    Hit(rels[last.at].id, To(rels, last), |c.steps|)
  }

  // ----- The edges of the walk are the allowed steps -----

  function EdgeFor(rels: seq<Relationship>, s: Step): Edge
    requires s.at < |rels|
  {
    Edge(rels[s.at].id, From(rels, s), To(rels, s))
  }

  /** The edges, in order, are those of the steps, which run through the table one way and then the other. */
  ghost predicate Mirrors(rels: seq<Relationship>, edges: seq<Edge>, ss: seq<Step>) {
    && |ss| == |edges|
    && (forall i :: 0 <= i < |ss| ==> ss[i].at < |rels| && edges[i] == EdgeFor(rels, ss[i]))
    && forall i, j :: 0 <= i < j < |ss| ==> InTable(ss[i], ss[j])
  }

  ghost predicate AreSteps(rels: seq<Relationship>, types: set<string>, forward: bool, from: nat, ss: seq<Step>) {
    && (forall i :: 0 <= i < |ss| ==> from <= ss[i].at && ss[i].forward == forward)
    && forall s: Step :: s in ss <==> s.forward == forward && from <= s.at < |rels| && rels[s.at].kind in types
  }

  /** The edges of one orientation from a place of the table on. */
  function EdgesFrom(rels: seq<Relationship>, types: set<string>, forward: bool, from: nat): seq<Edge>
    requires from <= |rels|
  {
    if forward then Forward(rels[from..], types) else Backward(rels[from..], types)
  }

  lemma EdgesFromStep(rels: seq<Relationship>, types: set<string>, forward: bool, from: nat)
    requires from < |rels|
    ensures EdgesFrom(rels, types, forward, from)
            == (if rels[from].kind in types then [EdgeFor(rels, Step(from, forward))] else [])
               + EdgesFrom(rels, types, forward, from + 1)
  {
    assert rels[from..][1..] == rels[from + 1..] && rels[from..][0] == rels[from];
  }

  lemma {:induction false} StepsOneWay(rels: seq<Relationship>, types: set<string>, forward: bool, from: nat)
    returns (ss: seq<Step>)
    requires from <= |rels|
    ensures Mirrors(rels, EdgesFrom(rels, types, forward, from), ss)
    ensures AreSteps(rels, types, forward, from, ss)
    decreases |rels| - from
  {
    if from == |rels| {
      ss := [];
    } else {
      var rest := StepsOneWay(rels, types, forward, from + 1);
      EdgesFromStep(rels, types, forward, from);
      ss := OneStepMore(rels, types, forward, from, EdgesFrom(rels, types, forward, from + 1), rest);
    }
  }

  lemma OneStepMore(rels: seq<Relationship>, types: set<string>, forward: bool, from: nat, edges: seq<Edge>,
                    rest: seq<Step>)
    returns (ss: seq<Step>)
    requires from < |rels| && Mirrors(rels, edges, rest) && AreSteps(rels, types, forward, from + 1, rest)
    ensures AreSteps(rels, types, forward, from, ss)
    ensures Mirrors(rels, (if rels[from].kind in types then [EdgeFor(rels, Step(from, forward))] else []) + edges, ss)
  {
    if rels[from].kind in types {
      ss := [Step(from, forward)] + rest;
      MirrorsFirst(rels, edges, rest, Step(from, forward));
      StepsAdded(rels, types, forward, from, rest);
    } else {
      ss := rest;
      StepsSkipped(rels, types, forward, from, rest);
      assert [] + edges == edges;
    }
  }

  lemma MirrorsFirst(rels: seq<Relationship>, edges: seq<Edge>, ss: seq<Step>, first: Step)
    requires Mirrors(rels, edges, ss) && first.at < |rels|
    requires forall i :: 0 <= i < |ss| ==> first.forward == ss[i].forward && first.at < ss[i].at
    ensures Mirrors(rels, [EdgeFor(rels, first)] + edges, [first] + ss)
  {}

  lemma StepsAdded(rels: seq<Relationship>, types: set<string>, forward: bool, from: nat, ss: seq<Step>)
    requires from < |rels| && AreSteps(rels, types, forward, from + 1, ss) && rels[from].kind in types
    ensures AreSteps(rels, types, forward, from, [Step(from, forward)] + ss)
  {
    var more := [Step(from, forward)] + ss;
    forall s: Step
      ensures s in more <==> s.forward == forward && from <= s.at < |rels| && rels[s.at].kind in types
    {
      assert s in more <==> s == Step(from, forward) || s in ss;
    }
  }

  lemma StepsSkipped(rels: seq<Relationship>, types: set<string>, forward: bool, from: nat, ss: seq<Step>)
    requires from < |rels| && AreSteps(rels, types, forward, from + 1, ss) && rels[from].kind !in types
    ensures AreSteps(rels, types, forward, from, ss)
  {
    forall s: Step
      ensures s in ss <==> s.forward == forward && from <= s.at < |rels| && rels[s.at].kind in types
    {
      assert s.at == from ==> rels[s.at].kind !in types;
    }
  }

  lemma StepsOfWalk(profile: Profile, rels: seq<Relationship>, seeds: seq<Entity>) returns (ss: seq<Step>)
    ensures Mirrors(rels, WalkOf(profile, rels, seeds).edges, ss)
    ensures forall s: Step :: s in ss <==> Allowed(profile, rels, s)
  {
    var ahead := StepsOneWay(rels, profile.types, true, 0);
    var back := StepsOneWay(rels, profile.types, false, 0);
    assert rels[0..] == rels;
    assert EdgesFrom(rels, profile.types, true, 0) == Forward(rels, profile.types);
    assert EdgesFrom(rels, profile.types, false, 0) == Backward(rels, profile.types);
    if profile.direction == Inbound {
      ss := back;
    } else if profile.direction == Outbound {
      ss := ahead;
    } else {
      ss := ahead + back;
      MirrorsJoined(rels, Forward(rels, profile.types), Backward(rels, profile.types), ahead, back);
      assert forall s: Step :: s in ss <==> s in ahead || s in back;
    }
  }

  lemma MirrorsJoined(rels: seq<Relationship>, a: seq<Edge>, b: seq<Edge>, ahead: seq<Step>, back: seq<Step>)
    requires Mirrors(rels, a, ahead) && Mirrors(rels, b, back)
    requires (forall i :: 0 <= i < |ahead| ==> ahead[i].forward) && forall i :: 0 <= i < |back| ==> !back[i].forward
    ensures Mirrors(rels, a + b, ahead + back)
  {}

  ghost function Place(ss: seq<Step>, s: Step): nat
    requires s in ss
    ensures Place(ss, s) < |ss| && ss[Place(ss, s)] == s
  {
    var i: nat :| i < |ss| && ss[i] == s;
    i
  }

  lemma SameOrder(rels: seq<Relationship>, edges: seq<Edge>, ss: seq<Step>, i: nat, j: nat)
    requires Mirrors(rels, edges, ss) && i < |ss| && j < |ss|
    ensures Precedes(edges, j, i) <==> Sooner(rels, ss[j], ss[i])
    ensures ss[i] == ss[j] <==> i == j
  {
    assert i < j ==> InTable(ss[i], ss[j]);
    assert j < i ==> InTable(ss[j], ss[i]);
  }

  /** The rank of an edge among those that leave its entity is the rank of its step. */
  lemma SameRank(profile: Profile, rels: seq<Relationship>, edges: seq<Edge>, ss: seq<Step>, i: nat)
    requires Mirrors(rels, edges, ss) && (forall s: Step :: s in ss <==> Allowed(profile, rels, s)) && i < |ss|
    ensures RowNumber(edges, i) == Rank(profile, rels, ss[i])
  {
    var earlier, before := Traversal.Earlier(edges, i), StepsBefore(profile, rels, ss[i]);
    var step := (j: nat) requires j < |ss| => ss[j];
    forall j | j in earlier ensures ss[j] in before { SameOrder(rels, edges, ss, i, j); }
    forall j, k | j in earlier && k in earlier && step(j) == step(k) ensures j == k {
      SameOrder(rels, edges, ss, j, k);
    }
    InjectionBound(earlier, step, before);
    var place := (s: Step) requires s in ss => Place(ss, s);
    forall s | s in before ensures s in ss && place(s) in earlier {
      SameOrder(rels, edges, ss, i, Place(ss, s));
    }
    InjectionBound(before, place, earlier);
  }

  // ----- The paths of the walk are the chains -----

  function ChainOf(ss: seq<Step>, p: Path): Chain
    requires forall i :: 0 <= i < |p.hops| ==> p.hops[i] < |ss|
  {
    Chain(p.seed, seq(|p.hops|, i requires 0 <= i < |p.hops| => ss[p.hops[i]]))
  }

  ghost function PathOf(ss: seq<Step>, c: Chain): Path
    requires forall i :: 0 <= i < |c.steps| ==> c.steps[i] in ss
  {
    Path(c.seed, seq(|c.steps|, i requires 0 <= i < |c.steps| => Place(ss, c.steps[i])))
  }

  ghost predicate Told(profile: Profile, rels: seq<Relationship>, seeds: seq<Entity>, w: Walk, ss: seq<Step>) {
    && w == WalkOf(profile, rels, seeds) && Mirrors(rels, w.edges, ss)
    && (forall s: Step :: s in ss <==> Allowed(profile, rels, s))
    && w.seeds == seeds && w.maxDepth == profile.maxDepth && w.fanout == profile.fanout && w.cap == profile.cap
  }

  lemma {:induction false} SameStops(profile: Profile, rels: seq<Relationship>, seeds: seq<Entity>, w: Walk,
                                     ss: seq<Step>, p: Path)
    requires Told(profile, rels, seeds, w, ss) && InRange(w, p)
    ensures InTables(rels, seeds, ChainOf(ss, p)) && Nodes(w, p) == Stops(rels, seeds, ChainOf(ss, p))
    ensures Ordinal(w, p) == Number(profile, rels, seeds, ChainOf(ss, p))
    decreases |p.hops|
  {
    if p.hops != [] {
      SameStops(profile, rels, seeds, w, ss, Prefix(p));
      SameLast(profile, rels, seeds, w, ss, p);
    }
  }

  lemma StopsOfLast(rels: seq<Relationship>, seeds: seq<Entity>, c: Chain)
    requires InTables(rels, seeds, c) && c.steps != []
    ensures InTables(rels, seeds, Shorter(c))
    ensures Stops(rels, seeds, c) == Stops(rels, seeds, Shorter(c)) + [To(rels, c.steps[|c.steps| - 1])]
  {
    ShorterInTables(rels, seeds, c);
    LastStopAdded(rels, seeds, c, Shorter(c), Stops(rels, seeds, c), Stops(rels, seeds, Shorter(c)));
  }

  lemma ShorterInTables(rels: seq<Relationship>, seeds: seq<Entity>, c: Chain)
    requires InTables(rels, seeds, c) && c.steps != []
    ensures InTables(rels, seeds, Shorter(c))
  {}

  lemma LastStopAdded(rels: seq<Relationship>, seeds: seq<Entity>, c: Chain, shorter: Chain, stops: seq<Entity>,
                      before: seq<Entity>)
    requires InTables(rels, seeds, c) && c.steps != [] && shorter == Shorter(c) && |before| == |c.steps|
    requires |stops| == |c.steps| + 1 && stops[0] == before[0]
    requires forall i :: 0 <= i < |c.steps| ==> stops[i + 1] == To(rels, c.steps[i])
    requires forall i :: 0 <= i < |shorter.steps| ==> before[i + 1] == To(rels, c.steps[i])
    ensures stops == before + [To(rels, c.steps[|c.steps| - 1])]
  {
    forall i | 0 < i < |before| ensures stops[i] == before[i] {
      assert stops[(i - 1) + 1] == To(rels, c.steps[i - 1]) == before[(i - 1) + 1];
    }
  }

  lemma SameLast(profile: Profile, rels: seq<Relationship>, seeds: seq<Entity>, w: Walk, ss: seq<Step>, p: Path)
    requires Told(profile, rels, seeds, w, ss) && InRange(w, p) && p.hops != []
    requires var before := ChainOf(ss, Prefix(p));
             && InTables(rels, seeds, before) && Nodes(w, Prefix(p)) == Stops(rels, seeds, before)
             && Ordinal(w, Prefix(p)) == Number(profile, rels, seeds, before)
    ensures InTables(rels, seeds, ChainOf(ss, p)) && Nodes(w, p) == Stops(rels, seeds, ChainOf(ss, p))
    ensures Ordinal(w, p) == Number(profile, rels, seeds, ChainOf(ss, p))
  {
    ChainShorter(ss, p);
    ChainInTables(rels, seeds, w, ss, p);
    SameLastStop(rels, seeds, w, ss, p);
    SameRank(profile, rels, w.edges, ss, LastHop(p));
    NumberOfLast(profile, rels, seeds, ChainOf(ss, p));
  }

  lemma ChainShorter(ss: seq<Step>, p: Path)
    requires p.hops != [] && forall i :: 0 <= i < |p.hops| ==> p.hops[i] < |ss|
    ensures var c := ChainOf(ss, p); ChainOf(ss, Prefix(p)) == Shorter(c) && c.steps[|c.steps| - 1] == ss[LastHop(p)]
  {}

  lemma ChainInTables(rels: seq<Relationship>, seeds: seq<Entity>, w: Walk, ss: seq<Step>, p: Path)
    requires Mirrors(rels, w.edges, ss) && w.seeds == seeds && InRange(w, p)
    ensures InTables(rels, seeds, ChainOf(ss, p))
  {}

  lemma SameLastStop(rels: seq<Relationship>, seeds: seq<Entity>, w: Walk, ss: seq<Step>, p: Path)
    requires Mirrors(rels, w.edges, ss) && w.seeds == seeds && InRange(w, p) && p.hops != []
    requires InTables(rels, seeds, ChainOf(ss, p)) && InTables(rels, seeds, Shorter(ChainOf(ss, p)))
    requires Nodes(w, Prefix(p)) == Stops(rels, seeds, Shorter(ChainOf(ss, p)))
    ensures Nodes(w, p) == Stops(rels, seeds, ChainOf(ss, p))
  {
    ChainShorter(ss, p);
    StopsOfLast(rels, seeds, ChainOf(ss, p));
  }

  lemma NumberOfLast(profile: Profile, rels: seq<Relationship>, seeds: seq<Entity>, c: Chain)
    requires InTables(rels, seeds, c) && c.steps != []
    ensures InTables(rels, seeds, Shorter(c))
    ensures Number(profile, rels, seeds, c)
            == |seeds| + Number(profile, rels, seeds, Shorter(c)) * profile.fanout
               + Rank(profile, rels, c.steps[|c.steps| - 1])
  {}

  lemma SameJoin(profile: Profile, rels: seq<Relationship>, seeds: seq<Entity>, w: Walk, ss: seq<Step>, i: nat,
                 at: Entity)
    requires Told(profile, rels, seeds, w, ss) && i < |w.edges|
    ensures w.edges[i].source == at && RowNumber(w.edges, i) <= w.fanout <==> Joins(profile, rels, ss[i], at)
  {
    SameRank(profile, rels, w.edges, ss, i);
    assert ss[i] in ss;
  }

  lemma SameBounds(profile: Profile, rels: seq<Relationship>, seeds: seq<Entity>, w: Walk, ss: seq<Step>, p: Path)
    requires Told(profile, rels, seeds, w, ss) && InRange(w, p)
    ensures Admissible(w, p) <==> Bounded(profile, rels, seeds, ChainOf(ss, p))
  {
    SameStops(profile, rels, seeds, w, ss, p);
    SameJoins(profile, rels, seeds, w, ss, p, Nodes(w, p));
  }

  lemma SameJoins(profile: Profile, rels: seq<Relationship>, seeds: seq<Entity>, w: Walk, ss: seq<Step>, p: Path,
                  nodes: seq<Entity>)
    requires Told(profile, rels, seeds, w, ss) && InRange(w, p) && |nodes| == |p.hops| + 1
    ensures (forall i :: 0 <= i < |p.hops| ==>
               w.edges[p.hops[i]].source == nodes[i] && RowNumber(w.edges, p.hops[i]) <= w.fanout)
            <==> (forall i :: 0 <= i < |p.hops| ==> Joins(profile, rels, ChainOf(ss, p).steps[i], nodes[i]))
  {
    forall i | 0 <= i < |p.hops|
      ensures w.edges[p.hops[i]].source == nodes[i] && RowNumber(w.edges, p.hops[i]) <= w.fanout <==>
                Joins(profile, rels, ChainOf(ss, p).steps[i], nodes[i])
    {
      SameJoin(profile, rels, seeds, w, ss, p.hops[i], nodes[i]);
    }
  }

  lemma FreshLast(before: seq<Entity>, e: Entity)
    requires before != []
    ensures AllFresh(before + [e]) <==> AllFresh(before) && !Contains(Visited(before), Needle(e))
  {
    var all := before + [e];
    assert forall n :: 0 < n < |before| ==> all[..n] == before[..n] && all[n] == before[n];
    assert all[..|before|] == before && all[|before|] == e;
  }

  lemma {:induction false} OpenEverywhere(w: Walk, p: Path)
    requires InRange(w, p)
    ensures Open(w, p) <==> AllFresh(Nodes(w, p))
    decreases |p.hops|
  {
    if p.hops != [] {
      OpenEverywhere(w, Prefix(p));
      FreshLast(Nodes(w, Prefix(p)), w.edges[LastHop(p)].target);
    }
  }

  lemma ChainBack(profile: Profile, rels: seq<Relationship>, seeds: seq<Entity>, w: Walk, ss: seq<Step>, c: Chain)
    requires Told(profile, rels, seeds, w, ss) && Bounded(profile, rels, seeds, c)
    ensures (forall i :: 0 <= i < |c.steps| ==> c.steps[i] in ss)
    ensures InRange(w, PathOf(ss, c)) && ChainOf(ss, PathOf(ss, c)) == c
  {
    forall i | 0 <= i < |c.steps| ensures c.steps[i] in ss {
      assert Joins(profile, rels, c.steps[i], Stops(rels, seeds, c)[i]);
    }
    PlacesBack(ss, c);
  }

  lemma PlacesBack(ss: seq<Step>, c: Chain)
    requires forall i :: 0 <= i < |c.steps| ==> c.steps[i] in ss
    ensures forall i :: 0 <= i < |c.steps| ==> PathOf(ss, c).hops[i] < |ss|
    ensures ChainOf(ss, PathOf(ss, c)) == c
  {}

  lemma ChainOfInjective(rels: seq<Relationship>, edges: seq<Edge>, ss: seq<Step>, p: Path, q: Path)
    requires Mirrors(rels, edges, ss)
    requires (forall i :: 0 <= i < |p.hops| ==> p.hops[i] < |ss|) && forall i :: 0 <= i < |q.hops| ==> q.hops[i] < |ss|
    requires ChainOf(ss, p) == ChainOf(ss, q)
    ensures p == q
  {
    var c, d := ChainOf(ss, p), ChainOf(ss, q);
    assert |p.hops| == |c.steps| == |q.hops|;
    forall i | 0 <= i < |p.hops| ensures p.hops[i] == q.hops[i] {
      assert c.steps[i] == d.steps[i];
      SameOrder(rels, edges, ss, p.hops[i], q.hops[i]);
    }
  }

  // ----- What is reported -----

  /** By depth, then by relationship, then by the entity's id; what is left open is in any order. */
  predicate InHitOrder(hits: seq<Hit>) {
    forall i, j :: 0 <= i < j < |hits| ==>
      || hits[i].depth < hits[j].depth
      || (hits[i].depth == hits[j].depth && StringLess(hits[i].relationship, hits[j].relationship))
      || (hits[i].depth == hits[j].depth && hits[i].relationship == hits[j].relationship
          && !StringLess(hits[j].entity.id, hits[i].entity.id))
  }

  lemma AscendingInOrder(hits: seq<Hit>)
    requires Ascending(HitBefore, hits)
    ensures InHitOrder(hits)
  {
    StringLessTotal();
    assert forall i, j :: 0 <= i < j < |hits| ==> !HitBefore(hits[j], hits[i]);
  }

  /** The hits are the ends of these chains, one each, no chain twice, in order. */
  ghost predicate Reports(profile: Profile, rels: seq<Relationship>, seeds: seq<Entity>, hits: seq<Hit>,
                          chains: seq<Chain>)
  {
    && |hits| == |chains| && Distinct(chains) && InHitOrder(hits)
    && forall i :: 0 <= i < |chains| ==>
         && Bounded(profile, rels, seeds, chains[i]) && chains[i].steps != []
         && hits[i] == HitAt(rels, seeds, chains[i])
  }

  predicate UnescapedEnds(rels: seq<Relationship>) {
    forall r :: r in rels ==> UnescapedEntity(r.source) && UnescapedEntity(r.target)
  }

  lemma EndsUnescaped(profile: Profile, rels: seq<Relationship>, seeds: seq<Entity>, w: Walk, ss: seq<Step>)
    requires Told(profile, rels, seeds, w, ss) && UnescapedEnds(rels)
    ensures UnescapedWalk(w)
  {
    forall i | 0 <= i < |w.edges| ensures UnescapedEntity(w.edges[i].target) { assert rels[ss[i].at] in rels; }
  }

  lemma PathsAreChains(profile: Profile, rels: seq<Relationship>, seeds: seq<Entity>, w: Walk, ss: seq<Step>,
                       hits: seq<Hit>, paths: seq<Path>)
    returns (chains: seq<Chain>)
    requires Told(profile, rels, seeds, w, ss) && Enumerates(w, hits, paths) && Ascending(HitBefore, hits)
    requires forall p :: p in paths <==> Admissible(w, p) && p.hops != [] && Open(w, p)
    ensures Reports(profile, rels, seeds, hits, chains)
    ensures forall c :: c in chains <==>
              Bounded(profile, rels, seeds, c) && c.steps != [] && Unheld(rels, seeds, c)
  {
    forall i | 0 <= i < |paths| ensures Admissible(w, paths[i]) && paths[i].hops != [] && Open(w, paths[i]) {
      assert paths[i] in paths;
    }
    chains := seq(|paths|, i requires 0 <= i < |paths| => ChainOf(ss, paths[i]));
    forall i | 0 <= i < |paths| { ChainTold(profile, rels, seeds, w, ss, paths[i]); }
    AscendingInOrder(hits);
    ChainsDistinct(rels, w.edges, ss, paths, chains);
    ChainsCover(profile, rels, seeds, w, ss, paths, chains);
  }

  lemma ChainsDistinct(rels: seq<Relationship>, edges: seq<Edge>, ss: seq<Step>, paths: seq<Path>, chains: seq<Chain>)
    requires Mirrors(rels, edges, ss) && Distinct(paths) && |chains| == |paths|
    requires forall i, j :: 0 <= i < |paths| && 0 <= j < |paths[i].hops| ==> paths[i].hops[j] < |ss|
    requires forall i :: 0 <= i < |paths| ==> chains[i] == ChainOf(ss, paths[i])
    ensures Distinct(chains)
  {
    forall i, j | 0 <= i < j < |paths| ensures chains[i] != chains[j] {
      if chains[i] == chains[j] { ChainOfInjective(rels, edges, ss, paths[i], paths[j]); }
    }
  }

  lemma ChainsCover(profile: Profile, rels: seq<Relationship>, seeds: seq<Entity>, w: Walk, ss: seq<Step>,
                    paths: seq<Path>, chains: seq<Chain>)
    requires Told(profile, rels, seeds, w, ss) && |chains| == |paths|
    requires forall i :: 0 <= i < |paths| ==> InRange(w, paths[i]) && chains[i] == ChainOf(ss, paths[i])
    requires forall p :: Admissible(w, p) && p.hops != [] && Open(w, p) ==> p in paths
    ensures forall c :: Bounded(profile, rels, seeds, c) && c.steps != [] && Unheld(rels, seeds, c) ==> c in chains
  {
    forall c | Bounded(profile, rels, seeds, c) && c.steps != [] && Unheld(rels, seeds, c) ensures c in chains {
      var p := ChainListed(profile, rels, seeds, w, ss, c);
      var i :| 0 <= i < |paths| && paths[i] == p;
      assert chains[i] == c;
    }
  }

  lemma ChainListed(profile: Profile, rels: seq<Relationship>, seeds: seq<Entity>, w: Walk, ss: seq<Step>, c: Chain)
    returns (p: Path)
    requires Told(profile, rels, seeds, w, ss)
    requires Bounded(profile, rels, seeds, c) && c.steps != [] && Unheld(rels, seeds, c)
    ensures Admissible(w, p) && p.hops != [] && Open(w, p) && ChainOf(ss, p) == c
  {
    ChainBack(profile, rels, seeds, w, ss, c);
    p := PathOf(ss, c);
    ChainTold(profile, rels, seeds, w, ss, p);
  }

  lemma ChainTold(profile: Profile, rels: seq<Relationship>, seeds: seq<Entity>, w: Walk, ss: seq<Step>, p: Path)
    requires Told(profile, rels, seeds, w, ss) && InRange(w, p) && p.hops != []
    ensures var c := ChainOf(ss, p);
            && InTables(rels, seeds, c) && c.steps != []
            && (Admissible(w, p) <==> Bounded(profile, rels, seeds, c)) && (Open(w, p) <==> Unheld(rels, seeds, c))
            && EndOf(w, p) == HitAt(rels, seeds, c)
  {
    SameStops(profile, rels, seeds, w, ss, p);
    SameBounds(profile, rels, seeds, w, ss, p);
    OpenEverywhere(w, p);
  }

  /**
   With an enabled profile, seeds and identifiers without escapes, the traversal reports exactly the
   chains of relationships from a seed that stay within the profile and that the visited test leaves
   alone: each once, by relationship, entity and depth of its last step, in order.
   */
  lemma TraversalListsChains(profile: Profile, rels: seq<Relationship>, seeds: seq<Entity>)
    returns (chains: seq<Chain>)
    requires profile.enabled && profile.skipSeen && seeds != [] && UnescapedEnds(rels)
    ensures var result := Traverse(profile, rels, seeds);
            && result.Ok? && Reports(profile, rels, seeds, result.value, chains)
            && |chains| <= (if |seeds| < profile.cap then profile.cap - |seeds| else 0)
    ensures forall c :: c in chains <==>
              Bounded(profile, rels, seeds, c) && c.steps != [] && Unheld(rels, seeds, c)
  {
    var w := WalkOf(profile, rels, seeds);
    var ss := StepsOfWalk(profile, rels, seeds);
    EndsUnescaped(profile, rels, seeds, w, ss);
    var paths := TraversalEnumeratesPaths(profile, rels, seeds);
    chains := PathsAreChains(profile, rels, seeds, w, ss, Traverse(profile, rels, seeds).value, paths);
  }

  /** A disabled profile or no seed gives no hit, whatever else is set; only then is the cycle handling looked at. */
  lemma TraversalRefuses(profile: Profile, rels: seq<Relationship>, seeds: seq<Entity>)
    ensures !profile.enabled || seeds == [] ==> Traverse(profile, rels, seeds) == Ok([])
    ensures profile.enabled && seeds != [] ==> (Traverse(profile, rels, seeds).Err? <==> !profile.skipSeen)
  {}

  /** At most `fanout` of the steps that are taken leave one entity. */
  lemma FewLeave(profile: Profile, rels: seq<Relationship>, seeds: seq<Entity>, taken: set<Step>, from: Entity)
    requires forall s: Step :: s in taken ==>
               Allowed(profile, rels, s) && From(rels, s) == from && Rank(profile, rels, s) <= profile.fanout
    ensures |taken| <= profile.fanout
  {
    var w := WalkOf(profile, rels, seeds);
    var ss := StepsOfWalk(profile, rels, seeds);
    var place := (s: Step) requires s in ss => Place(ss, s);
    forall s | s in taken ensures place(s) in KeptFrom(w.edges, from, profile.fanout) {
      SameRank(profile, rels, w.edges, ss, Place(ss, s));
    }
    InjectionBound(taken, place, KeptFrom(w.edges, from, profile.fanout));
    FanoutBound(w.edges, from, profile.fanout);
  }
}
