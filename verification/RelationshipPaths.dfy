/** Two independent checks of a relationship path: the retrieval service's and the evidence assembler's. */
module RelationshipPaths {
  import opened Ordering
  import opened Candidates

  datatype Traversal = Traversal(
    maxDepth: nat, fanout: nat, limit: nat, kinds: set<string>, directions: set<Direction>)

  // ----- The path itself, without either checker -----

  function From(e: Edge): string { if e.Edge? then e.source else "" }

  function To(e: Edge): string { if e.Edge? then e.target else "" }

  /** The entities visited after the first n edges. */
  function StopsTo(edges: seq<Edge>, n: nat): (stops: seq<string>)
    requires edges != [] && n <= |edges|
    ensures |stops| == n + 1 && stops[0] == From(edges[0])
    ensures forall i :: 0 <= i < n ==> stops[i + 1] == To(edges[i])
  {
    if n == 0 then [From(edges[0])] else StopsTo(edges, n - 1) + [To(edges[n - 1])]
  }

  /** Well-formed, numbered from one, contiguous, cited, and visiting no entity twice. */
  ghost predicate SimplePath(edges: seq<Edge>) {
    && edges != []
    && (forall i :: 0 <= i < |edges| ==> EdgeInPlace(edges, i))
    && Distinct(StopsTo(edges, |edges|))
  }

  predicate EdgeInPlace(edges: seq<Edge>, i: nat)
    requires i < |edges|
  {
    && edges[i].Edge? && edges[i].depth == i + 1 && edges[i].citations != []
    && (i > 0 ==> From(edges[i]) == To(edges[i - 1]))
  }

  /** Once a stop repeats, no longer path through it is simple. */
  lemma RevisitNotDistinct(edges: seq<Edge>, i: nat)
    requires i < |edges| && To(edges[i]) in StopsTo(edges, i)
    ensures !Distinct(StopsTo(edges, |edges|))
  {
    var all, before := StopsTo(edges, |edges|), StopsTo(edges, i);
    var j :| 0 <= j <= i && before[j] == To(edges[i]);
    assert all[j] == before[j] by {
      if j > 0 { assert all[(j - 1) + 1] == To(edges[j - 1]) && before[(j - 1) + 1] == To(edges[j - 1]); }
    }
    assert all[i + 1] == To(edges[i]);
  }

  predicate AreEdges(es: seq<Edge>) { forall e :: e in es ==> e.Edge? }

  /** The path comes back neither to its start nor to an entity it leads to. */
  predicate NoneTwice(es: seq<Edge>)
    requires AreEdges(es)
  {
    && (forall i :: 0 <= i < |es| ==> es[0].source != es[i].target)
    && forall i, j :: 0 <= i < j < |es| ==> es[i].target != es[j].target
  }

  lemma StopAt(es: seq<Edge>, i: nat)
    requires AreEdges(es) && es != [] && i <= |es|
    ensures StopsTo(es, |es|)[i] == if i == 0 then es[0].source else es[i - 1].target
  {
    if i > 0 { assert StopsTo(es, |es|)[(i - 1) + 1] == To(es[i - 1]); }
  }

  lemma NoneTwiceIff(es: seq<Edge>)
    requires AreEdges(es) && es != []
    ensures Distinct(StopsTo(es, |es|)) <==> NoneTwice(es)
  {
    var stops := StopsTo(es, |es|);
    forall i: nat | i <= |es| ensures stops[i] == if i == 0 then es[0].source else es[i - 1].target { StopAt(es, i); }
    TwiceIff(es, stops);
  }

  lemma TwiceIff(es: seq<Edge>, stops: seq<string>)
    requires AreEdges(es) && es != [] && |stops| == |es| + 1
    requires forall i: nat :: i <= |es| ==> stops[i] == if i == 0 then es[0].source else es[i - 1].target
    ensures Distinct(stops) <==> NoneTwice(es)
  {
    if Distinct(stops) {
      forall i | 0 <= i < |es| ensures es[0].source != es[i].target { assert stops[0] != stops[i + 1]; }
      forall i, j | 0 <= i < j < |es| ensures es[i].target != es[j].target { assert stops[i + 1] != stops[j + 1]; }
    } else {
      var i, j :| 0 <= i < j < |stops| && stops[i] == stops[j];
      if i > 0 {
        assert es[i - 1].target == es[j - 1].target;
      } else {
        assert es[0].source == es[j - 1].target;
      }
    }
  }

  // ----- Evidence check -----

  predicate Subset(values: seq<string>, allowed: set<string>) { forall v :: v in values ==> v in allowed }

  predicate CitationsAllowed(e: Edge, allowed: set<string>) { e.Edge? && Subset(e.citations, allowed) }

  /**
   The evidence check read as a property: a simple path of at most three edges to the chunk, all citations
   allowed.
   */
  ghost predicate EvidenceAccepts(path: Option<seq<Edge>>, chunk: string, allowed: set<string>) {
    && path.Some? && path.value != []
    && (forall i :: 0 <= i < |path.value| ==> EdgeFits(path.value, i, allowed))
    && Distinct(StopsTo(path.value, |path.value|))
    && To(path.value[|path.value| - 1]) == chunk
  }

  predicate EdgeFits(edges: seq<Edge>, i: nat, allowed: set<string>)
    requires i < |edges|
  {
    EdgeInPlace(edges, i) && i < 3 && edges[i].strict && Subset(edges[i].citations, allowed)
  }

  /** `_relationship_path`: the edge contract, then an incremental visited set. */
  method EvidencePath(path: Option<seq<Edge>>, chunk: string, allowed: set<string>) returns (accepted: bool)
    ensures accepted <==> EvidenceAccepts(path, chunk, allowed)
  {
    if path.None? || path.value == [] { return false; }
    var edges := path.value;
    var previous: Option<string> := None;
    var visited: set<string> := {};
    for i := 0 to |edges|
      invariant forall j :: 0 <= j < i ==> EdgeFits(edges, j, allowed)
      invariant previous == if i == 0 then None else Some(To(edges[i - 1]))
      invariant visited == if i == 0 then {} else set s | s in StopsTo(edges, i)
      invariant Distinct(StopsTo(edges, i))
    {
      var edge := edges[i];
      if edge.Malformed? { assert !EdgeFits(edges, i, allowed); return false; }
      if !edge.strict || edge.depth < 1 || edge.depth > 3 || edge.citations == [] {
        assert !EdgeFits(edges, i, allowed);
        return false;
      }
      if edge.depth != i + 1 || (previous.Some? && edge.source != previous.value) || !Subset(edge.citations, allowed) {
        assert !EdgeFits(edges, i, allowed);
        return false;
      }
      assert EdgeFits(edges, i, allowed);
      assert StopsTo(edges, i)[0] in StopsTo(edges, i);
      if visited == {} { visited := {edge.source}; }
      assert visited == set s | s in StopsTo(edges, i);
      if edge.target in visited {
        RevisitNotDistinct(edges, i);
        return false;
      }
      visited := visited + {edge.target};
      previous := Some(edge.target);
    }
    return previous == Some(chunk);
  }

  // ----- Service check -----

  datatype Refusal =
    | WrongRetrievalPath | NoPath | IneligibleEndpoint | NotAMapping | NotFromSeed | TooDeep | DisabledKind
    | DisabledDirection | Uncited | NotContiguous | TooWide | Cyclic | WrongEndpoint

  predicate ServiceEdge(edges: seq<Edge>, i: nat, t: Traversal)
    requires i < |edges|
  {
    && EdgeInPlace(edges, i) && i < t.maxDepth && edges[i].eligible
    && edges[i].kind in t.kinds && edges[i].direction in t.directions
  }

  predicate AllServe(edges: seq<Edge>, t: Traversal) {
    forall i :: 0 <= i < |edges| ==> ServiceEdge(edges, i, t)
  }

  /** What the service asks of one path besides the fanout it shares with others. */
  ghost predicate ServiceAccepts(c: Candidate, t: Traversal, seeds: set<string>) {
    && c.retrievalPath == "relationship" && c.data.endpointEligible
    && c.data.edges.Some? && c.data.edges.value != [] && AllServe(c.data.edges.value, t)
    && Distinct(StopsTo(c.data.edges.value, |c.data.edges.value|))
    && From(c.data.edges.value[0]) in seeds
    && To(c.data.edges.value[|c.data.edges.value| - 1]) == c.chunk
  }

  /** Entities reached from one entity at one depth by the paths read so far. */
  type Fanout = map<(string, int), set<string>>

  function Reached(fanout: Fanout, source: string, depth: int): set<string> {
    if (source, depth) in fanout then fanout[(source, depth)] else {}
  }

  function WithEdge(fanout: Fanout, e: Edge): Fanout {
    if e.Malformed? then fanout
    else fanout[(e.source, e.depth) := Reached(fanout, e.source, e.depth) + {e.target}]
  }

  function WithEdges(fanout: Fanout, edges: seq<Edge>, n: nat): Fanout
    requires n <= |edges|
  {
    if n == 0 then fanout else WithEdge(WithEdges(fanout, edges, n - 1), edges[n - 1])
  }

  ghost predicate Narrow(fanout: Fanout, width: nat) {
    forall key :: key in fanout ==> |fanout[key]| <= width
  }

  /** The first n edges lead from some entity at some depth to more entities than allowed, those before included. */
  ghost predicate OverflowsAt(before: Fanout, edges: seq<Edge>, n: nat, width: nat) {
    n <= |edges| && exists source, depth :: Overflow(before, edges, n, width, source, depth)
  }

  ghost predicate Overflow(before: Fanout, edges: seq<Edge>, n: nat, width: nat, source: string, depth: int) {
    |Reached(before, source, depth) + PathTargets(edges, n, source, depth)| > width
  }

  /** The fanout after a path holds what it held and what the path's edges lead to. */
  ghost predicate Collects(before: Fanout, edges: seq<Edge>, after: Fanout) {
    forall source, depth ::
      Reached(after, source, depth) == Reached(before, source, depth) + PathTargets(edges, |edges|, source, depth)
  }

  lemma WithEdgesCollects(before: Fanout, edges: seq<Edge>)
    ensures Collects(before, edges, WithEdges(before, edges, |edges|))
  {
    forall source, depth { EdgesCollected(before, edges, |edges|, source, depth); }
  }

  // ----- What the fanout collects -----

  /** Entities the first n edges of a path lead to from an entity at a depth. */
  function PathTargets(edges: seq<Edge>, n: nat, source: string, depth: int): set<string> {
    set i | 0 <= i < n && i < |edges| && edges[i].Edge? && edges[i].source == source && edges[i].depth == depth
          :: edges[i].target
  }

  /** Entities that edges of the first n candidates lead to from an entity at a depth. */
  function TargetsAt(cs: seq<Candidate>, n: nat, source: string, depth: int): set<string>
    requires n <= |cs|
  {
    set i, j | 0 <= i < n && 0 <= j < |EdgesOf(cs[i])| && LeavesAt(EdgesOf(cs[i])[j], source, depth)
             :: EdgesOf(cs[i])[j].target
  }

  predicate LeavesAt(e: Edge, source: string, depth: int) { e.Edge? && e.source == source && e.depth == depth }

  lemma {:induction false} EdgesCollected(before: Fanout, edges: seq<Edge>, n: nat, source: string, depth: int)
    requires n <= |edges|
    ensures Reached(WithEdges(before, edges, n), source, depth)
            == Reached(before, source, depth) + PathTargets(edges, n, source, depth)
  {
    if n > 0 {
      EdgesCollected(before, edges, n - 1, source, depth);
      var e := edges[n - 1];
      assert PathTargets(edges, n, source, depth)
             == PathTargets(edges, n - 1, source, depth) + if LeavesAt(e, source, depth) then {e.target} else {};
    }
  }

  lemma PathIsTargets(cs: seq<Candidate>, n: nat, source: string, depth: int)
    requires 0 < n <= |cs|
    ensures TargetsAt(cs, n, source, depth)
            == TargetsAt(cs, n - 1, source, depth)
               + PathTargets(EdgesOf(cs[n - 1]), |EdgesOf(cs[n - 1])|, source, depth)
  {
    var edges := EdgesOf(cs[n - 1]);
    forall x | x in PathTargets(edges, |edges|, source, depth) ensures x in TargetsAt(cs, n, source, depth) {
      var j :| 0 <= j < |edges| && LeavesAt(edges[j], source, depth) && edges[j].target == x;
      assert LeavesAt(EdgesOf(cs[n - 1])[j], source, depth);
    }
  }

  /** The shared fanout holds, for every entity and depth, what the edges read lead to. */
  lemma {:induction false} FanoutCollected(cs: seq<Candidate>, n: nat, source: string, depth: int)
    requires n <= |cs|
    ensures Reached(AllEdges(cs, n), source, depth) == TargetsAt(cs, n, source, depth)
  {
    if n > 0 {
      var edges := EdgesOf(cs[n - 1]);
      FanoutCollected(cs, n - 1, source, depth);
      EdgesCollected(AllEdges(cs, n - 1), edges, |edges|, source, depth);
      PathIsTargets(cs, n, source, depth);
    }
  }

  ghost predicate FanoutKept(cs: seq<Candidate>, n: nat, width: nat)
    requires n <= |cs|
  {
    forall source, depth :: |TargetsAt(cs, n, source, depth)| <= width
  }

  /** The first edges of the candidate after those read take some entity over the limit. */
  ghost predicate FanoutBroken(cs: seq<Candidate>, read: nat, width: nat) {
    read < |cs| && exists n: nat, source, depth :: BrokenAt(cs, read, width, n, source, depth)
  }

  ghost predicate BrokenAt(cs: seq<Candidate>, read: nat, width: nat, n: nat, source: string, depth: int)
    requires read < |cs|
  {
    && n <= |EdgesOf(cs[read])|
    && |TargetsAt(cs, read, source, depth) + PathTargets(EdgesOf(cs[read]), n, source, depth)| > width
  }

  lemma OverflowSeen(before: Fanout, edges: seq<Edge>, n: nat, width: nat, source: string, depth: int)
    requires n <= |edges| && |Reached(WithEdges(before, edges, n), source, depth)| > width
    ensures OverflowsAt(before, edges, n, width)
  {
    EdgesCollected(before, edges, n, source, depth);
    assert Overflow(before, edges, n, width, source, depth);
  }

  lemma NarrowIsKept(cs: seq<Candidate>, n: nat, width: nat)
    requires n <= |cs| && Narrow(AllEdges(cs, n), width)
    ensures FanoutKept(cs, n, width)
  {
    forall source, depth ensures |TargetsAt(cs, n, source, depth)| <= width {
      FanoutCollected(cs, n, source, depth);
    }
  }

  lemma OverflowIsBroken(cs: seq<Candidate>, read: nat, width: nat)
    requires read < |cs| && exists n :: OverflowsAt(AllEdges(cs, read), EdgesOf(cs[read]), n, width)
    ensures FanoutBroken(cs, read, width)
  {
    var before, edges := AllEdges(cs, read), EdgesOf(cs[read]);
    var n: nat :| OverflowsAt(before, edges, n, width);
    var source, depth :| Overflow(before, edges, n, width, source, depth);
    FanoutCollected(cs, read, source, depth);
    assert BrokenAt(cs, read, width, n, source, depth);
  }

  /** What is wrong with an edge that is refused, all before it being in order. */
  predicate EdgeRefused(edges: seq<Edge>, i: nat, t: Traversal, refusal: Refusal) {
    && i < |edges| && (forall j :: 0 <= j < i ==> ServiceEdge(edges, j, t))
    && match edges[i]
       case Malformed => refusal == NotAMapping
       case Edge(source, _, kind, direction, depth, citations, eligible, _) =>
         match refusal
         case TooDeep => i >= t.maxDepth || depth != i + 1
         case DisabledKind => kind !in t.kinds
         case DisabledDirection => direction !in t.directions
         case Uncited => citations == [] || !eligible
         case NotContiguous => i > 0 && source != To(edges[i - 1])
         case _ => false
  }

  method RefusalOf(edges: seq<Edge>, i: nat, t: Traversal, previous: Option<string>) returns (refusal: Option<Refusal>)
    requires i < |edges| && forall j :: 0 <= j < i ==> ServiceEdge(edges, j, t)
    requires previous == if i == 0 then None else Some(To(edges[i - 1]))
    ensures refusal.None? <==> ServiceEdge(edges, i, t)
    ensures refusal.Some? ==> refusal.value != TooWide && EdgeRefused(edges, i, t, refusal.value)
  {
    var e := edges[i];
    if e.Malformed? { return Some(NotAMapping); }
    if i + 1 > t.maxDepth || e.depth != i + 1 { return Some(TooDeep); }
    if e.kind !in t.kinds { return Some(DisabledKind); }
    if e.direction !in t.directions { return Some(DisabledDirection); }
    if e.citations == [] || !e.eligible { return Some(Uncited); }
    if previous.Some? && e.source != previous.value { return Some(NotContiguous); }
    return None;
  }

  lemma NarrowNext(fanout: Fanout, e: Edge, width: nat)
    requires Narrow(fanout, width) && e.Edge?
    ensures (e.source, e.depth) in WithEdge(fanout, e)
    ensures |WithEdge(fanout, e)[(e.source, e.depth)]| <= width ==> Narrow(WithEdge(fanout, e), width)
  {}

  method CheckEdges(edges: seq<Edge>, t: Traversal, before: Fanout) returns (refusal: Option<Refusal>, fanout: Fanout)
    requires edges != [] && Narrow(before, t.fanout)
    ensures refusal.None? ==>
              AllServe(edges, t) && Narrow(fanout, t.fanout) && fanout == WithEdges(before, edges, |edges|)
    ensures refusal.Some? && refusal.value != TooWide ==> exists i :: EdgeRefused(edges, i, t, refusal.value)
    ensures refusal == Some(TooWide) ==> exists n :: OverflowsAt(before, edges, n, t.fanout)
  {
    fanout := before;
    var previous: Option<string> := None;
    for i := 0 to |edges|
      invariant forall j :: 0 <= j < i ==> ServiceEdge(edges, j, t)
      invariant previous == if i == 0 then None else Some(To(edges[i - 1]))
      invariant fanout == WithEdges(before, edges, i) && Narrow(fanout, t.fanout)
    {
      var e := edges[i];
      refusal := RefusalOf(edges, i, t, previous);
      if refusal.Some? { return; }
      assert ServiceEdge(edges, i, t);
      previous := Some(e.target);
      NarrowNext(fanout, e, t.fanout);
      fanout := WithEdge(fanout, e);
      if |fanout[(e.source, i + 1)]| > t.fanout {
        OverflowSeen(before, edges, i + 1, t.fanout, e.source, i + 1);
        return Some(TooWide), fanout;
      }
    }
    return None, fanout;
  }

  /** What is wrong with a candidate that is refused for another reason than the fanout. */
  predicate Faulty(c: Candidate, t: Traversal, seeds: set<string>, refusal: Refusal) {
    var edges := EdgesOf(c);
    match refusal
    case WrongRetrievalPath => c.retrievalPath != "relationship"
    case NoPath => edges == []
    case IneligibleEndpoint => !c.data.endpointEligible
    case NotFromSeed => edges != [] && edges[0].Edge? && edges[0].source !in seeds
    case Cyclic => edges != [] && AreEdges(edges) && !NoneTwice(edges)
    case WrongEndpoint => edges != [] && AreEdges(edges) && edges[|edges| - 1].target != c.chunk
    case TooWide => false
    case _ => exists i: nat :: i < |edges| && EdgeRefused(edges, i, t, refusal)
  }

  /** Nothing is wrong with the candidate: told without the order in which things are looked at. */
  predicate Serves(c: Candidate, t: Traversal, seeds: set<string>) {
    var edges := EdgesOf(c);
    && c.retrievalPath == "relationship" && c.data.endpointEligible && 1 <= |edges| <= t.maxDepth && AreEdges(edges)
    && (forall i :: 0 <= i < |edges| ==> HopServes(edges, i, t))
    && edges[0].source in seeds && edges[|edges| - 1].target == c.chunk && NoneTwice(edges)
  }

  /** Numbered by its place, allowed, cited, and going on from the edge before. */
  predicate HopServes(edges: seq<Edge>, i: nat, t: Traversal)
    requires i < |edges| && AreEdges(edges)
  {
    && edges[i].depth == i + 1 && edges[i].kind in t.kinds && edges[i].direction in t.directions
    && edges[i].eligible && edges[i].citations != [] && (i > 0 ==> edges[i].source == edges[i - 1].target)
  }

  lemma ServedEdges(edges: seq<Edge>, t: Traversal)
    ensures AllServe(edges, t) <==>
            |edges| <= t.maxDepth && AreEdges(edges) && forall i :: 0 <= i < |edges| ==> HopServes(edges, i, t)
  {
    if AllServe(edges, t) {
      forall e | e in edges ensures e.Edge? {
        var i :| 0 <= i < |edges| && edges[i] == e;
        assert ServiceEdge(edges, i, t);
      }
      forall i | 0 <= i < |edges| ensures HopServes(edges, i, t) { assert ServiceEdge(edges, i, t); }
      assert edges != [] ==> ServiceEdge(edges, |edges| - 1, t);
    } else if |edges| <= t.maxDepth && AreEdges(edges) && forall i :: 0 <= i < |edges| ==> HopServes(edges, i, t) {
      forall i | 0 <= i < |edges| ensures ServiceEdge(edges, i, t) { assert HopServes(edges, i, t); }
    }
  }

  lemma AcceptsIffServes(c: Candidate, t: Traversal, seeds: set<string>)
    ensures ServiceAccepts(c, t, seeds) <==> Serves(c, t, seeds)
  {
    ServedEdges(EdgesOf(c), t);
    if EdgesOf(c) != [] && AreEdges(EdgesOf(c)) { NoneTwiceIff(EdgesOf(c)); }
  }

  lemma RefusedNotServed(edges: seq<Edge>, i: nat, t: Traversal, refusal: Refusal)
    requires EdgeRefused(edges, i, t, refusal) && |edges| <= t.maxDepth && AreEdges(edges)
    ensures !HopServes(edges, i, t)
  {
    assert edges[i] in edges;
  }

  /** A candidate with a fault of its own is not one the service accepts. */
  lemma FaultyNotServed(c: Candidate, t: Traversal, seeds: set<string>, refusal: Refusal)
    requires Faulty(c, t, seeds, refusal)
    ensures !Serves(c, t, seeds)
  {
    var edges := EdgesOf(c);
    if Serves(c, t, seeds) && exists i: nat :: i < |edges| && EdgeRefused(edges, i, t, refusal) {
      var i: nat :| i < |edges| && EdgeRefused(edges, i, t, refusal);
      RefusedNotServed(edges, i, t, refusal);
    }
  }

  /** A refusal is right: the path itself is at fault, or its edges overflow the fanout shared so far. */
  ghost predicate PathRefused(c: Candidate, t: Traversal, seeds: set<string>, before: Fanout, refusal: Refusal) {
    if refusal == TooWide then exists n :: OverflowsAt(before, EdgesOf(c), n, t.fanout)
    else Faulty(c, t, seeds, refusal) && !Serves(c, t, seeds)
  }

  method CheckPath(c: Candidate, t: Traversal, seeds: set<string>, before: Fanout)
    returns (refusal: Option<Refusal>, fanout: Fanout)
    requires Narrow(before, t.fanout)
    ensures refusal.None? ==> ServiceAccepts(c, t, seeds) && Serves(c, t, seeds) && Narrow(fanout, t.fanout)
                              && fanout == WithEdges(before, EdgesOf(c), |EdgesOf(c)|)
    ensures refusal.None? ==> Collects(before, EdgesOf(c), fanout)
    ensures refusal.Some? ==> PathRefused(c, t, seeds, before, refusal.value)
  {
    fanout := before;
    refusal := RefusalBefore(c, seeds);
    if refusal.None? {
      refusal, fanout := CheckEdges(EdgesOf(c), t, before);
      if refusal.None? { refusal := RefusalAfter(c, t); }
    }
    AcceptsIffServes(c, t, seeds);
    if refusal.None? {
      WithEdgesCollects(before, EdgesOf(c));
    } else if refusal.value != TooWide {
      FaultyNotServed(c, t, seeds, refusal.value);
    }
  }

  /** What is looked at before the edges one by one. */
  method RefusalBefore(c: Candidate, seeds: set<string>) returns (refusal: Option<Refusal>)
    ensures refusal.None? <==> c.retrievalPath == "relationship" && c.data.endpointEligible && EdgesOf(c) != []
                               && EdgesOf(c)[0].Edge? && EdgesOf(c)[0].source in seeds
    ensures refusal.Some? ==> refusal.value != TooWide && forall t :: Faulty(c, t, seeds, refusal.value)
  {
    if c.retrievalPath != "relationship" { return Some(WrongRetrievalPath); }
    if c.data.edges.None? || c.data.edges.value == [] { return Some(NoPath); }
    if !c.data.endpointEligible { return Some(IneligibleEndpoint); }
    var first := c.data.edges.value[0];
    if first.Malformed? {
      forall t ensures Faulty(c, t, seeds, NotAMapping) { MalformedFirst(c, t, seeds); }
      return Some(NotAMapping);
    }
    if first.source !in seeds { return Some(NotFromSeed); }
    return None;
  }

  lemma MalformedFirst(c: Candidate, t: Traversal, seeds: set<string>)
    requires EdgesOf(c) != [] && EdgesOf(c)[0].Malformed?
    ensures Faulty(c, t, seeds, NotAMapping)
  {
    assert EdgeRefused(EdgesOf(c), 0, t, NotAMapping);
  }

  /** What is looked at when every edge is in order. */
  method RefusalAfter(c: Candidate, t: Traversal) returns (refusal: Option<Refusal>)
    requires EdgesOf(c) != [] && AllServe(EdgesOf(c), t)
    ensures refusal.None? <==>
              Distinct(StopsTo(EdgesOf(c), |EdgesOf(c)|)) && To(EdgesOf(c)[|EdgesOf(c)| - 1]) == c.chunk
    ensures refusal.Some? ==> refusal.value != TooWide && forall seeds :: Faulty(c, t, seeds, refusal.value)
  {
    var edges := EdgesOf(c);
    var stops := StopsTo(edges, |edges|);
    ServedEdges(edges, t);
    NoneTwiceIff(edges);
    SameSizeIffDistinct(stops);
    if |stops| != |set s | s in stops| { return Some(Cyclic); }
    if c.chunk != To(edges[|edges| - 1]) { return Some(WrongEndpoint); }
    return None;
  }

  function EdgesOf(c: Candidate): seq<Edge> {
    if c.data.edges.Some? then c.data.edges.value else []
  }

  lemma {:induction false} ElementsBound<T>(s: seq<T>)
    ensures |set x | x in s| <= |s|
  {
    if s != [] {
      var last := |s| - 1;
      ElementsBound(s[..last]);
      assert s == s[..last] + [s[last]];
      assert (set x | x in s) == (set x | x in s[..last]) + {s[last]};
    }
  }

  lemma {:induction false} SameSizeIsDistinct<T>(s: seq<T>)
    requires |set x | x in s| == |s|
    ensures Distinct(s)
  {
    if s != [] {
      var last := |s| - 1;
      ElementsBound(s[..last]);
      assert s == s[..last] + [s[last]];
      assert (set x | x in s) == (set x | x in s[..last]) + {s[last]};
      SameSizeIsDistinct(s[..last]);
      assert s[last] !in (set x | x in s[..last]);
      assert forall i :: 0 <= i < last ==> s[i] == s[..last][i] && s[i] in s[..last];
    }
  }

  /** The set-size test finds every repetition. */
  lemma SameSizeIffDistinct<T>(s: seq<T>)
    ensures |set x | x in s| == |s| <==> Distinct(s)
  {
    if |set x | x in s| == |s| { SameSizeIsDistinct(s); }
    if Distinct(s) { DistinctCardinality(s); }
  }

  /** What the evidence contract asks of an edge beyond what the service does. */
  predicate Releasable(e: Edge, allowed: set<string>) { e.Edge? && e.strict && CitationsAllowed(e, allowed) }

  /**
   A path the service accepts is accepted by the evidence check exactly when its edges are typed
   strictly and its citations allowed, the two cycle tests agreeing on every path.
   */
  lemma ServicePathsPassEvidence(c: Candidate, t: Traversal, seeds: set<string>, allowed: set<string>)
    requires ServiceAccepts(c, t, seeds) && t.maxDepth <= 3
    ensures EvidenceAccepts(c.data.edges, c.chunk, allowed) <==>
            forall i :: 0 <= i < |EdgesOf(c)| ==> Releasable(EdgesOf(c)[i], allowed)
  {
    var edges := EdgesOf(c);
    forall i | 0 <= i < |edges| ensures EdgeFits(edges, i, allowed) <==> Releasable(edges[i], allowed) {
      assert ServiceEdge(edges, i, t);
    }
  }

  const LOOSE := Edge("a", "b", "k", Outbound, 1, ["c"], true, false)

  const LOOSE_CANDIDATE :=
    Candidate("b", "relationship", 1, None, None, None, None, false, PathData(Some([LOOSE]), true))

  /** An edge whose depth is written 1.0: the service lets the path through, the evidence contract never does. */
  lemma LooseEdgeRefused(allowed: set<string>)
    ensures ServiceAccepts(LOOSE_CANDIDATE, Traversal(1, 1, 1, {"k"}, {Outbound}), {"a"})
    ensures !EvidenceAccepts(LOOSE_CANDIDATE.data.edges, "b", allowed)
  {
    var edges, t := [LOOSE], Traversal(1, 1, 1, {"k"}, {Outbound});
    assert ServiceEdge(edges, 0, t);
    assert StopsTo(edges, 0) == ["a"] && StopsTo(edges, 1) == ["a", "b"];
    assert !EdgeFits(edges, 0, allowed);
  }

  // ----- The service's loop over candidates -----

  /** The fanout of the edges of the first n candidates. */
  function AllEdges(cs: seq<Candidate>, n: nat): Fanout
    requires n <= |cs|
  {
    if n == 0 then map[] else WithEdges(AllEdges(cs, n - 1), EdgesOf(cs[n - 1]), |EdgesOf(cs[n - 1])|)
  }

  function Seen(rs: seq<Candidate>): set<string> {
    set i | 0 <= i < |rs| :: rs[i].chunk
  }

  function AddFirst(rs: seq<Candidate>, c: Candidate): seq<Candidate> {
    if c.chunk in Seen(rs) then rs else rs + [c.(rank := |rs| + 1)]
  }

  function FirstByChunk(cs: seq<Candidate>, n: nat): seq<Candidate>
    requires n <= |cs|
  {
    if n == 0 then [] else AddFirst(FirstByChunk(cs, n - 1), cs[n - 1])
  }

  function ChunksRead(cs: seq<Candidate>, n: nat): set<string>
    requires n <= |cs|
  {
    set i | 0 <= i < n :: cs[i].chunk
  }

  /** The candidate at j is the first one read for its chunk. */
  ghost predicate FirstFor(cs: seq<Candidate>, j: nat) {
    j < |cs| && forall k :: 0 <= k < j ==> cs[k].chunk != cs[j].chunk
  }

  ghost predicate ListsFirsts(cs: seq<Candidate>, n: nat, rs: seq<Candidate>)
    requires n <= |cs|
  {
    && (forall i :: 0 <= i < |rs| ==> rs[i].rank == i + 1)
    && (forall i, j :: 0 <= i < j < |rs| ==> rs[i].chunk != rs[j].chunk)
    && Seen(rs) == ChunksRead(cs, n)
    && (forall i :: 0 <= i < |rs| ==> exists j: nat :: j < n && FirstFor(cs, j) && rs[i] == cs[j].(rank := i + 1))
  }

  lemma SeenOneMore(rs: seq<Candidate>, r: Candidate)
    ensures Seen(rs + [r]) == Seen(rs) + {r.chunk}
  {
    var more := rs + [r];
    forall x ensures x in Seen(more) <==> x in Seen(rs) + {r.chunk} {
      if x in Seen(rs) {
        var i :| 0 <= i < |rs| && rs[i].chunk == x;
        assert more[i].chunk == x;
      }
      assert more[|rs|].chunk == r.chunk;
    }
  }

  lemma ChunksReadOneMore(cs: seq<Candidate>, n: nat)
    requires 0 < n <= |cs|
    ensures ChunksRead(cs, n) == ChunksRead(cs, n - 1) + {cs[n - 1].chunk}
  {}

  lemma ListsPassedOver(cs: seq<Candidate>, n: nat, rs: seq<Candidate>)
    requires 0 < n <= |cs| && ListsFirsts(cs, n - 1, rs) && cs[n - 1].chunk in Seen(rs)
    ensures ListsFirsts(cs, n, rs)
  {
    ChunksReadOneMore(cs, n);
    assert Seen(rs) == ChunksRead(cs, n);
  }

  lemma ListsAdded(cs: seq<Candidate>, n: nat, before: seq<Candidate>, after: seq<Candidate>)
    requires 0 < n <= |cs| && ListsFirsts(cs, n - 1, before) && cs[n - 1].chunk !in Seen(before)
    requires after == before + [cs[n - 1].(rank := |before| + 1)]
    ensures ListsFirsts(cs, n, after)
  {
    var c := cs[n - 1];
    ChunksReadOneMore(cs, n);
    SeenOneMore(before, c.(rank := |before| + 1));
    assert Seen(after) == ChunksRead(cs, n);
    assert FirstFor(cs, n - 1) by {
      forall k | 0 <= k < n - 1 ensures cs[k].chunk != c.chunk { assert cs[k].chunk in ChunksRead(cs, n - 1); }
    }
    forall i | 0 <= i < |before| ensures after[i].chunk != c.chunk && after[i] == before[i] {
      assert before[i].chunk in Seen(before);
    }
    forall i | 0 <= i < |after| ensures exists j: nat :: j < n && FirstFor(cs, j) && after[i] == cs[j].(rank := i + 1) {
      if i < |before| {
        var j: nat :| j < n - 1 && FirstFor(cs, j) && before[i] == cs[j].(rank := i + 1);
      }
    }
  }

  /** Each chunk read is listed once, ranked from one, by the first candidate for it. */
  lemma {:induction false} FirstByChunkLists(cs: seq<Candidate>, n: nat)
    requires n <= |cs|
    ensures ListsFirsts(cs, n, FirstByChunk(cs, n))
  {
    if n > 0 {
      FirstByChunkLists(cs, n - 1);
      var before := FirstByChunk(cs, n - 1);
      if cs[n - 1].chunk in Seen(before) {
        ListsPassedOver(cs, n, before);
      } else {
        ListsAdded(cs, n, before, FirstByChunk(cs, n));
      }
    }
  }

  /** The list is of the first candidates for each chunk in the order they are read: `at` has their places. */
  ghost predicate FirstsInOrder(cs: seq<Candidate>, n: nat, rs: seq<Candidate>, at: seq<nat>)
    requires n <= |cs|
  {
    && |at| == |rs| && (forall i, j :: 0 <= i < j < |at| ==> at[i] < at[j])
    && (forall j: nat :: j in at <==> j < n && FirstFor(cs, j))
    && forall i :: 0 <= i < |at| ==> at[i] < |cs| && rs[i] == cs[at[i]].(rank := i + 1)
  }

  lemma {:induction false} FirstByChunkInOrder(cs: seq<Candidate>, n: nat) returns (at: seq<nat>)
    requires n <= |cs|
    ensures FirstsInOrder(cs, n, FirstByChunk(cs, n), at)
  {
    at := [];
    if n > 0 {
      var last := n - 1;
      var before := FirstByChunkInOrder(cs, last);
      FirstByChunkLists(cs, last);
      FirstIffNew(cs, last);
      at := if cs[last].chunk in Seen(FirstByChunk(cs, last)) then before else before + [last];
      FirstsOneMore(cs, last, FirstByChunk(cs, last), before);
    }
  }

  lemma FirstIffNew(cs: seq<Candidate>, n: nat)
    requires n < |cs| && ListsFirsts(cs, n, FirstByChunk(cs, n))
    ensures FirstFor(cs, n) <==> cs[n].chunk !in Seen(FirstByChunk(cs, n))
  {
    assert cs[n].chunk in ChunksRead(cs, n) <==> exists k :: 0 <= k < n && cs[k].chunk == cs[n].chunk;
  }

  lemma FirstsAdded(cs: seq<Candidate>, n: nat, rs: seq<Candidate>, at: seq<nat>, after: seq<Candidate>)
    requires n < |cs| && FirstsInOrder(cs, n, rs, at) && FirstFor(cs, n)
    requires after == rs + [cs[n].(rank := |rs| + 1)]
    ensures FirstsInOrder(cs, n + 1, after, at + [n])
  {
    var more := at + [n];
    forall i | 0 <= i < |at| ensures at[i] < n { assert at[i] in at; }
    forall j: nat ensures j in more <==> j < n + 1 && FirstFor(cs, j) { assert j in more <==> j in at || j == n; }
    forall i | 0 <= i < |more| ensures more[i] < |cs| && after[i] == cs[more[i]].(rank := i + 1) {
      if i < |at| { assert after[i] == rs[i] && more[i] == at[i]; }
    }
  }

  lemma FirstsOneMore(cs: seq<Candidate>, n: nat, rs: seq<Candidate>, at: seq<nat>)
    requires n < |cs| && FirstsInOrder(cs, n, rs, at) && (FirstFor(cs, n) <==> cs[n].chunk !in Seen(rs))
    ensures FirstsInOrder(cs, n + 1, AddFirst(rs, cs[n]), if cs[n].chunk in Seen(rs) then at else at + [n])
  {
    if FirstFor(cs, n) { FirstsAdded(cs, n, rs, at, AddFirst(rs, cs[n])); }
  }

  ghost predicate AllAccepted(cs: seq<Candidate>, n: nat, t: Traversal, seeds: set<string>)
    requires n <= |cs|
  {
    n == 0 || (AllAccepted(cs, n - 1, t, seeds) && ServiceAccepts(cs[n - 1], t, seeds))
  }

  lemma {:induction false} AcceptedEach(cs: seq<Candidate>, n: nat, t: Traversal, seeds: set<string>, i: nat)
    requires i < n <= |cs| && AllAccepted(cs, n, t, seeds)
    ensures ServiceAccepts(cs[i], t, seeds) && Serves(cs[i], t, seeds) && SimplePath(EdgesOf(cs[i]))
  {
    if i < n - 1 {
      AcceptedEach(cs, n - 1, t, seeds, i);
    } else {
      var edges := EdgesOf(cs[i]);
      AcceptsIffServes(cs[i], t, seeds);
      assert forall j :: 0 <= j < |edges| ==> ServiceEdge(edges, j, t) && EdgeInPlace(edges, j);
    }
  }

  method KeepFirst(valid: seq<Candidate>, seen: set<string>, c: Candidate) returns (v: seq<Candidate>, s: set<string>)
    requires seen == Seen(valid)
    ensures s == Seen(v) && |v| <= |valid| + 1
    ensures v == AddFirst(valid, c)
  {
    v, s := valid, seen;
    if c.chunk !in seen {
      s := seen + {c.chunk};
      v := valid + [c.(rank := |valid| + 1)];
      SeenOneMore(valid, c.(rank := |valid| + 1));
    }
  }

  /** The loop's state once `read` candidates have been let through. */
  ghost predicate LetThrough(cs: seq<Candidate>, read: nat, t: Traversal, seeds: set<string>, fanout: Fanout,
                             valid: seq<Candidate>)
  {
    && read <= |cs| && AllAccepted(cs, read, t, seeds) && fanout == AllEdges(cs, read) && Narrow(fanout, t.fanout)
    && valid == FirstByChunk(cs, read) && |valid| <= t.limit
  }

  lemma OneMoreThrough(cs: seq<Candidate>, read: nat, t: Traversal, seeds: set<string>, before: Fanout,
                       valid: seq<Candidate>, after: Fanout, more: seq<Candidate>)
    requires LetThrough(cs, read, t, seeds, before, valid) && read < |cs| && |more| <= t.limit
    requires ServiceAccepts(cs[read], t, seeds) && Narrow(after, t.fanout)
    requires after == WithEdges(before, EdgesOf(cs[read]), |EdgesOf(cs[read])|) && more == AddFirst(valid, cs[read])
    ensures LetThrough(cs, read + 1, t, seeds, after, more)
  {}

  lemma FanoutTold(cs: seq<Candidate>, read: nat, t: Traversal, seeds: set<string>, refused: Option<Refusal>)
    requires read <= |cs| && Narrow(AllEdges(cs, read), t.fanout)
    requires refused.Some? ==> read < |cs| && PathRefused(cs[read], t, seeds, AllEdges(cs, read), refused.value)
    ensures FanoutKept(cs, read, t.fanout)
    ensures refused == Some(TooWide) ==> FanoutBroken(cs, read, t.fanout)
  {
    NarrowIsKept(cs, read, t.fanout);
    if refused == Some(TooWide) { OverflowIsBroken(cs, read, t.fanout); }
  }

  /** Look at one candidate: it is refused or let through. */
  method ReadOne(cs: seq<Candidate>, read: nat, t: Traversal, seeds: set<string>, shared: Fanout,
                 valid: seq<Candidate>, seen: set<string>)
    returns (refusal: Option<Refusal>, next: Fanout, more: seq<Candidate>, chunks: set<string>)
    requires LetThrough(cs, read, t, seeds, shared, valid) && read < |cs| && |valid| < t.limit && seen == Seen(valid)
    ensures refusal.None? ==> LetThrough(cs, read + 1, t, seeds, next, more) && chunks == Seen(more)
    ensures refusal.Some? ==> PathRefused(cs[read], t, seeds, shared, refusal.value)
  {
    refusal, next := CheckPath(cs[read], t, seeds, shared);
    more, chunks := valid, seen;
    if refusal.None? {
      more, chunks := KeepFirst(valid, seen, cs[read]);
      OneMoreThrough(cs, read, t, seeds, shared, valid, next, more);
    }
  }

  /** Look at candidates until one is refused, the limit is reached or none is left. */
  method ReadCandidates(cs: seq<Candidate>, t: Traversal, seeds: set<string>)
    returns (refused: Option<Refusal>, valid: seq<Candidate>, read: nat, ghost fanout: Fanout)
    requires t.limit >= 1
    ensures LetThrough(cs, read, t, seeds, fanout, valid)
    ensures refused.None? ==> read == |cs| || |valid| == t.limit
    ensures refused.Some? ==> read < |cs| && PathRefused(cs[read], t, seeds, fanout, refused.value)
  {
    var seen: set<string> := {};
    var shared: Fanout := map[];
    refused, valid, read, fanout := None, [], 0, shared;
    while read < |cs| && |valid| < t.limit
      invariant LetThrough(cs, read, t, seeds, shared, valid) && seen == Seen(valid) && fanout == shared
      decreases |cs| - read
    {
      var refusal, next, more, chunks := ReadOne(cs, read, t, seeds, shared, valid, seen);
      if refusal.Some? { return refusal, valid, read, shared; }
      valid, seen, shared, fanout, read := more, chunks, next, next, read + 1;
    }
  }

  /** `read` candidates are looked at; with none refused, each read path is accepted and the shared fanout is kept. */
  method ValidateRelationshipCandidates(cs: seq<Candidate>, t: Traversal, seeds: set<string>)
    returns (r: Result<seq<Candidate>, Refusal>, read: nat)
    requires t.limit >= 1
    ensures read <= |cs| && AllAccepted(cs, read, t, seeds) && Narrow(AllEdges(cs, read), t.fanout)
    ensures FanoutKept(cs, read, t.fanout)
    ensures r.Ok? ==> r.value == FirstByChunk(cs, read) && ListsFirsts(cs, read, r.value)
                      && |r.value| <= t.limit && (read == |cs| || |r.value| == t.limit)
    ensures r.Err? ==> read < |cs| && PathRefused(cs[read], t, seeds, AllEdges(cs, read), r.error)
    ensures r == Err(TooWide) ==> FanoutBroken(cs, read, t.fanout)
  {
    var refused, valid, looked, fanout := ReadCandidates(cs, t, seeds);
    read := looked;
    FanoutTold(cs, read, t, seeds, refused);
    FirstByChunkLists(cs, read);
    r := if refused.Some? then Err(refused.value) else Ok(valid);
  }
}
