/**
 The bounded relationship traversal: the recursive query as rows derived level by level, and the
 paths it is meant to enumerate, declared without reference to rows.
 */
module Traversal {
  import opened Ordering
  import opened LikePattern
  import opened VisitedText

  datatype Relationship = Relationship(id: string, kind: string, source: Entity, target: Entity)

  datatype Direction = Outbound | Inbound | Both

  datatype Profile = Profile(
    enabled: bool, skipSeen: bool, types: set<string>, direction: Direction,
    maxDepth: nat, fanout: nat, cap: nat)

  datatype Edge = Edge(relationship: string, source: Entity, target: Entity)

  /** What the recursive part of the query reads: all oriented edges, the seeds and the bounds. */
  datatype Walk = Walk(edges: seq<Edge>, seeds: seq<Entity>, maxDepth: nat, fanout: nat, cap: nat)

  datatype Row = Row(
    relationship: Option<string>, entity: Entity, depth: nat, visited: string, ordinal: nat)

  datatype Hit = Hit(relationship: string, entity: Entity, depth: nat)

  // ----- Edge relation -----

  function Forward(rels: seq<Relationship>, types: set<string>): seq<Edge> {
    if rels == [] then []
    else (if rels[0].kind in types then [Edge(rels[0].id, rels[0].source, rels[0].target)] else [])
         + Forward(rels[1..], types)
  }

  function Backward(rels: seq<Relationship>, types: set<string>): seq<Edge> {
    if rels == [] then []
    else (if rels[0].kind in types then [Edge(rels[0].id, rels[0].target, rels[0].source)] else [])
         + Backward(rels[1..], types)
  }

  function Oriented(rels: seq<Relationship>, types: set<string>, direction: Direction): seq<Edge> {
    (if direction != Inbound then Forward(rels, types) else [])
    + (if direction != Outbound then Backward(rels, types) else [])
  }

  /** The window order within one source entity; the table order stands for the ties SQL leaves open. */
  ghost predicate Precedes(edges: seq<Edge>, i: nat, j: nat)
    requires i < |edges| && j < |edges|
  {
    var a, b := edges[i], edges[j];
    || StringLess(a.relationship, b.relationship)
    || (a.relationship == b.relationship && StringLess(a.target.id, b.target.id))
    || (a.relationship == b.relationship && a.target.id == b.target.id && i < j)
  }

  ghost function Earlier(edges: seq<Edge>, i: nat): set<nat>
    requires i < |edges|
  {
    set j: nat | j < |edges| && edges[j].source == edges[i].source && Precedes(edges, j, i)
  }

  /** `row_number()` over the edges that leave the same entity. */
  ghost function RowNumber(edges: seq<Edge>, i: nat): nat
    requires i < |edges|
  {
    1 + |Earlier(edges, i)|
  }

  lemma PrecedesIsStrict(edges: seq<Edge>, i: nat, j: nat, k: nat)
    requires i < |edges| && j < |edges| && k < |edges|
    ensures !Precedes(edges, i, i)
    ensures Precedes(edges, i, j) && Precedes(edges, j, k) ==> Precedes(edges, i, k)
    ensures i != j ==> Precedes(edges, i, j) || Precedes(edges, j, i)
  {
    StringLessTotal();
  }

  /** A rank is never shared by two edges that leave the same entity. */
  lemma RowNumberInjective(edges: seq<Edge>, i: nat, j: nat)
    requires i < |edges| && j < |edges| && edges[i].source == edges[j].source
    ensures RowNumber(edges, i) == RowNumber(edges, j) <==> i == j
    ensures RowNumber(edges, i) < RowNumber(edges, j) <==> i != j && Precedes(edges, i, j)
  {
    PrecedesIsStrict(edges, i, j, i);
    PrecedesIsStrict(edges, j, i, j);
    if Precedes(edges, i, j) { EarlierGrows(edges, i, j); }
    if Precedes(edges, j, i) { EarlierGrows(edges, j, i); }
  }

  lemma EarlierGrows(edges: seq<Edge>, i: nat, j: nat)
    requires i < |edges| && j < |edges| && edges[i].source == edges[j].source
    requires Precedes(edges, i, j)
    ensures RowNumber(edges, i) < RowNumber(edges, j)
  {
    forall k | k in Earlier(edges, i) ensures k in Earlier(edges, j) {
      PrecedesIsStrict(edges, k, i, j);
    }
    PrecedesIsStrict(edges, i, i, i);
    SubsetCardinality(Earlier(edges, i) + {i}, Earlier(edges, j));
  }

  lemma {:induction false} OrientedEdges(rels: seq<Relationship>, types: set<string>, direction: Direction, e: Edge)
    ensures e in Oriented(rels, types, direction) <==>
            exists r :: r in rels && r.kind in types && r.id == e.relationship
              && ((direction != Inbound && e.source == r.source && e.target == r.target)
                  || (direction != Outbound && e.source == r.target && e.target == r.source))
  {
    ForwardEdges(rels, types, e);
    BackwardEdges(rels, types, e);
  }

  lemma {:induction false} ForwardEdges(rels: seq<Relationship>, types: set<string>, e: Edge)
    ensures e in Forward(rels, types) <==>
            exists r :: r in rels && r.kind in types && e == Edge(r.id, r.source, r.target)
  {
    if rels != [] {
      ForwardEdges(rels[1..], types, e);
      assert forall r :: r in rels <==> r == rels[0] || r in rels[1..];
    }
  }

  lemma {:induction false} BackwardEdges(rels: seq<Relationship>, types: set<string>, e: Edge)
    ensures e in Backward(rels, types) <==>
            exists r :: r in rels && r.kind in types && e == Edge(r.id, r.target, r.source)
  {
    if rels != [] {
      BackwardEdges(rels[1..], types, e);
      assert forall r :: r in rels <==> r == rels[0] || r in rels[1..];
    }
  }

  ghost function KeptFrom(edges: seq<Edge>, source: Entity, fanout: nat): set<nat> {
    set i: nat | i < |edges| && edges[i].source == source && RowNumber(edges, i) <= fanout
  }

  /** At most `fanout` edges leave an entity, and an edge is only kept with all that precede it. */
  lemma FanoutBound(edges: seq<Edge>, source: Entity, fanout: nat)
    ensures |KeptFrom(edges, source, fanout)| <= fanout
    ensures forall i, j: nat :: i in KeptFrom(edges, source, fanout) && j in Earlier(edges, i) ==>
              j in KeptFrom(edges, source, fanout)
  {
    var kept := KeptFrom(edges, source, fanout);
    var rank := (i: nat) requires i < |edges| => RowNumber(edges, i);
    forall i, j | i in kept && j in kept && rank(i) == rank(j) ensures i == j {
      RowNumberInjective(edges, i, j);
    }
    InjectionBound(kept, rank, Span(1, fanout + 1));
    forall i, j: nat | i in kept && j in Earlier(edges, i) ensures j in kept {
      RowNumberInjective(edges, j, i);
      PrecedesIsStrict(edges, i, i, i);
    }
  }

  // ----- The recursive query -----

  ghost function ChildOrdinal(w: Walk, parent: nat, rank: nat): nat {
    |w.seeds| + parent * w.fanout + rank
  }

  /** The join condition and the three guards of the recursive branch. */
  ghost predicate Follows(w: Walk, row: Row, i: nat)
    requires i < |w.edges|
  {
    && RowNumber(w.edges, i) <= w.fanout
    && w.edges[i].source == row.entity
    && row.depth < w.maxDepth
    && !Contains(row.visited, Needle(w.edges[i].target))
    && ChildOrdinal(w, row.ordinal, RowNumber(w.edges, i)) <= w.cap
  }

  ghost function Child(w: Walk, row: Row, i: nat): Row
    requires i < |w.edges|
  {
    var edge := w.edges[i];
    Row(Some(edge.relationship), edge.target, row.depth + 1,
        row.visited + Token(edge.target) + "|",
        ChildOrdinal(w, row.ordinal, RowNumber(w.edges, i)))
  }

  ghost function Children(w: Walk, row: Row, n: nat): seq<Row>
    requires n <= |w.edges|
  {
    if n == 0 then []
    else Children(w, row, n - 1) + (if Follows(w, row, n - 1) then [Child(w, row, n - 1)] else [])
  }

  ghost function Expand(w: Walk, rows: seq<Row>): seq<Row> {
    if rows == [] then []
    else Children(w, rows[0], |w.edges|) + Expand(w, rows[1..])
  }

  ghost function SeedRow(w: Walk, s: nat): Row
    requires s < |w.seeds|
  {
    Row(None, w.seeds[s], 0, Needle(w.seeds[s]), s)
  }

  /** The working table of the recursive query after k rounds. */
  ghost function Level(w: Walk, k: nat): seq<Row> {
    if k == 0 then seq(|w.seeds|, s requires 0 <= s < |w.seeds| => SeedRow(w, s))
    else Expand(w, Level(w, k - 1))
  }

  ghost function Levels(w: Walk): nat -> seq<Row> { (l: nat) => Level(w, l) }

  /** All rows of the first k rounds, in order. */
  ghost function Derived(w: Walk, k: nat): seq<Row> { Gather(Levels(w), k) }

  ghost function Gather<T>(lists: nat -> seq<T>, k: nat): seq<T> {
    if k == 0 then lists(0) else Gather(lists, k - 1) + lists(k)
  }

  lemma {:induction false} GatheredFrom<T>(lists: nat -> seq<T>, k: nat, x: T) returns (l: nat)
    requires x in Gather(lists, k)
    ensures l <= k && x in lists(l)
  {
    l := k;
    if x !in lists(k) && k > 0 { l := GatheredFrom(lists, k - 1, x); }
  }

  lemma {:induction false} GatherHolds<T>(lists: nat -> seq<T>, l: nat, k: nat, x: T)
    requires l <= k && x in lists(l)
    ensures x in Gather(lists, k)
  {
    if l < k { GatherHolds(lists, l, k - 1, x); }
  }

  lemma {:induction false} ChildrenMembers(w: Walk, row: Row, n: nat, r: Row)
    requires n <= |w.edges|
    ensures r in Children(w, row, n) <==> exists i: nat :: i < n && Follows(w, row, i) && r == Child(w, row, i)
  {
    if n > 0 { ChildrenMembers(w, row, n - 1, r); }
  }

  lemma {:induction false} ExpandMembers(w: Walk, rows: seq<Row>, r: Row)
    ensures r in Expand(w, rows) <==>
            exists p, i: nat :: p in rows && i < |w.edges| && Follows(w, p, i) && r == Child(w, p, i)
  {
    if rows != [] {
      ChildrenMembers(w, rows[0], |w.edges|, r);
      ExpandMembers(w, rows[1..], r);
      assert forall p :: p in rows <==> p == rows[0] || p in rows[1..];
    }
  }

  lemma ChildInLevel(w: Walk, k: nat, p: Row, i: nat)
    requires p in Level(w, k) && i < |w.edges| && Follows(w, p, i)
    ensures Child(w, p, i) in Level(w, k + 1)
  {
    ExpandMembers(w, Level(w, k), Child(w, p, i));
  }

  lemma ParentInLevel(w: Walk, k: nat, r: Row) returns (p: Row, i: nat)
    requires r in Level(w, k + 1)
    ensures p in Level(w, k) && i < |w.edges| && Follows(w, p, i) && r == Child(w, p, i)
  {
    ExpandMembers(w, Level(w, k), r);
    p, i :| p in Level(w, k) && i < |w.edges| && Follows(w, p, i) && r == Child(w, p, i);
  }

  lemma ChildDepth(w: Walk, p: Row, i: nat)
    requires i < |w.edges| && Follows(w, p, i)
    ensures Child(w, p, i).depth == p.depth + 1 <= w.maxDepth && Child(w, p, i).relationship.Some?
    ensures |w.seeds| < Child(w, p, i).ordinal <= w.cap
  {}

  lemma {:induction false} LevelDepth(w: Walk, k: nat, r: Row)
    requires r in Level(w, k)
    ensures r.depth == k <= w.maxDepth || k == 0 == r.depth
    ensures k == 0 <==> r.relationship.None?
    ensures if k == 0 then r.ordinal < |w.seeds| else |w.seeds| < r.ordinal <= w.cap
  {
    if k > 0 {
      var p, i := ParentInLevel(w, k - 1, r);
      LevelDepth(w, k - 1, p);
      ChildDepth(w, p, i);
    }
  }

  /** The recursion reaches its fixpoint: no round after the depth bound derives a row. */
  lemma FixpointAtMaxDepth(w: Walk, k: nat)
    requires k > w.maxDepth
    ensures Level(w, k) == [] && Derived(w, k) == Derived(w, w.maxDepth)
    decreases k
  {
    if Level(w, k) != [] { LevelDepth(w, k, Level(w, k)[0]); }
    if k > w.maxDepth + 1 { FixpointAtMaxDepth(w, k - 1); }
  }

  // ----- The declarative path set -----

  datatype Path = Path(seed: nat, hops: seq<nat>)

  function Prefix(p: Path): Path
    requires p.hops != []
  {
    Path(p.seed, p.hops[..|p.hops| - 1])
  }

  function LastHop(p: Path): nat
    requires p.hops != []
  {
    p.hops[|p.hops| - 1]
  }

  predicate InRange(w: Walk, p: Path) {
    p.seed < |w.seeds| && forall i :: 0 <= i < |p.hops| ==> p.hops[i] < |w.edges|
  }

  function Nodes(w: Walk, p: Path): (nodes: seq<Entity>)
    requires InRange(w, p)
    ensures |nodes| == |p.hops| + 1
    decreases |p.hops|
  {
    if p.hops == [] then [w.seeds[p.seed]]
    else Nodes(w, Prefix(p)) + [w.edges[LastHop(p)].target]
  }

  ghost function Ordinal(w: Walk, p: Path): nat
    requires InRange(w, p)
    decreases |p.hops|
  {
    if p.hops == [] then p.seed
    else ChildOrdinal(w, Ordinal(w, Prefix(p)), RowNumber(w.edges, LastHop(p)))
  }

  /** A simple path from a seed over fanout-bounded edges, within the depth and candidate bounds. */
  ghost predicate Admissible(w: Walk, p: Path) {
    && InRange(w, p)
    && |p.hops| <= w.maxDepth
    && (forall i :: 0 <= i < |p.hops| ==>
          w.edges[p.hops[i]].source == Nodes(w, p)[i] && RowNumber(w.edges, p.hops[i]) <= w.fanout)
    && Distinct(Nodes(w, p))
    && (p.hops != [] ==> Ordinal(w, p) <= w.cap)
  }

  ghost function RowOf(w: Walk, p: Path): Row
    requires InRange(w, p)
  {
    Row(if p.hops == [] then None else Some(w.edges[LastHop(p)].relationship),
        Nodes(w, p)[|p.hops|], |p.hops|, Visited(Nodes(w, p)), Ordinal(w, p))
  }

  predicate UnescapedWalk(w: Walk) {
    && (forall i :: 0 <= i < |w.edges| ==> UnescapedEntity(w.edges[i].target))
  }

  predicate LiteralWalk(w: Walk) {
    && (forall s :: 0 <= s < |w.seeds| ==> Delimited(w.seeds[s]))
    && (forall i :: 0 <= i < |w.edges| ==> Delimited(w.edges[i].target) && LiteralEntity(w.edges[i].target))
  }

  /** Ordinals grow along a path, so the prefixes of an admissible path are admissible. */
  lemma PrefixAdmissible(w: Walk, p: Path)
    requires Admissible(w, p) && p.hops != []
    ensures Admissible(w, Prefix(p))
    ensures Ordinal(w, Prefix(p)) < Ordinal(w, p)
    ensures LastHop(p) < |w.edges| && w.edges[LastHop(p)].source == Nodes(w, Prefix(p))[|p.hops| - 1]
    ensures RowNumber(w.edges, LastHop(p)) <= w.fanout
    ensures w.edges[LastHop(p)].target !in Nodes(w, Prefix(p))
  {
    var q := Prefix(p);
    assert Nodes(w, p) == Nodes(w, q) + [w.edges[LastHop(p)].target];
    assert forall i :: 0 <= i < |q.hops| ==> q.hops[i] == p.hops[i] && Nodes(w, q)[i] == Nodes(w, p)[i];
    assert p.hops[|p.hops| - 1] == LastHop(p);
    assert Ordinal(w, q) <= Ordinal(w, q) * w.fanout by { Grows(Ordinal(w, q), w.fanout); }
    forall i, j | 0 <= i < j < |Nodes(w, q)| ensures Nodes(w, q)[i] != Nodes(w, q)[j] {
      assert Nodes(w, p)[i] != Nodes(w, p)[j];
    }
    forall i | 0 <= i < |Nodes(w, q)| ensures Nodes(w, q)[i] != w.edges[LastHop(p)].target {
      assert Nodes(w, p)[i] != Nodes(w, p)[|p.hops|];
    }
  }

  lemma Grows(a: nat, b: nat)
    requires b >= 1
    ensures a <= a * b
  {}

  lemma {:induction false} NodesAreEntities(w: Walk, p: Path, e: Entity)
    requires InRange(w, p) && e in Nodes(w, p)
    ensures (exists s :: 0 <= s < |w.seeds| && e == w.seeds[s])
              || (exists i :: 0 <= i < |w.edges| && e == w.edges[i].target)
    decreases |p.hops|
  {
    if p.hops != [] {
      if e in Nodes(w, Prefix(p)) { NodesAreEntities(w, Prefix(p), e); }
    }
  }

  function Extend(p: Path, i: nat): (q: Path)
    ensures q.hops != [] && Prefix(q) == p && LastHop(q) == i
  {
    assert (p.hops + [i])[..|p.hops|] == p.hops;
    Path(p.seed, p.hops + [i])
  }

  /** The visited test takes the last entity of the path for one met before. */
  ghost predicate Blocked(w: Walk, p: Path)
    requires InRange(w, p) && p.hops != []
  {
    Contains(Visited(Nodes(w, Prefix(p))), Needle(w.edges[LastHop(p)].target))
  }

  /** The visited test holds up no step of the path. */
  ghost predicate Open(w: Walk, p: Path)
    requires InRange(w, p)
    decreases |p.hops|
  {
    p.hops == [] || (Open(w, Prefix(p)) && !Blocked(w, p))
  }

  lemma RowOfLast(w: Walk, p: Path)
    requires InRange(w, p) && p.hops != []
    ensures RowOf(w, p) == Child(w, RowOf(w, Prefix(p)), LastHop(p))
  {
    var q, target := Prefix(p), w.edges[LastHop(p)].target;
    var before := Nodes(w, q);
    assert Nodes(w, p)[..|p.hops|] == before;
  }

  lemma FollowingExtends(w: Walk, q: Path, i: nat)
    requires Admissible(w, q) && i < |w.edges| && UnescapedEntity(w.edges[i].target)
    requires Follows(w, RowOf(w, q), i)
    ensures Admissible(w, Extend(q, i)) && !Blocked(w, Extend(q, i))
    ensures RowOf(w, Extend(q, i)) == Child(w, RowOf(w, q), i)
  {
    var p, target := Extend(q, i), w.edges[i].target;
    assert target !in Nodes(w, q) by {
      if target in Nodes(w, q) { VisitedAlwaysSkipped(Nodes(w, q), target); }
    }
    RowOfLast(w, p);
    assert Nodes(w, p) == Nodes(w, q) + [target];
    assert forall j :: 0 <= j < |q.hops| ==> p.hops[j] == q.hops[j] && Nodes(w, p)[j] == Nodes(w, q)[j];
  }

  lemma SeedRows(w: Walk, r: Row) returns (p: Path)
    requires r in Level(w, 0)
    ensures Admissible(w, p) && p.hops == [] && RowOf(w, p) == r
  {
    var s :| 0 <= s < |w.seeds| && r == Level(w, 0)[s];
    p := Path(s, []);
  }

  /** Every derived row is the row of an admissible path: bounds kept, no entity revisited. */
  lemma {:induction false} DerivedRowsAreSound(w: Walk, k: nat, r: Row) returns (p: Path)
    requires UnescapedWalk(w) && r in Level(w, k)
    ensures Admissible(w, p) && Open(w, p) && |p.hops| == k && RowOf(w, p) == r
  {
    if k == 0 {
      p := SeedRows(w, r);
    } else {
      var parent, i := ParentInLevel(w, k - 1, r);
      var q := DerivedRowsAreSound(w, k - 1, parent);
      FollowingExtends(w, q, i);
      p := Extend(q, i);
    }
  }

  lemma UnblockedFollows(w: Walk, p: Path)
    requires Admissible(w, p) && p.hops != [] && !Blocked(w, p)
    ensures Follows(w, RowOf(w, Prefix(p)), LastHop(p))
  {
    PrefixAdmissible(w, p);
  }

  lemma SeedRowOf(w: Walk, p: Path)
    requires InRange(w, p) && p.hops == []
    ensures RowOf(w, p) in Level(w, 0)
  {
    assert Level(w, 0)[p.seed] == RowOf(w, p);
  }

  lemma {:induction false} OpenPathsAreDerived(w: Walk, p: Path)
    requires Admissible(w, p) && Open(w, p)
    ensures RowOf(w, p) in Level(w, |p.hops|)
    decreases |p.hops|
  {
    if p.hops == [] {
      SeedRowOf(w, p);
    } else {
      PrefixAdmissible(w, p);
      OpenPathsAreDerived(w, Prefix(p));
      UnblockedFollows(w, p);
      RowOfLast(w, p);
      ChildInLevel(w, |p.hops| - 1, RowOf(w, Prefix(p)), LastHop(p));
    }
  }

  /** With literal identifiers the visited test holds up no simple path. */
  lemma {:induction false} LiteralPathsOpen(w: Walk, p: Path)
    requires LiteralWalk(w) && Admissible(w, p)
    ensures Open(w, p)
    decreases |p.hops|
  {
    if p.hops != [] {
      PrefixAdmissible(w, p);
      LiteralPathsOpen(w, Prefix(p));
      var before := Nodes(w, Prefix(p));
      forall e | e in before ensures Delimited(e) { NodesAreEntities(w, Prefix(p), e); }
      VisitedTestExact(before, w.edges[LastHop(p)].target);
    }
  }

  // ----- Ordinals number the derivations -----

  lemma Spread(f: nat, a: nat, r: nat, b: nat, s: nat)
    requires 1 <= r <= f && 1 <= s
    ensures a < b ==> a * f + r < b * f + s
  {
    if a < b {
      assert b * f == a * f + (b - a) * f;
      Grows(f, b - a);
    }
  }

  lemma ChildOrdinalInjective(w: Walk, a: nat, r: nat, b: nat, s: nat)
    requires 1 <= r <= w.fanout && 1 <= s <= w.fanout
    requires ChildOrdinal(w, a, r) == ChildOrdinal(w, b, s)
    ensures a == b && r == s
  {
    Spread(w.fanout, a, r, b, s);
    Spread(w.fanout, b, s, a, r);
  }

  /** No two admissible paths share an ordinal. */
  lemma {:induction false} OrdinalInjective(w: Walk, p: Path, q: Path)
    requires Admissible(w, p) && Admissible(w, q) && Ordinal(w, p) == Ordinal(w, q)
    ensures p == q
    decreases |p.hops|
  {
    if p.hops != [] && q.hops != [] {
      PrefixAdmissible(w, p);
      PrefixAdmissible(w, q);
      ChildOrdinalInjective(w, Ordinal(w, Prefix(p)), RowNumber(w.edges, LastHop(p)),
                            Ordinal(w, Prefix(q)), RowNumber(w.edges, LastHop(q)));
      OrdinalInjective(w, Prefix(p), Prefix(q));
      RowNumberInjective(w.edges, LastHop(p), LastHop(q));
      PathFromParts(p, q);
    }
  }

  /**
   An admissible path is derived, at the level of its length, exactly when the visited test holds up
   none of its steps.
   */
  lemma AdmissiblePathsAreDerived(w: Walk, p: Path)
    requires UnescapedWalk(w) && Admissible(w, p)
    ensures RowOf(w, p) in Level(w, |p.hops|) <==> Open(w, p)
  {
    if Open(w, p) { OpenPathsAreDerived(w, p); }
    if RowOf(w, p) in Level(w, |p.hops|) {
      var q := DerivedRowsAreSound(w, |p.hops|, RowOf(w, p));
      OrdinalInjective(w, p, q);
    }
  }

  lemma PathFromParts(p: Path, q: Path)
    requires p.hops != [] && q.hops != [] && Prefix(p) == Prefix(q) && LastHop(p) == LastHop(q)
    ensures p == q
  {
    assert p.hops == Prefix(p).hops + [LastHop(p)] && q.hops == Prefix(q).hops + [LastHop(q)];
  }

  ghost function Ordinals(rows: seq<Row>): seq<nat> {
    seq(|rows|, i requires 0 <= i < |rows| => rows[i].ordinal)
  }

  lemma {:induction false} ChildrenNumbered(w: Walk, row: Row, n: nat)
    requires n <= |w.edges|
    ensures Distinct(Ordinals(Children(w, row, n)))
  {
    if n > 0 {
      ChildrenNumbered(w, row, n - 1);
      if Follows(w, row, n - 1) {
        var before := Children(w, row, n - 1);
        forall j | 0 <= j < |before| ensures before[j].ordinal != Child(w, row, n - 1).ordinal {
          ChildrenMembers(w, row, n - 1, before[j]);
          var i: nat :| i < n - 1 && Follows(w, row, i) && before[j] == Child(w, row, i);
          RowNumberInjective(w.edges, i, n - 1);
        }
        JoinNumbered(before, [Child(w, row, n - 1)]);
      } else {
        assert Children(w, row, n) == Children(w, row, n - 1);
      }
    }
  }

  lemma {:induction false} ExpandNumbered(w: Walk, rows: seq<Row>)
    requires Distinct(Ordinals(rows))
    ensures Distinct(Ordinals(Expand(w, rows)))
  {
    if rows != [] {
      var rest := rows[1..];
      forall i, j | 0 <= i < j < |rest| ensures Ordinals(rest)[i] != Ordinals(rest)[j] {
        assert Ordinals(rows)[i + 1] != Ordinals(rows)[j + 1];
      }
      ExpandNumbered(w, rest);
      ChildrenNumbered(w, rows[0], |w.edges|);
      var a, b := Children(w, rows[0], |w.edges|), Expand(w, rest);
      forall i, j | 0 <= i < |a| && 0 <= j < |b| ensures a[i].ordinal != b[j].ordinal {
        ChildrenMembers(w, rows[0], |w.edges|, a[i]);
        var x: nat :| x < |w.edges| && Follows(w, rows[0], x) && a[i] == Child(w, rows[0], x);
        ExpandMembers(w, rest, b[j]);
        var p, y: nat :| p in rest && y < |w.edges| && Follows(w, p, y) && b[j] == Child(w, p, y);
        var z :| 0 <= z < |rest| && rest[z] == p;
        assert Ordinals(rows)[0] != Ordinals(rows)[z + 1];
        ChildrenApart(w, rows[0], x, p, y);
      }
      JoinNumbered(a, b);
    }
  }

  lemma JoinNumbered(a: seq<Row>, b: seq<Row>)
    requires Distinct(Ordinals(a)) && Distinct(Ordinals(b))
    requires forall i, j :: 0 <= i < |a| && 0 <= j < |b| ==> a[i].ordinal != b[j].ordinal
    ensures Distinct(Ordinals(a + b))
  {
    assert Ordinals(a + b) == Ordinals(a) + Ordinals(b);
  }

  lemma {:induction false} LevelsApart(w: Walk, k: nat, l: nat, r: Row, s: Row)
    requires k < l && r in Level(w, k) && s in Level(w, l)
    ensures r.ordinal != s.ordinal
  {
    LevelDepth(w, k, r);
    LevelDepth(w, l, s);
    if k > 0 {
      var p, i := ParentInLevel(w, k - 1, r);
      var q, j := ParentInLevel(w, l - 1, s);
      LevelsApart(w, k - 1, l - 1, p, q);
      ChildrenApart(w, p, i, q, j);
    }
  }

  lemma ChildrenApart(w: Walk, p: Row, i: nat, q: Row, j: nat)
    requires i < |w.edges| && Follows(w, p, i) && j < |w.edges| && Follows(w, q, j) && p.ordinal != q.ordinal
    ensures Child(w, p, i).ordinal != Child(w, q, j).ordinal
  {
    if Child(w, p, i).ordinal == Child(w, q, j).ordinal {
      ChildOrdinalInjective(w, p.ordinal, RowNumber(w.edges, i), q.ordinal, RowNumber(w.edges, j));
    }
  }

  lemma DerivedLevel(w: Walk, k: nat, r: Row) returns (l: nat)
    requires r in Derived(w, k)
    ensures l <= k && r in Level(w, l)
  {
    l := GatheredFrom(Levels(w), k, r);
  }

  lemma LevelIsDerived(w: Walk, l: nat, k: nat, r: Row)
    requires l <= k && r in Level(w, l)
    ensures r in Derived(w, k)
  {
    GatherHolds(Levels(w), l, k, r);
  }

  lemma {:induction false} LevelNumbered(w: Walk, k: nat)
    ensures Distinct(Ordinals(Level(w, k)))
  {
    if k == 0 {
      var o := Ordinals(Level(w, 0));
      forall i | 0 <= i < |o| ensures o[i] == i { assert o[i] == Level(w, 0)[i].ordinal; }
    } else {
      LevelNumbered(w, k - 1);
      ExpandNumbered(w, Level(w, k - 1));
    }
  }

  /** No ordinal is given twice in a whole traversal. */
  lemma {:induction false} DerivedNumbered(w: Walk, k: nat)
    ensures Distinct(Ordinals(Derived(w, k)))
  {
    LevelNumbered(w, k);
    if k > 0 {
      DerivedNumbered(w, k - 1);
      forall r, t | r in Derived(w, k - 1) && t in Level(w, k) ensures r.ordinal != t.ordinal {
        LevelIsNew(w, k, r, t);
      }
      JoinNumbered(Derived(w, k - 1), Level(w, k));
    }
  }

  lemma LevelIsNew(w: Walk, k: nat, r: Row, t: Row)
    requires k > 0 && r in Derived(w, k - 1) && t in Level(w, k)
    ensures r.ordinal != t.ordinal
  {
    var l := DerivedLevel(w, k - 1, r);
    LevelsApart(w, l, k, r, t);
  }

  // ----- The final selection -----

  ghost function Reached(rows: seq<Row>): seq<Row> {
    if rows == [] then []
    else (if rows[0].relationship.Some? then [rows[0]] else []) + Reached(rows[1..])
  }

  predicate Before(a: Row, b: Row) {
    var x := if a.relationship.Some? then a.relationship.value else "";
    var y := if b.relationship.Some? then b.relationship.value else "";
    || a.depth < b.depth
    || (a.depth == b.depth && StringLess(x, y))
    || (a.depth == b.depth && x == y && StringLess(a.entity.id, b.entity.id))
  }

  ghost function HitOf(r: Row): Hit
    requires r.relationship.Some?
  {
    Hit(r.relationship.value, r.entity, r.depth)
  }

  ghost function WalkOf(profile: Profile, rels: seq<Relationship>, seeds: seq<Entity>): Walk {
    Walk(Oriented(rels, profile.types, profile.direction), seeds, profile.maxDepth, profile.fanout, profile.cap)
  }

  ghost function SelectedRows(w: Walk): seq<Row> {
    var ordered := Sort(Before, Reached(Derived(w, w.maxDepth)));
    if |ordered| <= w.cap then ordered else ordered[..w.cap]
  }

  ghost function Hits(rows: seq<Row>): seq<Hit>
    requires forall r :: r in rows ==> r.relationship.Some?
  {
    seq(|rows|, i requires 0 <= i < |rows| => HitOf(rows[i]))
  }

  ghost function Traverse(profile: Profile, rels: seq<Relationship>, seeds: seq<Entity>): Result<seq<Hit>, string> {
    if !profile.enabled || seeds == [] then Ok([])
    else if !profile.skipSeen then Err("SQL relationship traversal requires cycle_handling='skip_seen'")
    else
      var w := WalkOf(profile, rels, seeds);
      SelectedAreReached(w);
      Ok(Hits(SelectedRows(w)))
  }

  lemma SelectedAreReached(w: Walk)
    ensures forall r :: r in SelectedRows(w) ==> r in Derived(w, w.maxDepth) && r.relationship.Some?
  {
    var reached := Reached(Derived(w, w.maxDepth));
    SortPermutes(Before, reached);
    forall r | r in SelectedRows(w) ensures r in Derived(w, w.maxDepth) && r.relationship.Some? {
      ReachedMembers(Derived(w, w.maxDepth), r);
    }
  }

  lemma {:induction false} ReachedMembers(rows: seq<Row>, r: Row)
    ensures r in Reached(rows) <==> r in rows && r.relationship.Some?
  {
    if rows != [] { ReachedMembers(rows[1..], r); }
  }

  lemma {:induction false} ReachedNumbered(rows: seq<Row>)
    requires Distinct(Ordinals(rows))
    ensures Distinct(Ordinals(Reached(rows)))
  {
    if rows != [] {
      var rest := rows[1..];
      forall i, j | 0 <= i < j < |rest| ensures Ordinals(rest)[i] != Ordinals(rest)[j] {
        assert Ordinals(rows)[i + 1] != Ordinals(rows)[j + 1];
      }
      ReachedNumbered(rest);
      if rows[0].relationship.Some? {
        var b := Reached(rest);
        forall j | 0 <= j < |b| ensures rows[0].ordinal != b[j].ordinal {
          ReachedMembers(rest, b[j]);
          var z :| 0 <= z < |rest| && rest[z] == b[j];
          assert Ordinals(rows)[0] != Ordinals(rows)[z + 1];
        }
        JoinNumbered([rows[0]], b);
      } else {
        assert Reached(rows) == Reached(rest);
      }
    }
  }

  /** At most cap - n rows are ever reached from n seeds, so the final LIMIT drops none. */
  lemma CandidateBound(w: Walk)
    ensures var reached := Reached(Derived(w, w.maxDepth));
            && Distinct(reached)
            && |reached| <= (if |w.seeds| < w.cap then w.cap - |w.seeds| else 0)
            && SelectedRows(w) == Sort(Before, reached)
  {
    var reached := Reached(Derived(w, w.maxDepth));
    DerivedNumbered(w, w.maxDepth);
    ReachedNumbered(Derived(w, w.maxDepth));
    NumberedBound(w, reached);
    SortPermutes(Before, reached);
  }

  lemma ReachedOrdinal(w: Walk, r: Row)
    requires r in Reached(Derived(w, w.maxDepth))
    ensures |w.seeds| < r.ordinal <= w.cap
  {
    ReachedMembers(Derived(w, w.maxDepth), r);
    var l := DerivedLevel(w, w.maxDepth, r);
    LevelDepth(w, l, r);
  }

  lemma NumberedBound(w: Walk, reached: seq<Row>)
    requires reached == Reached(Derived(w, w.maxDepth)) && Distinct(Ordinals(reached))
    ensures Distinct(reached) && |reached| <= if |w.seeds| < w.cap then w.cap - |w.seeds| else 0
  {
    var o := Ordinals(reached);
    forall i | 0 <= i < |o| ensures |w.seeds| + 1 <= o[i] < w.cap + 1 { ReachedOrdinal(w, reached[i]); }
    DistinctBounded(o, |w.seeds| + 1, w.cap + 1);
    forall i, j | 0 <= i < j < |reached| ensures reached[i] != reached[j] {
      assert o[i] != o[j];
    }
  }

  lemma BeforeIsWeakOrder()
    ensures StrictWeakOrder(Before)
  {
    StringLessTotal();
    TotalIsWeak(StringLess);
  }

  lemma {:induction false} RowsHavePaths(w: Walk, rows: seq<Row>) returns (paths: seq<Path>)
    requires UnescapedWalk(w) && forall r :: r in rows ==> r in Derived(w, w.maxDepth)
    ensures |paths| == |rows|
    ensures forall i :: 0 <= i < |rows| ==> Admissible(w, paths[i]) && RowOf(w, paths[i]) == rows[i]
  {
    if rows == [] {
      paths := [];
    } else {
      var l := DerivedLevel(w, w.maxDepth, rows[0]);
      var first := DerivedRowsAreSound(w, l, rows[0]);
      var rest := RowsHavePaths(w, rows[1..]);
      paths := [first] + rest;
    }
  }

  /** The hits are, one each, the ends of the listed paths, and the paths are all different. */
  ghost predicate Enumerates(w: Walk, hits: seq<Hit>, paths: seq<Path>) {
    && |hits| == |paths|
    && Distinct(paths)
    && forall i :: 0 <= i < |paths| ==>
         Admissible(w, paths[i]) && paths[i].hops != [] && hits[i] == EndOf(w, paths[i])
  }

  ghost function EndOf(w: Walk, p: Path): Hit
    requires InRange(w, p) && p.hops != []
  {
    Hit(w.edges[LastHop(p)].relationship, Nodes(w, p)[|p.hops|], |p.hops|)
  }

  predicate HitBefore(a: Hit, b: Hit) {
    || a.depth < b.depth
    || (a.depth == b.depth && StringLess(a.relationship, b.relationship))
    || (a.depth == b.depth && a.relationship == b.relationship && StringLess(a.entity.id, b.entity.id))
  }

  /** The rows selected are one per path of a duplicate-free listing. */
  lemma SelectedRowsHavePaths(w: Walk) returns (paths: seq<Path>)
    requires UnescapedWalk(w)
    ensures |paths| == |SelectedRows(w)| && Distinct(paths)
    ensures forall i :: 0 <= i < |paths| ==>
              Admissible(w, paths[i]) && paths[i].hops != [] && RowOf(w, paths[i]) == SelectedRows(w)[i]
  {
    var rows, reached := SelectedRows(w), Reached(Derived(w, w.maxDepth));
    CandidateBound(w);
    SortPermutes(Before, reached);
    PermutedDistinct(reached, rows);
    SelectedAreReached(w);
    paths := RowsHavePaths(w, rows);
    forall i, j | 0 <= i < j < |paths| ensures paths[i] != paths[j] {
      assert rows[i] != rows[j];
    }
  }

  lemma SelectionOrdered(w: Walk)
    ensures forall r :: r in SelectedRows(w) ==> r.relationship.Some?
    ensures Ascending(HitBefore, Hits(SelectedRows(w)))
    ensures |SelectedRows(w)| <= if |w.seeds| < w.cap then w.cap - |w.seeds| else 0
  {
    var rows, reached := SelectedRows(w), Reached(Derived(w, w.maxDepth));
    SelectedAreReached(w);
    CandidateBound(w);
    SortPermutes(Before, reached);
    BeforeIsWeakOrder();
    SortAscends(Before, reached);
    var hits := Hits(rows);
    forall i, j | 0 <= i < j < |hits| ensures !HitBefore(hits[j], hits[i]) {
      assert !Before(rows[j], rows[i]);
      assert rows[i].relationship.Some? && rows[j].relationship.Some?;
    }
  }

  /** What is selected of an admissible path, however it is listed: its row, if it is open. */
  lemma SelectedIffOpen(w: Walk, p: Path)
    requires UnescapedWalk(w) && Admissible(w, p) && p.hops != []
    ensures RowOf(w, p) in SelectedRows(w) <==> Open(w, p)
  {
    var r, reached := RowOf(w, p), Reached(Derived(w, w.maxDepth));
    AdmissiblePathsAreDerived(w, p);
    ReachedMembers(Derived(w, w.maxDepth), r);
    CandidateBound(w);
    SortPermutes(Before, reached);
    if Open(w, p) { LevelIsDerived(w, |p.hops|, w.maxDepth, r); }
    if r in Derived(w, w.maxDepth) {
      var l := DerivedLevel(w, w.maxDepth, r);
      LevelDepth(w, l, r);
    }
  }

  lemma ListedIffOpen(w: Walk, paths: seq<Path>, p: Path)
    requires UnescapedWalk(w) && Admissible(w, p) && p.hops != []
    requires |paths| == |SelectedRows(w)|
    requires forall i :: 0 <= i < |paths| ==> Admissible(w, paths[i]) && RowOf(w, paths[i]) == SelectedRows(w)[i]
    ensures p in paths <==> Open(w, p)
  {
    SelectedIffOpen(w, p);
    if i :| 0 <= i < |paths| && SelectedRows(w)[i] == RowOf(w, p) { OrdinalInjective(w, paths[i], p); }
    if i :| 0 <= i < |paths| && paths[i] == p { assert SelectedRows(w)[i] == RowOf(w, p); }
  }

  /**
   The traversal lists the simple bounded paths from the seeds that the visited test leaves open, each
   once, in (depth, relationship, entity) order; if every identifier is literal these are all there are.
   */
  lemma TraversalEnumeratesPaths(profile: Profile, rels: seq<Relationship>, seeds: seq<Entity>)
    returns (paths: seq<Path>)
    requires profile.enabled && profile.skipSeen && seeds != []
    requires UnescapedWalk(WalkOf(profile, rels, seeds))
    ensures var w := WalkOf(profile, rels, seeds);
            var result := Traverse(profile, rels, seeds);
            && result.Ok?
            && Enumerates(w, result.value, paths)
            && Ascending(HitBefore, result.value)
            && |paths| <= (if |seeds| < profile.cap then profile.cap - |seeds| else 0)
            && (forall p :: p in paths <==> Admissible(w, p) && p.hops != [] && Open(w, p))
            && (LiteralWalk(w) ==> forall p :: Admissible(w, p) ==> Open(w, p))
  {
    var w := WalkOf(profile, rels, seeds);
    paths := SelectedRowsHavePaths(w);
    SelectionOrdered(w);
    forall p ensures p in paths <==> Admissible(w, p) && p.hops != [] && Open(w, p) {
      if Admissible(w, p) && p.hops != [] { ListedIffOpen(w, paths, p); }
    }
    if LiteralWalk(w) {
      forall p | Admissible(w, p) ensures Open(w, p) { LiteralPathsOpen(w, p); }
    }
  }
}
