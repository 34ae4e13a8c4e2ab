/** Which candidates become items and how much of each is shown, read off the candidates and their records. */
module BundleContents {
  import opened Ordering
  import opened Candidates
  import opened Fusion
  import opened Reranking
  import opened Evidence
  import opened EvidenceLaws
  import Paths = RelationshipPaths

  /** A record with a text, a hash and citations, each of which backs it. */
  predicate HasEvidence(fetched: Fetched, id: string) {
    && id in fetched.records
    && var r := fetched.records[id];
       r.text != "" && r.hash != "" && r.citations != [] && forall c :: c in r.citations ==> Backs(fetched, c, r)
  }

  /** Every place of every text with evidence among the first n candidates. */
  function TextPlaces(cs: seq<Fused>, fetched: Fetched, n: nat): set<(nat, nat)>
    requires n <= |cs|
  {
    set i: nat, j: nat | i < n && HasEvidence(fetched, cs[i].chunk) && j < |fetched.records[cs[i].chunk].text| :: (i, j)
  }

  lemma {:induction false} AskedCounts(cs: seq<Fused>, fetched: Fetched, n: nat)
    requires n <= |cs|
    ensures Asked(cs, fetched, n) == |TextPlaces(cs, fetched, n)|
  {
    if n > 0 {
      AskedCounts(cs, fetched, n - 1);
      PlacesOneMore(cs, fetched, n);
      UsableIff(fetched, cs[n - 1].chunk);
    } else {
      assert TextPlaces(cs, fetched, 0) == {};
    }
  }

  lemma UsableIff(fetched: Fetched, id: string)
    ensures Usable(fetched, id) <==> HasEvidence(fetched, id)
  {}

  lemma PlacesOneMore(cs: seq<Fused>, fetched: Fetched, n: nat)
    requires 0 < n <= |cs|
    ensures var id := cs[n - 1].chunk;
            |TextPlaces(cs, fetched, n)| == |TextPlaces(cs, fetched, n - 1)|
            + if HasEvidence(fetched, id) then |fetched.records[id].text| else 0
  {
    var id := cs[n - 1].chunk;
    var most, all := TextPlaces(cs, fetched, n - 1), TextPlaces(cs, fetched, n);
    if HasEvidence(fetched, id) {
      var here := PlacesOf(n - 1, |fetched.records[id].text|);
      PlacesCounted(n - 1, |fetched.records[id].text|);
      forall p | p in all ensures p in most + here {}
      assert all == most + here;
    } else {
      forall p | p in all ensures p in most {}
      assert all == most;
    }
  }

  /** The edge is typed strictly, numbered by its place, goes on from the one before, and cites allowed items. */
  predicate HopFits(es: seq<Edge>, i: nat, allowed: set<string>)
    requires i < |es| && Paths.AreEdges(es)
  {
    && es[i].strict && es[i].depth == i + 1 && (i > 0 ==> es[i].source == es[i - 1].target)
    && es[i].citations != [] && forall c :: c in es[i].citations ==> c in allowed
  }

  /** One to three fitting hops to the chunk, through no entity twice. */
  predicate PathFits(es: seq<Edge>, chunk: string, allowed: set<string>) {
    && 1 <= |es| <= 3 && Paths.AreEdges(es) && (forall i :: 0 <= i < |es| ==> HopFits(es, i, allowed))
    && Paths.NoneTwice(es) && es[|es| - 1].target == chunk
  }

  lemma HopsFitIff(es: seq<Edge>, allowed: set<string>)
    ensures (forall i :: 0 <= i < |es| ==> Paths.EdgeFits(es, i, allowed)) <==>
            |es| <= 3 && Paths.AreEdges(es) && forall i :: 0 <= i < |es| ==> HopFits(es, i, allowed)
  {
    if forall i :: 0 <= i < |es| ==> Paths.EdgeFits(es, i, allowed) {
      assert |es| > 3 ==> Paths.EdgeFits(es, 3, allowed);
      forall e | e in es ensures e.Edge? {
        var i :| 0 <= i < |es| && es[i] == e;
        assert Paths.EdgeFits(es, i, allowed);
      }
      forall i | 0 <= i < |es| ensures HopFits(es, i, allowed) { assert Paths.EdgeFits(es, i, allowed); }
    } else if |es| <= 3 && Paths.AreEdges(es) && forall i :: 0 <= i < |es| ==> HopFits(es, i, allowed) {
      forall i | 0 <= i < |es| ensures Paths.EdgeFits(es, i, allowed) { assert HopFits(es, i, allowed); }
    }
  }

  lemma PathFitsIff(path: Option<seq<Edge>>, chunk: string, allowed: set<string>)
    ensures Paths.EvidenceAccepts(path, chunk, allowed) <==> path.Some? && PathFits(path.value, chunk, allowed)
  {
    if path.Some? && path.value != [] {
      var es := path.value;
      HopsFitIff(es, allowed);
      if Paths.AreEdges(es) { Paths.NoneTwiceIff(es); }
    }
  }

  /** Evidence, room left in the budget, and, if found over relationships, a fitting path. */
  predicate Earns(cs: seq<Fused>, fetched: Fetched, budget: nat, n: nat)
    requires n < |cs|
  {
    && HasEvidence(fetched, cs[n].chunk) && |TextPlaces(cs, fetched, n)| < 4 * budget
    && ("relationship" in cs[n].paths ==>
          var edges := cs[n].paths["relationship"].data.edges;
          edges.Some? && PathFits(edges.value, cs[n].chunk, set c | c in fetched.records[cs[n].chunk].citations))
  }

  lemma KeptIffEarned(cs: seq<Fused>, fetched: Fetched, budget: nat, n: nat)
    requires OneEntryAChunk(cs) && n < |cs|
    ensures Kept(cs, fetched, budget, n) <==> Earns(cs, fetched, budget, n)
  {
    DroppedExactlyWhen(cs, fetched, budget, n);
    AskedCounts(cs, fetched, n);
    UsableIff(fetched, cs[n].chunk);
    if "relationship" in cs[n].paths && HasEvidence(fetched, cs[n].chunk) {
      PathFitsIff(cs[n].paths["relationship"].data.edges, cs[n].chunk,
                  set c | c in fetched.records[cs[n].chunk].citations);
    }
  }

  /** The text up to what the texts before it have left of four characters a token. */
  predicate ShowsWhatIsLeft(cs: seq<Fused>, fetched: Fetched, budget: nat, item: Item, n: nat) {
    && ItemFrom(cs, fetched, item, n)
    && var text, asked := fetched.records[cs[n].chunk].text, |TextPlaces(cs, fetched, n)|;
       && item.excerpt <= text
       && (asked + |text| <= 4 * budget ==> item.excerpt == text)
       && (asked + |text| > 4 * budget ==> asked + |item.excerpt| == 4 * budget)
  }

  lemma ShownIsLeft(cs: seq<Fused>, fetched: Fetched, budget: nat, n: nat)
    requires n < |cs| && Kept(cs, fetched, budget, n)
    ensures ShowsWhatIsLeft(cs, fetched, budget, ItemAt(cs, fetched, budget, n), n)
    ensures ShowsPathOf(cs, ItemAt(cs, fetched, budget, n), n)
  {
    AskedCounts(cs, fetched, n);
    ItemTells(cs, fetched, budget, n);
  }

  /** The text does not fit into what those before it have left, whether it is kept or not. */
  predicate Overruns(cs: seq<Fused>, fetched: Fetched, budget: nat, n: nat)
    requires n < |cs|
  {
    && HasEvidence(fetched, cs[n].chunk)
    && |TextPlaces(cs, fetched, n)| + |fetched.records[cs[n].chunk].text| > 4 * budget
  }

  function OverrunsBefore(cs: seq<Fused>, fetched: Fetched, budget: nat, n: nat): set<nat>
    requires n <= |cs|
  {
    set i: nat | i < n && Overruns(cs, fetched, budget, i)
  }

  lemma OverrunsIff(cs: seq<Fused>, fetched: Fetched, budget: nat, n: nat)
    requires n < |cs|
    ensures Overruns(cs, fetched, budget, n) <==>
            && Usable(fetched, cs[n].chunk)
            && |fetched.records[cs[n].chunk].text| > Left(budget, Asked(cs, fetched, n))
  {
    AskedCounts(cs, fetched, n);
    UsableIff(fetched, cs[n].chunk);
  }

  lemma OverrunsOneMore(cs: seq<Fused>, fetched: Fetched, budget: nat, n: nat)
    requires 0 < n <= |cs|
    ensures |OverrunsBefore(cs, fetched, budget, n)|
            == |OverrunsBefore(cs, fetched, budget, n - 1)| + if Overruns(cs, fetched, budget, n - 1) then 1 else 0
  {
    var most, last := OverrunsBefore(cs, fetched, budget, n - 1), n - 1;
    assert OverrunsBefore(cs, fetched, budget, n)
           == if Overruns(cs, fetched, budget, last) then most + {last} else most;
  }

  lemma {:induction false} TruncatedCounts(cs: seq<Fused>, fetched: Fetched, budget: nat, n: nat)
    requires n <= |cs|
    ensures TruncatedTo(cs, fetched, budget, n) == |OverrunsBefore(cs, fetched, budget, n)|
  {
    if n == 0 {
      assert OverrunsBefore(cs, fetched, budget, n) == {};
    } else {
      TruncatedCounts(cs, fetched, budget, n - 1);
      OverrunsIff(cs, fetched, budget, n - 1);
      OverrunsOneMore(cs, fetched, budget, n);
    }
  }

  /**
   The items are the candidates that earn it, in order, each with as much of its text as is left; the counts
   say how many are missing and how many texts did not fit.
   */
  lemma BundleTells(cs: seq<Fused>, fetched: Fetched, budget: nat, b: Bundle) returns (from: seq<nat>)
    requires IsBundle(cs, fetched, budget, b) && OneEntryAChunk(cs)
    ensures |from| == |b.items| && forall i, j :: 0 <= i < j < |from| ==> from[i] < from[j]
    ensures forall n: nat :: n in from <==> n < |cs| && Earns(cs, fetched, budget, n)
    ensures forall i :: 0 <= i < |from| ==>
              ShowsWhatIsLeft(cs, fetched, budget, b.items[i], from[i]) && ShowsPathOf(cs, b.items[i], from[i])
    ensures b.dropped == |cs| - |from| && b.truncated == |OverrunsBefore(cs, fetched, budget, |cs|)|
  {
    from := KeptTo(cs, fetched, budget, |cs|);
    KeptAreTheKept(cs, fetched, budget, |cs|);
    TruncatedCounts(cs, fetched, budget, |cs|);
    forall n: nat ensures n in from <==> n < |cs| && Earns(cs, fetched, budget, n) {
      if n < |cs| { KeptIffEarned(cs, fetched, budget, n); }
    }
    forall i | 0 <= i < |from|
      ensures ShowsWhatIsLeft(cs, fetched, budget, b.items[i], from[i]) && ShowsPathOf(cs, b.items[i], from[i])
    {
      assert b.items[i] == ItemAt(cs, fetched, budget, from[i]) && Kept(cs, fetched, budget, from[i]);
      ShownIsLeft(cs, fetched, budget, from[i]);
    }
  }
}
