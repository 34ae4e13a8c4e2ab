/** What an evidence bundle promises: its budget, its order, and what a larger budget changes. */
module EvidenceLaws {
  import opened Ordering
  import opened Candidates
  import opened Fusion
  import opened Reranking
  import opened Evidence

  // ----- The budget -----

  lemma ItemTakesItsShare(cs: seq<Fused>, fetched: Fetched, budget: nat, n: nat)
    requires n < |cs| && Kept(cs, fetched, budget, n)
    ensures |ItemAt(cs, fetched, budget, n).excerpt| + Left(budget, Asked(cs, fetched, n + 1))
            == Left(budget, Asked(cs, fetched, n))
  {}

  lemma {:induction false} AskedGrows(cs: seq<Fused>, fetched: Fetched, m: nat, n: nat)
    requires m <= n <= |cs|
    ensures Asked(cs, fetched, m) <= Asked(cs, fetched, n)
  {
    if m < n { AskedGrows(cs, fetched, m, n - 1); }
  }

  /** Candidates before the n-th, in order. */
  ghost predicate InOrderBefore(kept: seq<nat>, n: nat) {
    (forall i :: 0 <= i < |kept| ==> kept[i] < n) && forall i, j :: 0 <= i < j < |kept| ==> kept[i] < kept[j]
  }

  lemma AllButLast(cs: seq<Fused>, fetched: Fetched, budget: nat, kept: seq<nat>, n: nat, items: seq<Item>)
    requires ItemsAre(cs, fetched, budget, kept, items) && InOrderBefore(kept, n) && kept != []
    ensures var last := |kept| - 1;
            && ItemsAre(cs, fetched, budget, kept[..last], items[..last]) && InOrderBefore(kept[..last], kept[last])
            && kept[last] < n && kept[last] < |cs| && Kept(cs, fetched, budget, kept[last])
            && |items| == |kept| && items[last] == ItemAt(cs, fetched, budget, kept[last])
  {}

  /** Items of kept candidates before the n-th leave what the n-th may use. */
  lemma {:induction false} ExcerptsFit(cs: seq<Fused>, fetched: Fetched, budget: nat, kept: seq<nat>, n: nat,
                                       items: seq<Item>)
    requires n <= |cs| && ItemsAre(cs, fetched, budget, kept, items) && InOrderBefore(kept, n)
    ensures TextLength(items) + Left(budget, Asked(cs, fetched, n)) <= 4 * budget
  {
    if kept != [] {
      var last := |kept| - 1;
      AllButLast(cs, fetched, budget, kept, n, items);
      ExcerptsFit(cs, fetched, budget, kept[..last], kept[last], items[..last]);
      ItemTakesItsShare(cs, fetched, budget, kept[last]);
      AskedGrows(cs, fetched, kept[last] + 1, n);
    }
  }

  /** The estimate never exceeds the budget. */
  lemma BundleFitsBudget(cs: seq<Fused>, fetched: Fetched, budget: nat, b: Bundle)
    requires IsBundle(cs, fetched, budget, b)
    ensures b.estimated <= b.budget
  {
    KeptAreTheKept(cs, fetched, budget, |cs|);
    var kept := KeptTo(cs, fetched, budget, |cs|);
    forall i | 0 <= i < |kept| ensures kept[i] < |cs| { assert kept[i] in kept; }
    ExcerptsFit(cs, fetched, budget, kept, |cs|, b.items);
  }

  /** Whoever is cut short uses up the budget, so no one after is kept. */
  lemma NoneAfterCut(cs: seq<Fused>, fetched: Fetched, budget: nat, m: nat, n: nat)
    requires m < n < |cs| && Kept(cs, fetched, budget, m) && Kept(cs, fetched, budget, n)
    ensures ItemAt(cs, fetched, budget, m).excerpt == fetched.records[cs[m].chunk].text
  {
    AskedGrows(cs, fetched, m + 1, n);
  }

  /**
   Items come in candidate order, each a non-empty start of its record's text with its record's citations,
   which all back it, and with its candidate's relationship path; only the last one may be cut.
   */
  lemma ItemsInOrder(cs: seq<Fused>, fetched: Fetched, budget: nat, b: Bundle) returns (from: seq<nat>)
    requires IsBundle(cs, fetched, budget, b)
    ensures |from| == |b.items| == |cs| - b.dropped && forall i, j :: 0 <= i < j < |from| ==> from[i] < from[j]
    ensures forall i :: 0 <= i < |from| ==> ItemFrom(cs, fetched, b.items[i], from[i])
    ensures forall i :: 0 <= i < |from| - 1 ==> WholeFrom(cs, fetched, b.items[i], from[i])
    ensures forall i :: 0 <= i < |from| ==> ShowsPathOf(cs, b.items[i], from[i])
  {
    from := KeptTo(cs, fetched, budget, |cs|);
    KeptAreTheKept(cs, fetched, budget, |cs|);
    forall i | 0 <= i < |from|
      ensures ItemFrom(cs, fetched, b.items[i], from[i]) && ShowsPathOf(cs, b.items[i], from[i])
    {
      assert b.items[i] == ItemAt(cs, fetched, budget, from[i]);
      ItemTells(cs, fetched, budget, from[i]);
    }
    forall i | 0 <= i < |from| - 1 ensures WholeFrom(cs, fetched, b.items[i], from[i]) {
      assert Kept(cs, fetched, budget, from[i]) && Kept(cs, fetched, budget, from[i + 1]);
      NoneAfterCut(cs, fetched, budget, from[i], from[i + 1]);
    }
  }

  lemma ItemTells(cs: seq<Fused>, fetched: Fetched, budget: nat, n: nat)
    requires n < |cs| && Kept(cs, fetched, budget, n)
    ensures ItemFrom(cs, fetched, ItemAt(cs, fetched, budget, n), n)
    ensures ShowsPathOf(cs, ItemAt(cs, fetched, budget, n), n)
  {
    LatestIsLast(cs, cs[n].chunk);
  }

  /** The citation is known and of the same item, source, version, label and hash as the record. */
  predicate Backs(fetched: Fetched, c: string, r: Record) {
    && c in fetched.citations
    && var x := fetched.citations[c];
       && (x.item, x.source, x.version) == (r.item, r.source, r.version)
       && (x.eligibility, x.hash) == (r.eligibility, r.hash)
  }

  predicate ItemFrom(cs: seq<Fused>, fetched: Fetched, item: Item, n: nat) {
    && n < |cs| && cs[n].chunk in fetched.records
    && var r := fetched.records[cs[n].chunk];
       && item == Item(r.item, r.kind, item.excerpt, r.hash, r.citations, item.path)
       && item.excerpt != "" && item.excerpt <= r.text
       && r.hash != "" && r.citations != [] && forall c :: c in r.citations ==> Backs(fetched, c, r)
  }

  predicate WholeFrom(cs: seq<Fused>, fetched: Fetched, item: Item, n: nat) {
    ItemFrom(cs, fetched, item, n) && item.excerpt == fetched.records[cs[n].chunk].text
  }

  predicate LastOfChunk(cs: seq<Fused>, m: nat, chunk: string) {
    m < |cs| && cs[m].chunk == chunk && forall j :: m < j < |cs| ==> cs[j].chunk != chunk
  }

  /** The relationship path of the last entry for the chunk; none if it was not found over relationships. */
  ghost predicate ShowsPathOf(cs: seq<Fused>, item: Item, n: nat) {
    n < |cs| && forall m: nat :: LastOfChunk(cs, m, cs[n].chunk) ==>
      if "relationship" in cs[m].paths then cs[m].paths["relationship"].data.edges == Some(item.path)
      else item.path == []
  }

  lemma {:induction false} LatestIsLast(cs: seq<Fused>, chunk: string)
    ensures forall m: nat :: LastOfChunk(cs, m, chunk) ==> Latest(cs, chunk) == Some(cs[m])
  {
    if cs != [] {
      var last := |cs| - 1;
      LatestIsLast(cs[..last], chunk);
      forall m: nat | LastOfChunk(cs, m, chunk) ensures Latest(cs, chunk) == Some(cs[m]) {
        if m < last { assert LastOfChunk(cs[..last], m, chunk); }
      }
    }
  }

  // ----- What the bundle counts -----

  /** Every place of every excerpt. */
  function ShownPlaces(items: seq<Item>): set<(nat, nat)> {
    set i: nat, j: nat | i < |items| && j < |items[i].excerpt| :: (i, j)
  }

  lemma {:induction false} TextLengthCounts(items: seq<Item>)
    ensures TextLength(items) == |ShownPlaces(items)|
  {
    if items == [] {
      assert ShownPlaces(items) == {};
    } else {
      var last := |items| - 1;
      TextLengthCounts(items[..last]);
      PlacesSplit(items);
    }
  }

  lemma PlacesSplit(items: seq<Item>)
    requires items != []
    ensures |ShownPlaces(items)| == |ShownPlaces(items[..|items| - 1])| + |items[|items| - 1].excerpt|
  {
    var last := |items| - 1;
    assert ShownPlaces(items) == ShownPlaces(items[..last]) + PlacesOf(last, |items[last].excerpt|);
    PlacesCounted(last, |items[last].excerpt|);
  }

  /** The first n places of the i-th text. */
  function PlacesOf(i: nat, n: nat): set<(nat, nat)> { set j: nat | j < n :: (i, j) }

  lemma {:induction false} PlacesCounted(i: nat, n: nat)
    ensures |PlacesOf(i, n)| == n
  {
    if n > 0 {
      PlacesCounted(i, n - 1);
      assert PlacesOf(i, n) == PlacesOf(i, n - 1) + {(i, n - 1)};
    }
  }

  /** The tokens counted are the fewest that cover the characters shown, four to a token. */
  lemma EstimateCovers(cs: seq<Fused>, fetched: Fetched, budget: nat, b: Bundle)
    requires IsBundle(cs, fetched, budget, b)
    ensures 4 * b.estimated - 4 < |ShownPlaces(b.items)| <= 4 * b.estimated && b.budget == budget
  {
    TextLengthCounts(b.items);
  }

  /** Ids of the items of one kind, in order: `at` has their places. */
  ghost predicate Selects(items: seq<Item>, kind: Kind, ids: seq<string>, at: seq<nat>) {
    && |ids| == |at| && (forall i, j :: 0 <= i < j < |at| ==> at[i] < at[j])
    && (forall n: nat :: n in at <==> n < |items| && items[n].kind == kind)
    && forall i :: 0 <= i < |at| ==> at[i] < |items| && ids[i] == items[at[i]].item
  }

  lemma {:induction false} IdsAreSelected(items: seq<Item>, kind: Kind) returns (at: seq<nat>)
    ensures Selects(items, kind, ItemIds(items, kind), at)
  {
    at := [];
    if items != [] {
      var last := |items| - 1;
      var before := IdsAreSelected(items[..last], kind);
      at := if items[last].kind == kind then before + [last] else before;
      SelectsOneMore(items, kind, ItemIds(items[..last], kind), before);
    }
  }

  lemma SelectsOneMore(items: seq<Item>, kind: Kind, ids: seq<string>, at: seq<nat>)
    requires items != [] && Selects(items[..|items| - 1], kind, ids, at)
    ensures var last := |items| - 1;
            if items[last].kind == kind then Selects(items, kind, ids + [items[last].item], at + [last])
            else Selects(items, kind, ids, at)
  {
    forall i | 0 <= i < |at| ensures at[i] < |items| - 1 { assert at[i] in at; }
  }

  /** The two lists of ids split the items by kind. */
  lemma IdsSplitItems(cs: seq<Fused>, fetched: Fetched, budget: nat, b: Bundle)
    returns (chunks: seq<nat>, memories: seq<nat>)
    requires IsBundle(cs, fetched, budget, b)
    ensures Selects(b.items, Chunk, b.chunkIds, chunks) && Selects(b.items, Memory, b.memoryIds, memories)
  {
    chunks := IdsAreSelected(b.items, Chunk);
    memories := IdsAreSelected(b.items, Memory);
  }

  // ----- Which candidates are dropped -----

  /** A usable candidate with an acceptable path is dropped only when those before it ask for the whole budget. */
  lemma DroppedExactlyWhen(cs: seq<Fused>, fetched: Fetched, budget: nat, n: nat)
    requires OneEntryAChunk(cs) && n < |cs|
    ensures Kept(cs, fetched, budget, n) <==>
            && Usable(fetched, cs[n].chunk)
            && PathAccepted(cs[n], set c | c in fetched.records[cs[n].chunk].citations)
            && Asked(cs, fetched, n) < 4 * budget
  {
    LatestIsItself(cs, n);
  }

  /** Nothing counts as truncated exactly when the budget covers all usable text. */
  lemma {:induction false} NothingTruncatedIff(cs: seq<Fused>, fetched: Fetched, budget: nat, n: nat)
    requires n <= |cs|
    ensures TruncatedTo(cs, fetched, budget, n) == 0 <==> Asked(cs, fetched, n) <= 4 * budget
  {
    if n > 0 { NothingTruncatedIff(cs, fetched, budget, n - 1); }
  }

  /** At most one item is cut, so every further truncation counted is of a candidate that was dropped. */
  lemma {:induction false} LaterTruncationsAreDrops(cs: seq<Fused>, fetched: Fetched, budget: nat, m: nat, n: nat)
    requires m < n < |cs| && Usable(fetched, cs[m].chunk) && Usable(fetched, cs[n].chunk)
    requires |fetched.records[cs[m].chunk].text| > Left(budget, Asked(cs, fetched, m))
    ensures !Kept(cs, fetched, budget, n)
    ensures TruncatedTo(cs, fetched, budget, n + 1) == TruncatedTo(cs, fetched, budget, n) + 1
  {
    AskedGrows(cs, fetched, m + 1, n);
  }

  /** A larger budget keeps every candidate a smaller one keeps, and shows at least as much of it. */
  lemma LargerBudgetKeepsMore(cs: seq<Fused>, fetched: Fetched, small: nat, large: nat, n: nat)
    requires small <= large && n < |cs| && Kept(cs, fetched, small, n)
    ensures Kept(cs, fetched, large, n)
    ensures ItemAt(cs, fetched, small, n).excerpt <= ItemAt(cs, fetched, large, n).excerpt
  {
    var asked := Asked(cs, fetched, n);
    assert Left(small, asked) <= Left(large, asked);
    CutsNest(fetched.records[cs[n].chunk].text, Left(small, asked), Left(large, asked));
  }

  lemma CutsNest(text: string, m: nat, n: nat)
    requires m <= n
    ensures Cut(text, m) <= Cut(text, n)
  {}

  // ----- Citations and conflicts -----

  /** Every citation listed is listed once and supports an item; every citation of an item is listed. */
  lemma CitationsAreTheItems(cs: seq<Fused>, fetched: Fetched, budget: nat, b: Bundle)
    requires IsBundle(cs, fetched, budget, b)
    requires forall id :: id in fetched.citations ==> fetched.citations[id].id == id
    ensures forall i, j :: 0 <= i < j < |b.citations| ==> StringLess(b.citations[i].id, b.citations[j].id)
    ensures forall c :: c in b.citations <==> c.id in CitationIds(b.items) && c.id in fetched.citations
                                              && fetched.citations[c.id] == c
    ensures forall i, c :: 0 <= i < |b.items| && c in b.items[i].citations ==>
              c in fetched.citations && fetched.citations[c] in b.citations
                  && fetched.citations[c].item == b.items[i].item
  {
    var ids :| CitedInOrder(b, fetched, ids);
    forall c: Citation
      ensures c in b.citations <==>
                c.id in CitationIds(b.items) && c.id in fetched.citations && fetched.citations[c.id] == c
    {
      if c in b.citations {
        var i :| 0 <= i < |b.citations| && b.citations[i] == c;
        assert ids[i] in ids;
      }
      if c.id in CitationIds(b.items) && c.id in fetched.citations && fetched.citations[c.id] == c {
        assert c.id in ids;
        var i :| 0 <= i < |ids| && ids[i] == c.id;
        assert b.citations[i] == c;
      }
    }
    var kept := KeptTo(cs, fetched, budget, |cs|);
    forall i, c | 0 <= i < |b.items| && c in b.items[i].citations
      ensures c in fetched.citations && fetched.citations[c] in b.citations
                && fetched.citations[c].item == b.items[i].item
    {
      assert Kept(cs, fetched, budget, kept[i]) && b.items[i] == ItemAt(cs, fetched, budget, kept[i]);
      assert c in CitationIds(b.items);
    }
  }

  /** A conflict is shown exactly when every competing item and citation is in the bundle, and by ascending id. */
  lemma ConflictsOverTheBundle(cs: seq<Fused>, fetched: Fetched, budget: nat, b: Bundle, m: Marker)
    requires IsBundle(cs, fetched, budget, b)
    ensures m in b.conflicts <==> m in fetched.conflicts && (forall i :: i in m.items ==> i in AllItemIds(b.items))
                                  && (forall c :: c in m.citations ==> c in CitationIds(b.items))
    ensures forall i, j :: 0 <= i < j < |b.conflicts| ==> !StringLess(b.conflicts[j].id, b.conflicts[i].id)
  {
    assert m in b.conflicts <==> multiset(b.conflicts)[m] > 0;
    assert m in fetched.conflicts <==> multiset(fetched.conflicts)[m] > 0;
    forall i, j | 0 <= i < j < |b.conflicts| ensures !StringLess(b.conflicts[j].id, b.conflicts[i].id) {
      assert !MarkerLess(b.conflicts[j], b.conflicts[i]);
    }
  }
}
