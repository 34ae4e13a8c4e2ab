/** Assembly of ranked candidates into a bundle of evidence that fits a token budget. */
module Evidence {
  import opened Ordering
  import opened Candidates
  import opened Fusion
  import opened Reranking
  import Paths = RelationshipPaths

  datatype Kind = Chunk | Memory

  datatype Record = Record(
    item: string, kind: Kind, text: string, hash: string, citations: seq<string>,
    source: string, version: string, eligibility: string)

  datatype Citation = Citation(
    id: string, item: string, source: string, version: string, eligibility: string, hash: string)

  datatype Marker = Marker(id: string, items: seq<string>, citations: seq<string>)

  /** What the fetcher returned for the candidates. */
  datatype Fetched = Fetched(records: map<string, Record>, citations: map<string, Citation>, conflicts: seq<Marker>)

  datatype Item = Item(item: string, kind: Kind, excerpt: string, hash: string, citations: seq<string>, path: seq<Edge>)

  datatype Bundle = Bundle(
    items: seq<Item>, chunkIds: seq<string>, memoryIds: seq<string>, citations: seq<Citation>, conflicts: seq<Marker>,
    dropped: nat, truncated: nat, budget: nat, estimated: nat)

  /** A kept item that no candidate is named for has no diagnostics to report. */
  datatype AssemblyError = NoSuchCandidate

  // ----- Which candidates have evidence -----

  predicate Supports(c: Citation, r: Record) {
    && c.item == r.item && c.source == r.source && c.version == r.version
    && c.eligibility == r.eligibility && c.hash != "" && c.hash == r.hash
  }

  predicate Usable(fetched: Fetched, id: string) {
    && id in fetched.records
    && var r := fetched.records[id];
       && r.text != "" && r.hash != "" && r.citations != []
       && forall c :: c in r.citations ==> c in fetched.citations && Supports(fetched.citations[c], r)
  }

  function PathOf(f: Fused): Option<Option<seq<Edge>>> {
    if "relationship" in f.paths then Some(f.paths["relationship"].data.edges) else None
  }

  /** A candidate found over relationships must carry an acceptable path; any other passes. */
  ghost predicate PathAccepted(f: Fused, allowed: set<string>) {
    PathOf(f).Some? ==> Paths.EvidenceAccepts(PathOf(f).value, f.chunk, allowed)
  }

  function ShownPath(f: Fused): seq<Edge> {
    if PathOf(f).Some? && PathOf(f).value.Some? then PathOf(f).value.value else []
  }

  // ----- The budget -----

  /** Characters asked for by the usable candidates among the first n, whatever became of them. */
  function Asked(cs: seq<Fused>, fetched: Fetched, n: nat): nat
    requires n <= |cs|
  {
    if n == 0 then 0
    else
      Asked(cs, fetched, n - 1)
      + if Usable(fetched, cs[n - 1].chunk) then |fetched.records[cs[n - 1].chunk].text| else 0
  }

  /** Characters left of a budget of four a token. */
  function Left(budget: nat, asked: nat): nat { if asked < 4 * budget then 4 * budget - asked else 0 }

  /** The n-th candidate becomes an item: evidence, characters left, and an acceptable path. */
  ghost predicate Kept(cs: seq<Fused>, fetched: Fetched, budget: nat, n: nat)
    requires n < |cs|
  {
    && Usable(fetched, cs[n].chunk) && Left(budget, Asked(cs, fetched, n)) > 0
    && Latest(cs, cs[n].chunk).Some?
    && PathAccepted(Latest(cs, cs[n].chunk).value, set c | c in fetched.records[cs[n].chunk].citations)
  }

  function ItemFor(r: Record, left: nat, f: Fused): Item {
    Item(r.item, r.kind, Cut(r.text, left), r.hash, r.citations, ShownPath(f))
  }

  ghost function ItemAt(cs: seq<Fused>, fetched: Fetched, budget: nat, n: nat): Item
    requires n < |cs| && Kept(cs, fetched, budget, n)
  {
    ItemFor(fetched.records[cs[n].chunk], Left(budget, Asked(cs, fetched, n)), Latest(cs, cs[n].chunk).value)
  }

  /** The kept ones of the first n candidates, in order. */
  ghost function KeptTo(cs: seq<Fused>, fetched: Fetched, budget: nat, n: nat): seq<nat>
    requires n <= |cs|
  {
    if n == 0 then []
    else KeptTo(cs, fetched, budget, n - 1) + if Kept(cs, fetched, budget, n - 1) then [n - 1] else []
  }

  ghost predicate ItemsAre(cs: seq<Fused>, fetched: Fetched, budget: nat, kept: seq<nat>, items: seq<Item>) {
    && |items| == |kept|
    && forall i :: 0 <= i < |kept| ==>
         kept[i] < |cs| && Kept(cs, fetched, budget, kept[i]) && items[i] == ItemAt(cs, fetched, budget, kept[i])
  }

  /** A usable candidate whose text is longer than what is left is counted as truncated, kept or not. */
  function TruncatedTo(cs: seq<Fused>, fetched: Fetched, budget: nat, n: nat): nat
    requires n <= |cs|
  {
    if n == 0 then 0
    else
      TruncatedTo(cs, fetched, budget, n - 1)
      + if Usable(fetched, cs[n - 1].chunk)
           && |fetched.records[cs[n - 1].chunk].text| > Left(budget, Asked(cs, fetched, n - 1)) then 1 else 0
  }

  lemma {:induction false} KeptAreTheKept(cs: seq<Fused>, fetched: Fetched, budget: nat, n: nat)
    requires n <= |cs|
    ensures forall j :: 0 <= j < |cs| ==>
              (j in KeptTo(cs, fetched, budget, n) <==> j < n && Kept(cs, fetched, budget, j))
    ensures forall j :: j in KeptTo(cs, fetched, budget, n) ==> j < n
    ensures forall i, j :: 0 <= i < j < |KeptTo(cs, fetched, budget, n)| ==>
              KeptTo(cs, fetched, budget, n)[i] < KeptTo(cs, fetched, budget, n)[j]
  {
    if n > 0 {
      KeptAreTheKept(cs, fetched, budget, n - 1);
      var most, all := KeptTo(cs, fetched, budget, n - 1), KeptTo(cs, fetched, budget, n);
      assert all == if Kept(cs, fetched, budget, n - 1) then most + [n - 1] else most;
      forall i, j | 0 <= i < j < |all| ensures all[i] < all[j] {
        assert i < |most| && most[i] in most;
      }
    }
  }

  /** What the items use is what is asked for, up to the budget. */
  function TextLength(items: seq<Item>): nat {
    if items == [] then 0 else TextLength(items[..|items| - 1]) + |items[|items| - 1].excerpt|
  }

  function CitationIds(items: seq<Item>): set<string> {
    set i, c | 0 <= i < |items| && c in items[i].citations :: c
  }

  function Estimate(chars: nat): nat { (chars + 3) / 4 }

  // ----- Assembly -----

  /** Items, used citations and counts after n candidates. */
  datatype Progress = Progress(items: seq<Item>, used: set<string>, dropped: nat, truncated: nat, remaining: nat)

  ghost predicate Reached(cs: seq<Fused>, fetched: Fetched, budget: nat, n: nat, p: Progress)
    requires n <= |cs|
  {
    && ItemsAre(cs, fetched, budget, KeptTo(cs, fetched, budget, n), p.items)
    && p.used == CitationIds(p.items) && |p.items| + p.dropped == n
    && p.truncated == TruncatedTo(cs, fetched, budget, n)
    && p.remaining == Left(budget, Asked(cs, fetched, n))
  }

  lemma CitationIdsOfMore(items: seq<Item>, item: Item)
    ensures CitationIds(items + [item]) == CitationIds(items) + set c | c in item.citations
  {
    var more := items + [item];
    forall c ensures c in CitationIds(more) <==> c in CitationIds(items) || c in item.citations {
      if c in CitationIds(items) {
        var i :| 0 <= i < |items| && c in items[i].citations;
        assert more[i] == items[i];
      }
      assert more[|items|] == item;
    }
  }

  lemma ReachedKept(cs: seq<Fused>, fetched: Fetched, budget: nat, n: nat, p: Progress, item: Item, t: nat)
    requires n < |cs| && Reached(cs, fetched, budget, n, p) && Kept(cs, fetched, budget, n)
    requires item == ItemAt(cs, fetched, budget, n)
    requires t == if |fetched.records[cs[n].chunk].text| > p.remaining then 1 else 0
    ensures Reached(cs, fetched, budget, n + 1,
                    Progress(p.items + [item], p.used + (set c | c in item.citations), p.dropped, p.truncated + t,
                             Left(budget, Asked(cs, fetched, n + 1))))
  {
    CitationIdsOfMore(p.items, item);
    ItemsOneMore(cs, fetched, budget, KeptTo(cs, fetched, budget, n), p.items, n);
  }

  lemma ItemsOneMore(cs: seq<Fused>, fetched: Fetched, budget: nat, kept: seq<nat>, items: seq<Item>, n: nat)
    requires n < |cs| && Kept(cs, fetched, budget, n) && ItemsAre(cs, fetched, budget, kept, items)
    ensures ItemsAre(cs, fetched, budget, kept + [n], items + [ItemAt(cs, fetched, budget, n)])
  {}

  lemma ReachedDropped(cs: seq<Fused>, fetched: Fetched, budget: nat, n: nat, p: Progress, t: nat)
    requires n < |cs| && Reached(cs, fetched, budget, n, p) && !Kept(cs, fetched, budget, n)
    requires t == if Usable(fetched, cs[n].chunk) && |fetched.records[cs[n].chunk].text| > p.remaining then 1 else 0
    ensures Reached(cs, fetched, budget, n + 1,
                    Progress(p.items, p.used, p.dropped + 1, p.truncated + t, Left(budget, Asked(cs, fetched, n + 1))))
  {}

  method PathAllows(f: Fused, allowed: set<string>) returns (ok: bool)
    ensures ok <==> PathAccepted(f, allowed)
  {
    if "relationship" !in f.paths { return true; }
    ok := Paths.EvidencePath(f.paths["relationship"].data.edges, f.chunk, allowed);
  }

  /** One turn of the loop over candidates. */
  method Take(cs: seq<Fused>, fetched: Fetched, ghost budget: nat, n: nat, index: map<string, Fused>, p: Progress)
    returns (q: Progress)
    requires n < |cs| && Indexes(cs, index) && Reached(cs, fetched, budget, n, p)
    ensures Reached(cs, fetched, budget, n + 1, q)
  {
    var id := cs[n].chunk;
    if !Usable(fetched, id) {
      ReachedDropped(cs, fetched, budget, n, p, 0);
      return p.(dropped := p.dropped + 1);
    }
    var record := fetched.records[id];
    var excerpt := Cut(record.text, p.remaining);
    var t := if |excerpt| < |record.text| then 1 else 0;
    var remaining := if |excerpt| < p.remaining then p.remaining - |excerpt| else 0;
    LatestIsMember(cs, id);
    var pathOk := PathAllows(index[id], set c | c in record.citations);
    if excerpt == "" || !pathOk {
      ReachedDropped(cs, fetched, budget, n, p, t);
      return Progress(p.items, p.used, p.dropped + 1, p.truncated + t, remaining);
    }
    var item := ItemFor(record, p.remaining, index[id]);
    ReachedKept(cs, fetched, budget, n, p, item, t);
    q := Progress(p.items + [item], p.used + (set c | c in record.citations), p.dropped, p.truncated + t, remaining);
  }

  method TakeAll(cs: seq<Fused>, fetched: Fetched, budget: nat) returns (p: Progress)
    ensures Reached(cs, fetched, budget, |cs|, p)
  {
    var index := IndexByChunk(cs);
    p := Progress([], {}, 0, 0, budget * 4);
    for n := 0 to |cs|
      invariant Reached(cs, fetched, budget, n, p)
    {
      p := Take(cs, fetched, budget, n, index, p);
    }
  }

  /** Citations used by kept items exist. */
  lemma UsedCitationsKnown(cs: seq<Fused>, fetched: Fetched, budget: nat, p: Progress)
    requires Reached(cs, fetched, budget, |cs|, p)
    ensures forall c :: c in p.used ==> c in fetched.citations
  {
    var kept := KeptTo(cs, fetched, budget, |cs|);
    forall c | c in p.used ensures c in fetched.citations {
      var i :| 0 <= i < |p.items| && c in p.items[i].citations;
      assert Kept(cs, fetched, budget, kept[i]);
    }
  }

  predicate MarkerKept(m: Marker, items: set<string>, used: set<string>) {
    (forall i :: i in m.items ==> i in items) && (forall c :: c in m.citations ==> c in used)
  }

  function KeepMarkers(ms: seq<Marker>, items: set<string>, used: set<string>): (r: seq<Marker>)
    ensures forall m :: multiset(r)[m] == if MarkerKept(m, items, used) then multiset(ms)[m] else 0
  {
    if ms == [] then []
    else
      assert ms == [ms[0]] + ms[1..];
      (if MarkerKept(ms[0], items, used) then [ms[0]] else []) + KeepMarkers(ms[1..], items, used)
  }

  predicate MarkerLess(a: Marker, b: Marker) { StringLess(a.id, b.id) }

  lemma MarkerOrderWeak()
    ensures StrictWeakOrder(MarkerLess)
  {
    StringLessTotal();
    TotalIsWeak(StringLess);
  }

  lemma {:induction false} KeepMarkersAscends(ms: seq<Marker>, items: set<string>, used: set<string>)
    requires Ascending(MarkerLess, ms)
    ensures Ascending(MarkerLess, KeepMarkers(ms, items, used))
  {
    if ms != [] {
      assert Ascending(MarkerLess, ms[1..]) by {
        forall i, j | 0 <= i < j < |ms[1..]| ensures !MarkerLess(ms[1..][j], ms[1..][i]) {
          assert ms[1..][i] == ms[i + 1] && ms[1..][j] == ms[j + 1];
        }
      }
      KeepMarkersAscends(ms[1..], items, used);
      var rest := KeepMarkers(ms[1..], items, used);
      forall j | 0 <= j < |rest| ensures !MarkerLess(rest[j], ms[0]) {
        var k := KeptMarkerAt(ms[1..], items, used, j);
        assert ms[k + 1] == rest[j];
      }
    }
  }

  lemma KeptMarkerAt(ms: seq<Marker>, items: set<string>, used: set<string>, j: nat) returns (k: nat)
    requires j < |KeepMarkers(ms, items, used)|
    ensures k < |ms| && ms[k] == KeepMarkers(ms, items, used)[j]
  {
    var m := KeepMarkers(ms, items, used)[j];
    assert m in multiset(KeepMarkers(ms, items, used));
    assert multiset(ms)[m] > 0;
    k :| 0 <= k < |ms| && ms[k] == m;
  }

  function ItemIds(items: seq<Item>, kind: Kind): seq<string> {
    if items == [] then []
    else
      var i := items[|items| - 1];
      ItemIds(items[..|items| - 1], kind) + if i.kind == kind then [i.item] else []
  }

  function AllItemIds(items: seq<Item>): set<string> { set i | 0 <= i < |items| :: items[i].item }

  method Assemble(cs: seq<Fused>, fetched: Fetched, budget: nat) returns (r: Result<Bundle, AssemblyError>)
    ensures r.Ok? ==> IsBundle(cs, fetched, budget, r.value)
    ensures r.Err? <==> exists n: nat :: Orphan(cs, fetched, budget, n)
  {
    var p := TakeAll(cs, fetched, budget);
    UsedCitationsKnown(cs, fetched, budget, p);
    var ids := SortedStrings(p.used);
    assert forall i :: 0 <= i < |ids| ==> ids[i] in p.used by { assert forall i :: 0 <= i < |ids| ==> ids[i] in ids; }
    var citations := seq(|ids|, i requires 0 <= i < |ids| && ids[i] in fetched.citations => fetched.citations[ids[i]]);
    var conflicts := KeepMarkers(Sort(MarkerLess, fetched.conflicts), AllItemIds(p.items), p.used);
    MarkersAre(fetched.conflicts, AllItemIds(p.items), p.used);
    OrphansShow(cs, fetched, budget, p.items);
    if AllItemIds(p.items) - Chunks(cs) != {} { return Err(NoSuchCandidate); }
    var b := Bundle(p.items, ItemIds(p.items, Chunk), ItemIds(p.items, Memory), citations, conflicts,
                    p.dropped, p.truncated, budget, Estimate(TextLength(p.items)));
    assert CitedInOrder(b, fetched, ids);
    return Ok(b);
  }

  lemma MarkersAre(ms: seq<Marker>, items: set<string>, used: set<string>)
    ensures Ascending(MarkerLess, KeepMarkers(Sort(MarkerLess, ms), items, used))
    ensures forall m :: multiset(KeepMarkers(Sort(MarkerLess, ms), items, used))[m]
                        == if MarkerKept(m, items, used) then multiset(ms)[m] else 0
  {
    MarkerOrderWeak();
    SortAscends(MarkerLess, ms);
    SortPermutes(MarkerLess, ms);
    KeepMarkersAscends(Sort(MarkerLess, ms), items, used);
  }

  /** A kept item whose own id is no candidate's. */
  ghost predicate Orphan(cs: seq<Fused>, fetched: Fetched, budget: nat, n: nat) {
    n < |cs| && Kept(cs, fetched, budget, n) && fetched.records[cs[n].chunk].item !in Chunks(cs)
  }

  lemma OrphansShow(cs: seq<Fused>, fetched: Fetched, budget: nat, items: seq<Item>)
    requires ItemsAre(cs, fetched, budget, KeptTo(cs, fetched, budget, |cs|), items)
    ensures AllItemIds(items) - Chunks(cs) != {} <==> exists n: nat :: Orphan(cs, fetched, budget, n)
  {
    var kept := KeptTo(cs, fetched, budget, |cs|);
    KeptAreTheKept(cs, fetched, budget, |cs|);
    if AllItemIds(items) - Chunks(cs) != {} {
      var x :| x in AllItemIds(items) - Chunks(cs);
      var i :| 0 <= i < |items| && items[i].item == x;
      assert Orphan(cs, fetched, budget, kept[i]);
    }
    if n: nat :| Orphan(cs, fetched, budget, n) {
      assert n in kept;
      var i :| 0 <= i < |kept| && kept[i] == n;
      assert items[i].item in AllItemIds(items) - Chunks(cs);
    }
  }

  /** The citations are those of the ascending ids, which are exactly the ids the items cite. */
  ghost predicate CitedInOrder(b: Bundle, fetched: Fetched, ids: seq<string>) {
    && StrictlyAscending(StringLess, ids) && (forall c :: c in ids <==> c in CitationIds(b.items))
    && |b.citations| == |ids|
    && forall i :: 0 <= i < |ids| ==> ids[i] in fetched.citations && b.citations[i] == fetched.citations[ids[i]]
  }

  /** The bundle, said directly. */
  ghost predicate IsBundle(cs: seq<Fused>, fetched: Fetched, budget: nat, b: Bundle) {
    && ItemsAre(cs, fetched, budget, KeptTo(cs, fetched, budget, |cs|), b.items)
    && |b.items| + b.dropped == |cs|
    && b.truncated == TruncatedTo(cs, fetched, budget, |cs|)
    && b.chunkIds == ItemIds(b.items, Chunk) && b.memoryIds == ItemIds(b.items, Memory)
    && b.budget == budget && b.estimated == Estimate(TextLength(b.items))
    && (exists ids :: CitedInOrder(b, fetched, ids))
    && Ascending(MarkerLess, b.conflicts)
    && (forall m :: multiset(b.conflicts)[m]
                    == if MarkerKept(m, AllItemIds(b.items), CitationIds(b.items)) then multiset(fetched.conflicts)[m]
                       else 0)
  }
}
