/** The truncation count of a bundle against the items that are really cut. */
module TruncationCount {
  import opened Ordering
  import opened Candidates
  import opened Fusion
  import opened Reranking
  import opened Evidence
  import opened EvidenceLaws

  /** A usable candidate with more text than is left for it. */
  predicate Overlong(cs: seq<Fused>, fetched: Fetched, budget: nat, n: nat)
    requires n < |cs|
  {
    Usable(fetched, cs[n].chunk) && |fetched.records[cs[n].chunk].text| > Left(budget, Asked(cs, fetched, n))
  }

  ghost predicate FirstOverlong(cs: seq<Fused>, fetched: Fetched, budget: nat, m: nat) {
    m < |cs| && Overlong(cs, fetched, budget, m) && forall j :: 0 <= j < m ==> !Overlong(cs, fetched, budget, j)
  }

  predicate NoneUsable(cs: seq<Fused>, fetched: Fetched, m: nat, n: nat)
    requires n <= |cs|
  {
    forall j :: m <= j < n ==> !Usable(fetched, cs[j].chunk)
  }

  /** The first overlong candidate is kept, and no evidence comes after it. */
  ghost predicate CutsOnce(cs: seq<Fused>, fetched: Fetched, budget: nat) {
    exists m: nat :: FirstOverlong(cs, fetched, budget, m) && Kept(cs, fetched, budget, m)
                     && NoneUsable(cs, fetched, m + 1, |cs|)
  }

  /** Places of the items that show less than their record's whole text. */
  ghost function CutItems(cs: seq<Fused>, fetched: Fetched, budget: nat, b: Bundle): set<nat>
    requires IsBundle(cs, fetched, budget, b)
  {
    var kept := KeptTo(cs, fetched, budget, |cs|);
    set i: nat | i < |b.items| && b.items[i].excerpt != fetched.records[cs[kept[i]].chunk].text
  }

  lemma {:induction false} FirstOverlongExists(cs: seq<Fused>, fetched: Fetched, budget: nat, n: nat) returns (m: nat)
    requires n <= |cs| && TruncatedTo(cs, fetched, budget, n) > 0
    ensures m < n && FirstOverlong(cs, fetched, budget, m)
  {
    if TruncatedTo(cs, fetched, budget, n - 1) > 0 {
      m := FirstOverlongExists(cs, fetched, budget, n - 1);
    } else {
      m := n - 1;
      forall j | 0 <= j < m ensures !Overlong(cs, fetched, budget, j) { CountedOnce(cs, fetched, budget, j, n - 1); }
    }
  }

  lemma {:induction false} CountedOnce(cs: seq<Fused>, fetched: Fetched, budget: nat, j: nat, n: nat)
    requires j < n <= |cs| && TruncatedTo(cs, fetched, budget, n) == 0
    ensures !Overlong(cs, fetched, budget, j)
  {
    if j < n - 1 { CountedOnce(cs, fetched, budget, j, n - 1); }
  }

  lemma {:induction false} NoneBeforeFirst(cs: seq<Fused>, fetched: Fetched, budget: nat, m: nat, n: nat)
    requires FirstOverlong(cs, fetched, budget, m) && n <= m
    ensures TruncatedTo(cs, fetched, budget, n) == 0
  {
    if n > 0 {
      NoneBeforeFirst(cs, fetched, budget, m, n - 1);
      assert !Overlong(cs, fetched, budget, n - 1);
    }
  }

  /** Nothing is left after the first overlong one, so every usable one after it counts, and none is kept. */
  lemma AfterFirst(cs: seq<Fused>, fetched: Fetched, budget: nat, m: nat, n: nat)
    requires FirstOverlong(cs, fetched, budget, m) && m < n < |cs|
    ensures Overlong(cs, fetched, budget, n) <==> Usable(fetched, cs[n].chunk)
    ensures !Kept(cs, fetched, budget, n)
  {
    AskedGrows(cs, fetched, m + 1, n);
  }

  lemma {:induction false} CountFromFirst(cs: seq<Fused>, fetched: Fetched, budget: nat, m: nat, n: nat)
    requires FirstOverlong(cs, fetched, budget, m) && m < n <= |cs|
    ensures TruncatedTo(cs, fetched, budget, n) >= 1
    ensures TruncatedTo(cs, fetched, budget, n) == 1 <==> NoneUsable(cs, fetched, m + 1, n)
  {
    if n == m + 1 {
      NoneBeforeFirst(cs, fetched, budget, m, m);
    } else {
      CountFromFirst(cs, fetched, budget, m, n - 1);
      AfterFirst(cs, fetched, budget, m, n - 1);
    }
  }

  /** A kept candidate's item is cut exactly when the candidate is overlong. */
  lemma CutIffOverlong(cs: seq<Fused>, fetched: Fetched, budget: nat, n: nat)
    requires n < |cs| && Kept(cs, fetched, budget, n)
    ensures ItemAt(cs, fetched, budget, n).excerpt != fetched.records[cs[n].chunk].text
            <==> Overlong(cs, fetched, budget, n)
  {}

  lemma CutPlaces(cs: seq<Fused>, fetched: Fetched, budget: nat, b: Bundle, i: nat)
    requires IsBundle(cs, fetched, budget, b) && i < |b.items|
    ensures var n := KeptTo(cs, fetched, budget, |cs|)[i];
            n < |cs| && Kept(cs, fetched, budget, n)
            && (i in CutItems(cs, fetched, budget, b) <==> Overlong(cs, fetched, budget, n))
  {
    CutIffOverlong(cs, fetched, budget, KeptTo(cs, fetched, budget, |cs|)[i]);
  }

  lemma CutAtFirst(cs: seq<Fused>, fetched: Fetched, budget: nat, b: Bundle, m: nat, i: nat)
    requires IsBundle(cs, fetched, budget, b) && FirstOverlong(cs, fetched, budget, m)
    ensures i in CutItems(cs, fetched, budget, b) <==> i < |b.items| && KeptTo(cs, fetched, budget, |cs|)[i] == m
  {
    if i < |b.items| {
      var n := KeptTo(cs, fetched, budget, |cs|)[i];
      CutPlaces(cs, fetched, budget, b, i);
      if n > m { AfterFirst(cs, fetched, budget, m, n); }
    }
  }

  lemma PlacesOf(places: set<nat>, kept: seq<nat>, m: nat)
    requires forall i, j :: 0 <= i < j < |kept| ==> kept[i] < kept[j]
    requires forall i: nat :: i in places <==> i < |kept| && kept[i] == m
    ensures |places| == if m in kept then 1 else 0
  {
    if i: nat :| i < |kept| && kept[i] == m {
      assert places == {i};
    } else {
      assert places == {};
    }
  }

  /** The only item that can be cut is that of the first overlong candidate. */
  lemma OnlyFirstIsCut(cs: seq<Fused>, fetched: Fetched, budget: nat, b: Bundle, m: nat)
    requires IsBundle(cs, fetched, budget, b) && FirstOverlong(cs, fetched, budget, m)
    ensures |CutItems(cs, fetched, budget, b)| == if Kept(cs, fetched, budget, m) then 1 else 0
  {
    KeptAreTheKept(cs, fetched, budget, |cs|);
    forall i: nat { CutAtFirst(cs, fetched, budget, b, m, i); }
    PlacesOf(CutItems(cs, fetched, budget, b), KeptTo(cs, fetched, budget, |cs|), m);
  }

  /**
   The count is the number of items that are cut if and only if the budget covers all usable text, or the
   first usable candidate with too much text is kept and no usable one follows it.
   */
  lemma TruncatedAreTheCutIff(cs: seq<Fused>, fetched: Fetched, budget: nat, b: Bundle)
    requires IsBundle(cs, fetched, budget, b)
    ensures b.truncated == |CutItems(cs, fetched, budget, b)| <==>
              Asked(cs, fetched, |cs|) <= 4 * budget || CutsOnce(cs, fetched, budget)
    ensures |CutItems(cs, fetched, budget, b)| <= b.truncated
  {
    NothingTruncatedIff(cs, fetched, budget, |cs|);
    if b.truncated == 0 {
      forall i: nat | i < |b.items| ensures i !in CutItems(cs, fetched, budget, b) {
        CutPlaces(cs, fetched, budget, b, i);
        CountedOnce(cs, fetched, budget, KeptTo(cs, fetched, budget, |cs|)[i], |cs|);
      }
      assert CutItems(cs, fetched, budget, b) == {};
    } else {
      var m := FirstOverlongExists(cs, fetched, budget, |cs|);
      OnlyFirstIsCut(cs, fetched, budget, b, m);
      CountFromFirst(cs, fetched, budget, m, |cs|);
      forall j: nat | FirstOverlong(cs, fetched, budget, j) ensures j == m {}
    }
  }

  // ----- A bundle where the two differ -----

  const TWO := [Fused("a", 0.0, map[], None, None), Fused("b", 0.0, map[], None, None)]
  const LONG := Record("a", Chunk, "abcde", "h", ["ca"], "s", "v", "e")
  const SHORT := Record("b", Chunk, "x", "h", ["cb"], "s", "v", "e")
  const CITED := Citation("ca", "a", "s", "v", "e", "h")
  const OTHER := Citation("cb", "b", "s", "v", "e", "h")
  const FOUND := Fetched(map["a" := LONG, "b" := SHORT], map["ca" := CITED, "cb" := OTHER], [])
  const SHOWN := Item("a", Chunk, "abcd", "h", ["ca"], [])
  const BUNDLE := Bundle([SHOWN], ["a"], [], [CITED], [], 1, 2, 1, 1)

  lemma TwoAreUsable()
    ensures Usable(FOUND, "a") && Usable(FOUND, "b")
    ensures Asked(TWO, FOUND, 0) == 0 && Asked(TWO, FOUND, 1) == 5 && Asked(TWO, FOUND, 2) == 6
  {}

  lemma FirstIsKept()
    ensures Latest(TWO, "a") == Some(TWO[0])
    ensures Kept(TWO, FOUND, 1, 0) && !Kept(TWO, FOUND, 1, 1) && ItemAt(TWO, FOUND, 1, 0) == SHOWN
    ensures KeptTo(TWO, FOUND, 1, 2) == [0] && TruncatedTo(TWO, FOUND, 1, 2) == 2
  {
    TwoAreUsable();
    assert TWO[..1] == [TWO[0]];
    assert KeptTo(TWO, FOUND, 1, 0) == [] && KeptTo(TWO, FOUND, 1, 1) == [0];
    assert TruncatedTo(TWO, FOUND, 1, 0) == 0 && TruncatedTo(TWO, FOUND, 1, 1) == 1;
  }

  lemma ShownIsBundle()
    ensures IsBundle(TWO, FOUND, 1, BUNDLE)
  {
    FirstIsKept();
    assert BUNDLE.items[..0] == [];
    forall c ensures c in CitationIds(BUNDLE.items) <==> c == "ca" {
      if c == "ca" { assert c in BUNDLE.items[0].citations; }
    }
    assert CitedInOrder(BUNDLE, FOUND, ["ca"]);
  }

  /** One token holds four characters: of two candidates one is cut and one dropped, and two count as truncated. */
  lemma TwoCountedOneCut()
    ensures OneEntryAChunk(TWO) && IsBundle(TWO, FOUND, 1, BUNDLE)
    ensures BUNDLE.truncated == 2 && |CutItems(TWO, FOUND, 1, BUNDLE)| == 1
  {
    TwoAreUsable();
    FirstIsKept();
    ShownIsBundle();
    OnlyFirstIsCut(TWO, FOUND, 1, BUNDLE, 0);
  }
}
