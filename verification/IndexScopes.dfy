/** One index row's source list as the embedding planner reads it and as retrieval reads it. */
module IndexScopes {
  import opened Ordering
  import Filters = CorpusFilters
  import Tables = EmbeddingTables
  import Planning = EmbeddingPlanning

  /** The `source_ids` entry of an index's source scope; None where the entry is absent. */
  type SourceList = Option<seq<string>>

  /** To the planner a list, be it empty, names the sources there are. */
  function PlannerScope(list: SourceList): Option<set<string>> {
    if list.None? then None else Some(set s | s in list.value)
  }

  /** To retrieval a missing list and an empty one are the same. */
  function RetrievalScope(list: SourceList): seq<string> { if list.None? then [] else list.value }

  predicate PlannerTakes(list: SourceList, source: string) {
    PlannerScope(list).Some? ==> source in PlannerScope(list).value
  }

  /** Both tables hold the row of the same index, fit for the retriever that asks for it. */
  ghost predicate SameRow(db: Tables.Db, indexes: map<string, Filters.Index>, index: string, list: SourceList,
                          d: Filters.Demand)
  {
    && index in db.scopes && db.scopes[index] == PlannerScope(list)
    && index in indexes && indexes[index].sourceIds == RetrievalScope(list) && Filters.Usable(indexes[index], d)
  }

  /** Planner and retrieval take the same sources of an index if and only if its list is absent or not empty. */
  lemma ReadingsAgreeIff(db: Tables.Db, indexes: map<string, Filters.Index>, index: string, list: SourceList,
                         d: Filters.Demand)
    requires SameRow(db, indexes, index, list, d)
    ensures (forall source :: PlannerTakes(list, source) <==> Filters.IndexAdmits(indexes, Some(index), d, source))
            <==> list != Some([])
    ensures forall c :: Tables.InScope(db, index, c) <==> c in db.chunks && PlannerTakes(list, db.chunks[c].source)
  {
    if list == Some([]) {
      assert !PlannerTakes(list, "") && Filters.IndexAdmits(indexes, Some(index), d, "");
    }
  }

  /**
   With an empty list retrieval searches every source and a plan leaves nothing of the index active or
   queued anew.
   */
  lemma EmptyListEmbedsNothing(db: Tables.Db, indexes: map<string, Filters.Index>, model: string, index: string,
                               listing: seq<string>, d: Filters.Demand)
    requires SameRow(db, indexes, index, Some([]), d) && Planning.OneCurrent(db)
    requires Tables.IsListing(db, index, listing) && forall c :: c in listing ==> c in db.chunks
    ensures forall source :: Filters.IndexAdmits(indexes, Some(index), d, source)
    ensures var r := Tables.Plan(db, model, index, listing);
            && r.Ok? && r.value.0.jobs == db.jobs
            && forall k: Tables.Key :: k.model == model && k.index == index ==> !Tables.HasActive(r.value.0.vectors, k)
  {
    Planning.ListingDistinct(db, index, listing);
    assert multiset(listing) == multiset{};
    assert |listing| == |multiset(listing)|;
    Planning.UnlimitedPlanCovers(db, model, index, listing);
  }
}
