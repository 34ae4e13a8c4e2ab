/** Candidates as the retrievers hand them on, with the relationship path some of them carry. */
module Candidates {
  import opened Ordering

  datatype Direction = Outbound | Inbound

  /**
   One edge of the path metadata; anything that is not a well-typed mapping is `Malformed`. An edge
   is `strict` if its depth is an integer proper, not 1.0 or True, and its citations are strings: the
   evidence contract insists on that, while the service only compares and so takes either.
   */
  datatype Edge =
    | Malformed
    | Edge(source: string, target: string, kind: string, direction: Direction, depth: int,
           citations: seq<string>, eligible: bool, strict: bool)

  /** What a relationship candidate carries; None is a missing or ill-typed path. */
  datatype PathData = PathData(edges: Option<seq<Edge>>, endpointEligible: bool)

  /** One retriever's candidate; ranks count from one, and absent signals are None. */
  datatype Candidate = Candidate(
    chunk: string, retrievalPath: string, rank: nat, authority: Option<real>, freshness: Option<real>,
    eligibility: Option<string>, excerpt: Option<string>, trusted: bool, data: PathData)
}
