/** The asset service: retiring an asset on the stored tables, its claims and its edges in one transaction. */
module AssetService {
  import opened Base
  import opened CmdbVocabulary
  import L = Ledger
  import LS = LedgerService
  import R = Relationships
  import opened Retirement

  datatype Outcome = Done(closedFacts: nat, closedEdges: nat) | Failed(error: L.Error)

  /** The state the retirement left and the answer it gave. */
  ghost predicate Answers(result: Result, before: Cmdb, now: Cmdb, outcome: Outcome) {
    match result
    case Committed(next, closedFacts, closedEdges) => now == next && outcome == Done(closedFacts, closedEdges)
    case Refused(error) => now == before && outcome == Failed(error)
  }

  /** One session over the claims and the edges. */
  class AssetService {
    const claims: LS.Session
    const graph: R.RelationshipService

    ghost function Contents(): Cmdb
      reads claims, graph
    {
      Cmdb(claims.Now(), graph.Contents())
    }

    constructor (claims: LS.Session, graph: R.RelationshipService)
      ensures this.claims == claims && this.graph == graph
    {
      this.claims, this.graph := claims, graph;
    }

    method Retire(asset: nat, now: int) returns (outcome: Outcome)
      modifies claims, graph
      ensures Answers(Retirement.Retire(old(Contents()), asset, now), old(Contents()), Contents(), outcome)
    {
      if asset !in claims.assets || asset !in graph.assets { return Failed(L.NotFound); }
      if claims.assets[asset].lifecycle == Retired { return Failed(L.AlreadyRetired); }
      if claims.assets[asset].lifecycle == Merged { return Failed(L.MergedAsset); }
      var assets, facts, log := claims.assets, claims.facts, claims.attestations;
      var seen, edges := graph.assets, graph.edges;
      var closedFacts := claims.CloseClaims(asset, now);
      var closedEdges := graph.CloseEdges(asset, now);
      claims.assets := assets[asset := assets[asset].(lifecycle := Retired, retiredAt := Some(now))];
      graph.assets := seen[asset := seen[asset].(lifecycle := Retired)];
      if !L.Constraints(L.State(claims.assets, claims.facts, claims.attestations))
         || !R.Constraints(R.State(graph.assets, graph.edges)) {
        claims.Rollback(assets, facts, log);
        graph.assets, graph.edges := seen, edges;
        return Failed(L.IntegrityError);
      }
      outcome := Done(closedFacts, closedEdges);
    }
  }
}
