/**
 Retiring an asset: its claims and its edges are closed in one transaction. The ledger and the edges share the asset table,
 so the two parts are told here together.
 */
module Retirement {
  import opened Base
  import opened CmdbVocabulary
  import L = Ledger
  import LI = LedgerInvariant
  import R = Relationships

  type Time = int

  datatype Cmdb = Cmdb(ledger: L.State, graph: R.State)

  datatype Result = Committed(next: Cmdb, closedFacts: nat, closedEdges: nat) | Refused(error: L.Error)

  /** AssetService.retire: the asset's live claims, the live edges at either end, the asset itself, then one flush. */
  function Retire(c: Cmdb, asset: nat, now: Time): Result {
    if asset !in c.ledger.assets || asset !in c.graph.assets then Refused(L.NotFound)
    else if c.ledger.assets[asset].lifecycle.Retired? then Refused(L.AlreadyRetired)
    else if c.ledger.assets[asset].lifecycle.Merged? then Refused(L.MergedAsset)
    else
      var facts := L.RetireRows(c.ledger.facts, asset, now);
      var edges := R.CloseFor(c.graph.edges, asset, now);
      var row := c.ledger.assets[asset].(lifecycle := Retired, retiredAt := Some(now));
      var seen := c.graph.assets[asset].(lifecycle := Retired);
      var next := Cmdb(c.ledger.(facts := facts, assets := c.ledger.assets[asset := row]),
                       R.State(c.graph.assets[asset := seen], edges));
      if L.Constraints(next.ledger) && R.Constraints(next.graph)
      then Committed(next, L.CountLive(c.ledger.facts, asset), R.CountLive(c.graph.edges, asset))
      else Refused(L.IntegrityError)
  }

  /** The ledger and the edges read the same asset rows. */
  ghost predicate OneAssetTable(c: Cmdb) {
    && c.ledger.assets.Keys == c.graph.assets.Keys
    && forall a :: a in c.ledger.assets ==> c.ledger.assets[a].lifecycle == c.graph.assets[a].lifecycle
  }

  ghost predicate Inv(c: Cmdb, t: Time) { OneAssetTable(c) && LI.Inv(c.ledger, t) && R.Inv(c.graph, t) }

  /** The asset has no live claim and no live edge. */
  ghost predicate NothingLive(c: Cmdb, asset: nat) {
    && (forall i :: 0 <= i < |c.ledger.facts| && c.ledger.facts[i].asset == asset ==> !L.Live(c.ledger.facts[i]))
    && (forall i :: 0 <= i < |c.graph.edges| && R.Touches(c.graph.edges[i], asset) ==> !R.Live(c.graph.edges[i]))
  }

  /** What is not the asset's, or was already closed, is as it was. */
  ghost predicate OthersUntouched(c: Cmdb, n: Cmdb, asset: nat) {
    && |n.ledger.facts| == |c.ledger.facts| && |n.graph.edges| == |c.graph.edges|
    && n.ledger.attestations == c.ledger.attestations
    && (forall i :: 0 <= i < |c.ledger.facts| && (c.ledger.facts[i].asset != asset || !L.Live(c.ledger.facts[i])) ==>
          n.ledger.facts[i] == c.ledger.facts[i])
    && (forall i :: 0 <= i < |c.graph.edges| && (!R.Touches(c.graph.edges[i], asset) || !R.Live(c.graph.edges[i])) ==>
          n.graph.edges[i] == c.graph.edges[i])
    && (forall a :: a in c.ledger.assets && a in c.graph.assets && a != asset ==>
          a in n.ledger.assets && a in n.graph.assets
          && n.ledger.assets[a] == c.ledger.assets[a] && n.graph.assets[a] == c.graph.assets[a])
  }

  ghost function LiveClaims(facts: seq<L.Fact>, asset: nat): set<nat> {
    set i: nat | i < |facts| && facts[i].asset == asset && L.Live(facts[i])
  }

  ghost function LiveEdges(edges: seq<R.Edge>, asset: nat): set<nat> {
    set i: nat | i < |edges| && R.Live(edges[i]) && R.Touches(edges[i], asset)
  }

  lemma {:induction false} ClaimsCounted(facts: seq<L.Fact>, asset: nat)
    ensures L.CountLive(facts, asset) == |LiveClaims(facts, asset)|
  {
    if facts != [] {
      var last := |facts| - 1;
      ClaimsCounted(facts[..last], asset);
      var more := if facts[last].asset == asset && L.Live(facts[last]) then {last} else {};
      assert LiveClaims(facts, asset) == LiveClaims(facts[..last], asset) + more;
    }
  }

  lemma {:induction false} EdgesCounted(edges: seq<R.Edge>, asset: nat)
    ensures R.CountLive(edges, asset) == |LiveEdges(edges, asset)|
  {
    if edges != [] {
      var last := |edges| - 1;
      EdgesCounted(edges[..last], asset);
      var more := if R.Live(edges[last]) && R.Touches(edges[last], asset) then {last} else {};
      assert LiveEdges(edges, asset) == LiveEdges(edges[..last], asset) + more;
    }
  }

  /** What was live of the asset ends now, a claim becoming stale unless a person stood behind it; the asset is retired. */
  ghost predicate EndsNow(c: Cmdb, n: Cmdb, asset: nat, now: Time) {
    && |n.ledger.facts| == |c.ledger.facts| && |n.graph.edges| == |c.graph.edges|
    && (forall i :: i in LiveClaims(c.ledger.facts, asset) ==>
          var f := c.ledger.facts[i];
          n.ledger.facts[i] == f.(validTo := Some(now), status := if IsAuthoritative(f.status) then f.status else Stale))
    && (forall i :: i in LiveEdges(c.graph.edges, asset) ==>
          n.graph.edges[i] == c.graph.edges[i].(validTo := Some(now)))
    && asset in n.ledger.assets && n.ledger.assets[asset].lifecycle.Retired?
    && n.ledger.assets[asset].retiredAt == Some(now)
  }

  /** The two parts in one transaction are the two parts. */
  lemma RetireIsBothParts(c: Cmdb, asset: nat, now: Time)
    requires OneAssetTable(c)
    ensures var r, facts, edges := Retire(c, asset, now), L.RetireAsset(c.ledger, asset, now), R.RetireAsset(c.graph, asset, now);
      && (r.Committed? <==> facts.Committed? && edges.Committed?)
      && (r.Committed? ==>
            facts == L.Committed(r.next.ledger, L.RetiredAsset(r.closedFacts))
            && edges == R.Committed(r.next.graph, R.ClosedEdges(r.closedEdges)))
  {
  }

  /** Retirement is refused exactly for an asset that is unknown, retired or merged, never by a constraint; otherwise the
      one transaction ends what was live of it, counts it, and leaves everything else as it was. */
  lemma RetireExactly(c: Cmdb, t: Time, asset: nat, now: Time)
    requires Inv(c, t) && t <= now
    ensures var r := Retire(c, asset, now);
      && (r.Committed? <==> asset in c.ledger.assets
                             && !c.ledger.assets[asset].lifecycle.Retired? && !c.ledger.assets[asset].lifecycle.Merged?)
      && r != Refused(L.IntegrityError)
      && (r.Committed? ==>
            && Inv(r.next, now)
            && NothingLive(r.next, asset) && EndsNow(c, r.next, asset, now) && OthersUntouched(c, r.next, asset)
            && r.closedFacts == |LiveClaims(c.ledger.facts, asset)| && r.closedEdges == |LiveEdges(c.graph.edges, asset)|)
  {
    LI.RetireExactly(c.ledger, t, asset, now);
    R.RetireAssetNeverTrips(c.graph, t, asset, now);
    RetireIsBothParts(c, asset, now);
    var r := Retire(c, asset, now);
    if r.Committed? {
      ClaimsCounted(c.ledger.facts, asset);
      EdgesCounted(c.graph.edges, asset);
      RetiredEffects(c, asset, now);
    }
  }

  lemma RetiredEffects(c: Cmdb, asset: nat, now: Time)
    requires Retire(c, asset, now).Committed?
    ensures var n := Retire(c, asset, now).next;
      NothingLive(n, asset) && EndsNow(c, n, asset, now) && OthersUntouched(c, n, asset)
  {
  }

  // ---- Runs over both parts ----

  type FactOp = op: L.Op | op.DoAssert? || op.DoDesire? || op.DoTransition? witness L.DoTransition(0, Verify, "", 0)
  type EdgeOp = op: R.Op | op.DoAssert? || op.DoRetireEdge? witness R.DoRetireEdge(0, 0)

  datatype Op =
    | OnFacts(fact: FactOp)
    | OnEdges(edge: EdgeOp)
    | DoRetire(asset: nat, at: Time)
    | DoUpdate(asset: nat, displayName: string, lifecycle: OpenState, at: Time)
    | DoRegister(asset: nat, assetType: R.AssetType, displayName: string, lifecycle: OpenState, at: Time)
  {
    function Now(): Time {
      match this
      case OnFacts(op) => op.now
      case OnEdges(op) => op.now
      case DoRetire(_, now) => now
      case DoUpdate(_, _, _, now) => now
      case DoRegister(_, _, _, _, now) => now
    }
  }

  /** Both parts of one transaction on an asset row commit, or neither does. */
  function Both(c: Cmdb, facts: L.Result, edges: R.Result): Cmdb {
    if facts.Committed? && edges.Committed? then Cmdb(facts.next, edges.next) else c
  }

  function Step(same: L.Equality, c: Cmdb, op: Op): Cmdb {
    match op
    case OnFacts(f) => c.(ledger := L.Step(same, c.ledger, f))
    case OnEdges(e) => c.(graph := R.Step(c.graph, e))
    case DoRetire(asset, now) => (match Retire(c, asset, now) case Committed(n, _, _) => n case Refused(_) => c)
    case DoUpdate(asset, name, lifecycle, now) =>
      Both(c, L.UpdateLifecycle(c.ledger, asset, lifecycle), R.UpdateAsset(c.graph, asset, name, lifecycle))
    case DoRegister(asset, assetType, name, lifecycle, now) =>
      Both(c, L.RegisterAsset(c.ledger, asset, lifecycle, now), R.Register(c.graph, asset, R.Asset(assetType, name, lifecycle)))
  }

  function Run(same: L.Equality, c: Cmdb, ops: seq<Op>): Cmdb {
    if ops == [] then c else Step(same, Run(same, c, ops[..|ops| - 1]), ops[|ops| - 1])
  }

  const EMPTY := Cmdb(L.EMPTY, R.EMPTY)

  ghost predicate Monotone(ops: seq<Op>) { forall i, j :: 0 <= i < j < |ops| ==> ops[i].Now() <= ops[j].Now() }

  lemma FactOpsKeepAssets(same: L.Equality, s: L.State, op: FactOp)
    ensures L.Step(same, s, op).assets.Keys == s.assets.Keys
    ensures forall a :: a in s.assets ==> L.Step(same, s, op).assets[a].lifecycle == s.assets[a].lifecycle
  {
  }

  lemma EdgeOpsKeepAssets(s: R.State, op: EdgeOp)
    ensures R.Step(s, op).assets == s.assets
  {
  }

  lemma StepKeeps(same: L.Equality, c: Cmdb, t: Time, op: Op)
    requires Inv(c, t) && t <= op.Now()
    ensures Inv(Step(same, c, op), op.Now())
  {
    LI.InvLater(c.ledger, t, op.Now());
    R.InvLater(c.graph, t, op.Now());
    match op
    case OnFacts(f) =>
      LI.StepKeeps(same, c.ledger, t, f);
      FactOpsKeepAssets(same, c.ledger, f);
    case OnEdges(e) =>
      R.StepKeeps(c.graph, t, e);
      EdgeOpsKeepAssets(c.graph, e);
    case DoRetire(asset, now) => RetireExactly(c, t, asset, now);
    case DoUpdate(asset, name, lifecycle, now) =>
      LI.AssetStepsKeep(c.ledger, t, asset, lifecycle, now);
      R.UpdateAssetNeverTrips(c.graph, t, asset, name, lifecycle, now);
    case DoRegister(asset, assetType, name, lifecycle, now) =>
      LI.AssetStepsKeep(c.ledger, t, asset, lifecycle, now);
      R.RegisterKeeps(c.graph, t, asset, R.Asset(assetType, name, lifecycle), now);
  }

  /** Over every run of claims, edges, trust, updates and retirements the shared asset table stays one table and both
      invariants hold; so a retirement is refused at any moment only for what its asset is. */
  lemma {:induction false} RetirementOverRuns(same: L.Equality, ops: seq<Op>, t: Time)
    requires Monotone(ops) && forall i :: 0 <= i < |ops| ==> ops[i].Now() <= t
    ensures Inv(Run(same, EMPTY, ops), t)
    ensures forall asset, now :: t <= now ==> Retire(Run(same, EMPTY, ops), asset, now) != Refused(L.IntegrityError)
  {
    if ops != [] {
      var last := |ops| - 1;
      RetirementOverRuns(same, ops[..last], ops[last].Now());
      StepKeeps(same, Run(same, EMPTY, ops[..last]), ops[last].Now(), ops[last]);
    }
    var c := Run(same, EMPTY, ops);
    if ops != [] {
      LI.InvLater(c.ledger, ops[|ops| - 1].Now(), t);
      R.InvLater(c.graph, ops[|ops| - 1].Now(), t);
    }
    forall asset, now | t <= now ensures Retire(c, asset, now) != Refused(L.IntegrityError) {
      RetireExactly(c, t, asset, now);
    }
  }
}
