/** Typed edges between assets: asserting, retiring, and reading them from either end. */
module Relationships {
  import opened Base
  import opened CmdbVocabulary
  import Orders

  type Time = int
  type AssetId = nat

  // ---- The relationship registry ----

  datatype AssetType =
    | Device | Cluster | Host | Vm | Container | NetworkInterface | SwitchPort | Vlan | IpAddress | MacAddress
    | Service | StorageDevice | Gpu | Application | User | Location

  datatype RelType = HasInterface | ConnectedTo | MemberOf | RunsOn | DependsOn | IpAssignedTo | UsesStorage

  datatype EdgeSpec = EdgeSpec(symmetric: bool, sources: set<AssetType>, targets: set<AssetType>)
  {
    /** An empty side is unconstrained. */
    predicate Permits(source: AssetType, target: AssetType) {
      (sources == {} || source in sources) && (targets == {} || target in targets)
    }
  }

  function SpecOf(t: RelType): EdgeSpec {
    match t
    case HasInterface => EdgeSpec(false, {Device, Host, Vm}, {NetworkInterface})
    case ConnectedTo => EdgeSpec(true, {NetworkInterface, SwitchPort, Device}, {NetworkInterface, SwitchPort, Device})
    case MemberOf => EdgeSpec(false, {SwitchPort, Host, Vm}, {Vlan, Device, Cluster})
    case RunsOn => EdgeSpec(false, {Vm, Container, Service}, {Host, Vm, Device})
    case DependsOn => EdgeSpec(false, {Service, Application}, {Service, Application})
    case IpAssignedTo => EdgeSpec(false, {IpAddress}, {NetworkInterface})
    case UsesStorage => EdgeSpec(false, {Vm, Host, Service}, {StorageDevice})
  }

  function TypeLabel(t: RelType): string {
    match t
    case HasInterface => "HAS_INTERFACE"
    case ConnectedTo => "CONNECTED_TO"
    case MemberOf => "MEMBER_OF"
    case RunsOn => "RUNS_ON"
    case DependsOn => "DEPENDS_ON"
    case IpAssignedTo => "IP_ASSIGNED_TO"
    case UsesStorage => "USES_STORAGE"
  }

  /** How the edge reads from its target's side. */
  function InverseLabel(t: RelType): string {
    match t
    case HasInterface => "INTERFACE_OF"
    case ConnectedTo => "CONNECTED_TO"
    case MemberOf => "HAS_MEMBER"
    case RunsOn => "HOSTS"
    case DependsOn => "REQUIRED_BY"
    case IpAssignedTo => "HAS_IP"
    case UsesStorage => "PROVIDES_STORAGE"
  }

  // ---- Tables ----

  datatype Asset = Asset(assetType: AssetType, displayName: string, lifecycle: LifecycleState)

  /** One row of asset_relationship; its id is its position. No service of this part writes its verified and approved
      attribution, which stays null. */
  datatype Edge = Edge(
    relType: RelType, source: AssetId, target: AssetId, symmetric: bool, qualifier: Option<string>,
    statementClass: StatementClass, sourceType: SourceType, sourceId: string, confidence: Confidence, status: Status,
    supersedes: Option<nat>, validFrom: Time, validTo: Option<Time>, lastSeen: Time)

  datatype State = State(assets: map<AssetId, Asset>, edges: seq<Edge>)

  predicate Live(e: Edge) { e.validTo.None? }

  function Coalesce(q: Option<string>): string { if q.None? then "" else q.value }

  /** The edge a source claims, whatever the qualifier: what a new assertion replaces. */
  predicate SameClaim(e: Edge, f: Edge) {
    e.source == f.source && e.relType == f.relType && e.target == f.target && e.sourceId == f.sourceId
  }

  predicate Covers(e: Edge, t: Time) { e.validFrom <= t && (e.validTo.None? || t < e.validTo.value) }

  predicate Overlaps(e: Edge, f: Edge) {
    var start := if e.validFrom < f.validFrom then f.validFrom else e.validFrom;
    Covers(e, start) && Covers(f, start)
  }

  // ---- The database constraints ----

  predicate RowChecks(e: Edge) {
    && e.source != e.target
    && (e.symmetric ==> e.source < e.target)
    && !((e.statementClass.Inference? || e.sourceType.AiInference?) && IsAuthoritative(e.status))
    && !IsAuthoritative(e.status)
    && (e.validTo.Some? ==> e.validFrom <= e.validTo.value)
  }

  /** The exclusion constraint and the live index: the qualifier is part of their key. */
  predicate PairChecks(e: Edge, f: Edge) {
    SameClaim(e, f) && Coalesce(e.qualifier) == Coalesce(f.qualifier) ==> !Overlaps(e, f) && !(Live(e) && Live(f))
  }

  predicate Constraints(s: State) {
    && (forall i :: 0 <= i < |s.edges| ==>
          RowChecks(s.edges[i]) && s.edges[i].source in s.assets && s.edges[i].target in s.assets)
    && (forall i, j :: 0 <= i < j < |s.edges| ==> PairChecks(s.edges[i], s.edges[j]))
  }

  // ---- Steps ----

  datatype Error =
    | SelfEdge | NotFound | NotPermitted | AlreadyClosed | AlreadyRetired | MergedAsset | TerminalAsset | IntegrityError

  datatype Report = CreatedEdge(id: nat, canonicalised: bool) | TouchedEdge(id: nat, canonicalised: bool)
                  | ClosedEdge(id: nat) | ClosedEdges(count: nat) | NewAsset | UpdatedAsset

  datatype Result = Committed(next: State, report: Report) | Refused(error: Error)

  datatype Claim = Claim(
    relType: RelType, source: AssetId, target: AssetId, qualifier: Option<string>, sourceType: SourceType,
    sourceId: string, confidence: Confidence)

  function Flush(s: State, report: Report): Result {
    if Constraints(s) then Committed(s, report) else Refused(IntegrityError)
  }

  function Swap(c: Claim): Claim { c.(source := c.target, target := c.source) }

  predicate MustSwap(c: Claim) { SpecOf(c.relType).symmetric && c.source > c.target }

  /** One physical link, one row: a symmetric edge is kept in the order of its endpoints' ids. */
  function Canonical(c: Claim): Claim { if MustSwap(c) then Swap(c) else c }

  function NewEdge(c: Claim, supersedes: Option<nat>, now: Time): Edge {
    Edge(c.relType, c.source, c.target, SpecOf(c.relType).symmetric, c.qualifier, StatementClassFor(c.sourceType),
         c.sourceType, c.sourceId, c.confidence, DefaultStatusFor(c.sourceType), supersedes, now, None, now)
  }

  predicate IsLiveClaim(e: Edge, c: Claim) {
    Live(e) && e.source == c.source && e.target == c.target && e.relType == c.relType && e.sourceId == c.sourceId
  }

  function LiveEdge(edges: seq<Edge>, c: Claim): (r: Option<nat>)
    ensures r.Some? ==> r.value < |edges| && IsLiveClaim(edges[r.value], c)
    ensures r.None? ==> forall i :: 0 <= i < |edges| ==> !IsLiveClaim(edges[i], c)
  {
    if edges == [] then None
    else
      var last := |edges| - 1;
      if IsLiveClaim(edges[last], c) then Some(last) else LiveEdge(edges[..last], c)
  }

  function Close(e: Edge, now: Time): Edge { e.(validTo := Some(now)) }

  function CloseLive(edges: seq<Edge>, live: Option<nat>, now: Time): (r: seq<Edge>)
    requires live.Some? ==> live.value < |edges|
    ensures |r| == |edges|
  {
    if live.None? then edges else edges[live.value := Close(edges[live.value], now)]
  }

  /** RelationshipService.assert_relationship. */
  function AssertEdge(s: State, presented: Claim, now: Time): Result {
    if presented.source == presented.target then Refused(SelfEdge)
    else if presented.source !in s.assets || presented.target !in s.assets then Refused(NotFound)
    else if !SpecOf(presented.relType).Permits(s.assets[presented.source].assetType, s.assets[presented.target].assetType)
    then Refused(NotPermitted)
    else
      var c := Canonical(presented);
      var live := LiveEdge(s.edges, c);
      if live.Some? && Coalesce(s.edges[live.value].qualifier) == Coalesce(c.qualifier) then
        var touched := s.edges[live.value].(lastSeen := now, confidence := c.confidence);
        Flush(s.(edges := s.edges[live.value := touched]), TouchedEdge(live.value, MustSwap(presented)))
      else
        var closed := s.(edges := CloseLive(s.edges, live, now));
        if !Constraints(closed) then Refused(IntegrityError)
        else Flush(s.(edges := closed.edges + [NewEdge(c, live, now)]), CreatedEdge(|s.edges|, MustSwap(presented)))
  }

  /** RelationshipService.retire. */
  function RetireEdge(s: State, id: nat, now: Time): Result {
    if id >= |s.edges| then Refused(NotFound)
    else if !Live(s.edges[id]) then Refused(AlreadyClosed)
    else Flush(s.(edges := s.edges[id := Close(s.edges[id], now)]), ClosedEdge(id))
  }

  predicate Touches(e: Edge, asset: AssetId) { e.source == asset || e.target == asset }

  function CloseFor(edges: seq<Edge>, asset: AssetId, now: Time): (r: seq<Edge>)
    ensures |r| == |edges|
    ensures forall i :: 0 <= i < |edges| ==>
      r[i] == if Live(edges[i]) && Touches(edges[i], asset) then Close(edges[i], now) else edges[i]
  {
    seq(|edges|, i requires 0 <= i < |edges| =>
      if Live(edges[i]) && Touches(edges[i], asset) then Close(edges[i], now) else edges[i])
  }

  function CountLive(edges: seq<Edge>, asset: AssetId): nat {
    if edges == [] then 0
    else
      var last := |edges| - 1;
      CountLive(edges[..last], asset) + (if Live(edges[last]) && Touches(edges[last], asset) then 1 else 0)
  }

  /** AssetService.retire, as far as edges go. */
  function RetireAsset(s: State, asset: AssetId, now: Time): Result {
    if asset !in s.assets then Refused(NotFound)
    else if s.assets[asset].lifecycle.Retired? then Refused(AlreadyRetired)
    else if s.assets[asset].lifecycle.Merged? then Refused(MergedAsset)
    else
      Flush(State(s.assets[asset := s.assets[asset].(lifecycle := Retired)], CloseFor(s.edges, asset, now)),
            ClosedEdges(CountLive(s.edges, asset)))
  }

  /** AssetService.update, as far as neighbours show it: an asset's type never changes. */
  function UpdateAsset(s: State, asset: AssetId, displayName: string, lifecycle: OpenState): Result {
    if asset !in s.assets then Refused(NotFound)
    else if s.assets[asset].lifecycle.Retired? || s.assets[asset].lifecycle.Merged? then Refused(TerminalAsset)
    else
      var row := s.assets[asset].(displayName := displayName, lifecycle := lifecycle);
      Flush(s.(assets := s.assets[asset := row]), UpdatedAsset)
  }

  /** A new asset; its id and its type are never changed. */
  function Register(s: State, asset: AssetId, row: Asset): Result {
    if asset in s.assets then Refused(IntegrityError) else Flush(s.(assets := s.assets[asset := row]), NewAsset)
  }

  datatype Op =
    | DoAssert(claim: Claim, now: Time)
    | DoRetireEdge(id: nat, now: Time)
    | DoRetireAsset(asset: AssetId, now: Time)
    | DoUpdate(asset: AssetId, displayName: string, lifecycle: OpenState, now: Time)
    | DoRegister(asset: AssetId, row: Asset, now: Time)

  function Apply(s: State, op: Op): Result {
    match op
    case DoAssert(c, now) => AssertEdge(s, c, now)
    case DoRetireEdge(id, now) => RetireEdge(s, id, now)
    case DoRetireAsset(asset, now) => RetireAsset(s, asset, now)
    case DoUpdate(asset, displayName, lifecycle, _) => UpdateAsset(s, asset, displayName, lifecycle)
    case DoRegister(asset, row, _) => Register(s, asset, row)
  }

  function Step(s: State, op: Op): State { match Apply(s, op) case Committed(next, _) => next case Refused(_) => s }

  function Run(s: State, ops: seq<Op>): State {
    if ops == [] then s else Step(Run(s, ops[..|ops| - 1]), ops[|ops| - 1])
  }

  const EMPTY := State(map[], [])

  // ---- The invariant ----

  /** What is stored is what the registry allows: the symmetry of its type, and endpoints it joins. */
  ghost predicate Allowed(s: State, e: Edge) {
    && e.source in s.assets && e.target in s.assets
    && e.symmetric == SpecOf(e.relType).symmetric
    && SpecOf(e.relType).Permits(s.assets[e.source].assetType, s.assets[e.target].assetType)
  }

  ghost predicate TimelyRow(e: Edge, t: Time) { e.validFrom <= t && (e.validTo.Some? ==> e.validFrom <= e.validTo.value <= t) }

  /** Claims of the same edge by the same source follow one another: the earlier is closed before the later opens. */
  ghost predicate Ordered(edges: seq<Edge>) {
    forall i, j :: 0 <= i < j < |edges| && SameClaim(edges[i], edges[j]) ==>
      edges[i].validTo.Some? && edges[i].validTo.value <= edges[j].validFrom
  }

  ghost predicate Inv(s: State, t: Time) {
    && (forall i :: 0 <= i < |s.edges| ==> RowChecks(s.edges[i]) && Allowed(s, s.edges[i]) && TimelyRow(s.edges[i], t))
    && Ordered(s.edges)
  }

  lemma InvMeetsConstraints(s: State, t: Time)
    requires Inv(s, t)
    ensures Constraints(s)
  {
    forall i | 0 <= i < |s.edges| ensures s.edges[i].source in s.assets && s.edges[i].target in s.assets {
      assert Allowed(s, s.edges[i]);
    }
  }

  lemma InvLater(s: State, t: Time, now: Time)
    requires Inv(s, t) && t <= now
    ensures Inv(s, now)
  {
    forall i | 0 <= i < |s.edges| ensures TimelyRow(s.edges[i], now) { assert TimelyRow(s.edges[i], t); }
  }

  /** A live row may be closed, or touched, in place. */
  lemma UpdateKeeps(s: State, t: Time, now: Time, id: nat, e: Edge)
    requires Inv(s, t) && t <= now && id < |s.edges| && Live(s.edges[id])
    requires e == s.edges[id].(lastSeen := e.lastSeen, confidence := e.confidence, validTo := e.validTo)
    requires e.validTo.None? || e.validTo.value == now
    ensures Inv(s.(edges := s.edges[id := e]), now)
  {
    InvLater(s, t, now);
    var n := s.(edges := s.edges[id := e]);
    assert TimelyRow(s.edges[id], t);
    forall i | 0 <= i < |n.edges| ensures RowChecks(n.edges[i]) && Allowed(n, n.edges[i]) && TimelyRow(n.edges[i], now) {
      assert RowChecks(s.edges[i]) && Allowed(s, s.edges[i]) && TimelyRow(s.edges[i], now);
    }
    forall i, j | 0 <= i < j < |n.edges| && SameClaim(n.edges[i], n.edges[j])
      ensures n.edges[i].validTo.Some? && n.edges[i].validTo.value <= n.edges[j].validFrom
    {
      assert SameClaim(s.edges[i], s.edges[j]);
    }
  }

  lemma AppendKeeps(s: State, now: Time, e: Edge)
    requires Inv(s, now) && RowChecks(e) && Allowed(s, e) && e.validFrom == now && Live(e)
    requires forall i :: 0 <= i < |s.edges| && SameClaim(s.edges[i], e) ==> !Live(s.edges[i])
    ensures Inv(s.(edges := s.edges + [e]), now)
  {
    var n := s.(edges := s.edges + [e]);
    forall i | 0 <= i < |n.edges| ensures RowChecks(n.edges[i]) && Allowed(n, n.edges[i]) && TimelyRow(n.edges[i], now) {
      if i < |s.edges| { assert RowChecks(s.edges[i]) && Allowed(s, s.edges[i]) && TimelyRow(s.edges[i], now); }
    }
    forall i, j | 0 <= i < j < |n.edges| && SameClaim(n.edges[i], n.edges[j])
      ensures n.edges[i].validTo.Some? && n.edges[i].validTo.value <= n.edges[j].validFrom
    {
      if j < |s.edges| {
        assert SameClaim(s.edges[i], s.edges[j]);
      } else {
        assert SameClaim(s.edges[i], e) && TimelyRow(s.edges[i], now);
      }
    }
  }

  // ---- No step is refused by a constraint, and each keeps the invariant ----

  /** The endpoints stored after canonicalisation are still a pair the registry permits. */
  lemma SwapStaysPermitted(s: State, c: Claim)
    requires c.source in s.assets && c.target in s.assets
    requires SpecOf(c.relType).Permits(s.assets[c.source].assetType, s.assets[c.target].assetType)
    ensures var k := Canonical(c);
      && k.source in s.assets && k.target in s.assets
      && SpecOf(k.relType).Permits(s.assets[k.source].assetType, s.assets[k.target].assetType)
  {
  }

  lemma NewEdgeIsSound(s: State, c: Claim, live: Option<nat>, now: Time)
    requires c.source != c.target && c.source in s.assets && c.target in s.assets
    requires SpecOf(c.relType).Permits(s.assets[c.source].assetType, s.assets[c.target].assetType)
    ensures var e := NewEdge(Canonical(c), live, now); RowChecks(e) && Allowed(s, e)
  {
    SwapStaysPermitted(s, c);
  }

  lemma AssertNeverTrips(s: State, t: Time, c: Claim, now: Time)
    requires Inv(s, t) && t <= now
    ensures AssertEdge(s, c, now) != Refused(IntegrityError)
    ensures AssertEdge(s, c, now).Committed? ==> Inv(AssertEdge(s, c, now).next, now)
  {
    if c.source != c.target && c.source in s.assets && c.target in s.assets
       && SpecOf(c.relType).Permits(s.assets[c.source].assetType, s.assets[c.target].assetType) {
      var k := Canonical(c);
      var live := LiveEdge(s.edges, k);
      InvLater(s, t, now);
      if live.Some? {
        var e := s.edges[live.value];
        var touched := e.(lastSeen := now, confidence := k.confidence);
        UpdateKeeps(s, t, now, live.value, touched);
        InvMeetsConstraints(s.(edges := s.edges[live.value := touched]), now);
        UpdateKeeps(s, t, now, live.value, Close(e, now));
      }
      var closed := s.(edges := CloseLive(s.edges, live, now));
      InvMeetsConstraints(closed, now);
      var edge := NewEdge(k, live, now);
      NewEdgeIsSound(s, c, live, now);
      forall i | 0 <= i < |closed.edges| && SameClaim(closed.edges[i], edge) ensures !Live(closed.edges[i]) {
        if live.Some? { OneLive(s, t, live.value, i); } else { assert !IsLiveClaim(s.edges[i], k); }
      }
      AppendKeeps(closed, now, edge);
      InvMeetsConstraints(closed.(edges := closed.edges + [edge]), now);
    }
  }

  /** One source keeps at most one live row for an edge, whatever the qualifier. */
  lemma OneLive(s: State, t: Time, i: nat, j: nat)
    requires Inv(s, t) && i < |s.edges| && j < |s.edges|
    ensures SameClaim(s.edges[i], s.edges[j]) && Live(s.edges[i]) && Live(s.edges[j]) ==> i == j
  {
    assert i < j ==> (SameClaim(s.edges[i], s.edges[j]) ==> s.edges[i].validTo.Some?);
    assert j < i ==> (SameClaim(s.edges[j], s.edges[i]) ==> s.edges[j].validTo.Some?);
  }

  lemma RetireEdgeNeverTrips(s: State, t: Time, id: nat, now: Time)
    requires Inv(s, t) && t <= now
    ensures RetireEdge(s, id, now) != Refused(IntegrityError)
    ensures RetireEdge(s, id, now).Committed? ==> Inv(RetireEdge(s, id, now).next, now)
  {
    if id < |s.edges| && Live(s.edges[id]) {
      UpdateKeeps(s, t, now, id, Close(s.edges[id], now));
      InvMeetsConstraints(s.(edges := s.edges[id := Close(s.edges[id], now)]), now);
    }
  }

  ghost predicate RetiredFrom(s: State, n: State, asset: AssetId, now: Time) {
    && asset in s.assets && n.assets == s.assets[asset := s.assets[asset].(lifecycle := Retired)]
    && n.edges == CloseFor(s.edges, asset, now)
  }

  lemma RetiredRows(s: State, t: Time, n: State, asset: AssetId, now: Time)
    requires Inv(s, t) && t <= now && RetiredFrom(s, n, asset, now)
    ensures forall i :: 0 <= i < |n.edges| ==> RowChecks(n.edges[i]) && Allowed(n, n.edges[i]) && TimelyRow(n.edges[i], now)
  {
    forall i | 0 <= i < |n.edges| ensures RowChecks(n.edges[i]) && Allowed(n, n.edges[i]) && TimelyRow(n.edges[i], now) {
      assert RowChecks(s.edges[i]) && Allowed(s, s.edges[i]) && TimelyRow(s.edges[i], t);
    }
  }

  lemma RetiredOrder(s: State, t: Time, n: State, asset: AssetId, now: Time)
    requires Inv(s, t) && RetiredFrom(s, n, asset, now)
    ensures Ordered(n.edges)
  {
    forall i, j | 0 <= i < j < |n.edges| && SameClaim(n.edges[i], n.edges[j])
      ensures n.edges[i].validTo.Some? && n.edges[i].validTo.value <= n.edges[j].validFrom
    {
      assert SameClaim(s.edges[i], s.edges[j]);
    }
  }

  /** Retiring an asset closes exactly the live edges that touch it. */
  lemma RetireAssetNeverTrips(s: State, t: Time, asset: AssetId, now: Time)
    requires Inv(s, t) && t <= now
    ensures RetireAsset(s, asset, now) != Refused(IntegrityError)
    ensures RetireAsset(s, asset, now).Committed? ==>
      && Inv(RetireAsset(s, asset, now).next, now)
      && forall i :: 0 <= i < |s.edges| ==>
           (Live(RetireAsset(s, asset, now).next.edges[i]) <==> Live(s.edges[i]) && !Touches(s.edges[i], asset))
  {
    if asset in s.assets && !s.assets[asset].lifecycle.Retired? && !s.assets[asset].lifecycle.Merged? {
      var n := State(s.assets[asset := s.assets[asset].(lifecycle := Retired)], CloseFor(s.edges, asset, now));
      RetiredRows(s, t, n, asset, now);
      RetiredOrder(s, t, n, asset, now);
      InvMeetsConstraints(n, now);
    }
  }

  lemma UpdateAssetNeverTrips(s: State, t: Time, asset: AssetId, displayName: string, lifecycle: OpenState, now: Time)
    requires Inv(s, t) && t <= now
    ensures UpdateAsset(s, asset, displayName, lifecycle) != Refused(IntegrityError)
    ensures var r := UpdateAsset(s, asset, displayName, lifecycle); r.Committed? ==> Inv(r.next, now)
  {
    InvLater(s, t, now);
    if asset in s.assets {
      var n := s.(assets := s.assets[asset := s.assets[asset].(displayName := displayName, lifecycle := lifecycle)]);
      forall i | 0 <= i < |n.edges| ensures RowChecks(n.edges[i]) && Allowed(n, n.edges[i]) && TimelyRow(n.edges[i], now) {
        assert Allowed(s, s.edges[i]);
      }
      InvMeetsConstraints(n, now);
    }
  }

  lemma RegisterKeeps(s: State, t: Time, asset: AssetId, row: Asset, now: Time)
    requires Inv(s, t) && t <= now
    ensures Register(s, asset, row) == Refused(IntegrityError) <==> asset in s.assets
    ensures Register(s, asset, row).Committed? ==> Inv(Register(s, asset, row).next, now)
  {
    InvLater(s, t, now);
    if asset !in s.assets {
      var n := s.(assets := s.assets[asset := row]);
      forall i | 0 <= i < |n.edges| ensures RowChecks(n.edges[i]) && Allowed(n, n.edges[i]) && TimelyRow(n.edges[i], now) {
        assert Allowed(s, s.edges[i]);
      }
      InvMeetsConstraints(n, now);
    }
  }

  ghost predicate Monotone(ops: seq<Op>) { forall i, j :: 0 <= i < j < |ops| ==> ops[i].now <= ops[j].now }

  lemma StepKeeps(s: State, t: Time, op: Op)
    requires Inv(s, t) && t <= op.now
    ensures Inv(Step(s, op), op.now)
    ensures !op.DoRegister? ==> Apply(s, op) != Refused(IntegrityError)
  {
    InvLater(s, t, op.now);
    match op
    case DoAssert(c, now) => AssertNeverTrips(s, t, c, now);
    case DoRetireEdge(id, now) => RetireEdgeNeverTrips(s, t, id, now);
    case DoRetireAsset(asset, now) => RetireAssetNeverTrips(s, t, asset, now);
    case DoUpdate(asset, displayName, lifecycle, now) => UpdateAssetNeverTrips(s, t, asset, displayName, lifecycle, now);
    case DoRegister(asset, row, now) => RegisterKeeps(s, t, asset, row, now);
  }

  /** Whatever the interleaving, under a clock that does not run backwards, no assertion or retirement is refused by a
      constraint, and in every state one source has at most one live row for an edge, whatever the qualifier, every stored
      pair of endpoints is permitted, and a symmetric edge is stored in one order only. */
  lemma {:induction false} EdgesOverRuns(ops: seq<Op>, t: Time)
    requires Monotone(ops) && forall i :: 0 <= i < |ops| ==> ops[i].now <= t
    ensures Inv(Run(EMPTY, ops), t)
    ensures forall k :: 0 <= k < |ops| && !ops[k].DoRegister? ==> Apply(Run(EMPTY, ops[..k]), ops[k]) != Refused(IntegrityError)
  {
    RunKeeps(ops, t);
    forall k | 0 <= k < |ops| && !ops[k].DoRegister? ensures Apply(Run(EMPTY, ops[..k]), ops[k]) != Refused(IntegrityError) {
      RunKeeps(ops[..k], ops[k].now);
      StepKeeps(Run(EMPTY, ops[..k]), ops[k].now, ops[k]);
    }
  }

  lemma {:induction false} RunKeeps(ops: seq<Op>, t: Time)
    requires Monotone(ops) && forall i :: 0 <= i < |ops| ==> ops[i].now <= t
    ensures Inv(Run(EMPTY, ops), t)
  {
    if ops != [] {
      var last := |ops| - 1;
      RunKeeps(ops[..last], ops[last].now);
      StepKeeps(Run(EMPTY, ops[..last]), ops[last].now, ops[last]);
      InvLater(Run(EMPTY, ops), ops[last].now, t);
    }
  }

  /** A symmetric edge may be asserted from either end: the same row is found, touched or written. */
  lemma EitherDirectionIsOneEdge(s: State, c: Claim, now: Time)
    requires SpecOf(c.relType).symmetric
    ensures var a, b := AssertEdge(s, c, now), AssertEdge(s, Swap(c), now);
      && (a.Committed? <==> b.Committed?)
      && (a.Committed? ==> a.next == b.next && a.report == match b.report
            case CreatedEdge(id, swapped) => CreatedEdge(id, !swapped)
            case TouchedEdge(id, swapped) => TouchedEdge(id, !swapped)
            case other => other)
      && (a.Refused? ==> a == b)
  {
    if c.source != c.target {
      assert Canonical(c) == Canonical(Swap(c));
      assert MustSwap(c) <==> !MustSwap(Swap(c));
    }
  }

  // ---- Reading edges from either end ----

  /** One line of an asset's neighbourhood. */
  datatype Neighbour = Neighbour(
    edge: nat, title: string, outbound: bool, qualifier: Option<string>, asset: AssetId, assetType: AssetType,
    displayName: string, lifecycle: LifecycleState, status: Status, sourceId: string)

  predicate Shows(e: Edge, asset: AssetId) { Live(e) && Touches(e, asset) }

  /** What the edge looks like from the asset: its own label outwards, the inverse label inwards. */
  function Seen(s: State, id: nat, asset: AssetId): Neighbour
    requires id < |s.edges| && s.edges[id].source in s.assets && s.edges[id].target in s.assets
  {
    var e := s.edges[id];
    var outbound := e.source == asset;
    var other := if outbound then e.target else e.source;
    Neighbour(id, if outbound || SpecOf(e.relType).symmetric then TypeLabel(e.relType) else InverseLabel(e.relType),
              outbound, e.qualifier, other, s.assets[other].assetType, s.assets[other].displayName,
              s.assets[other].lifecycle, e.status, e.sourceId)
  }

  predicate NeighbourLess(a: Neighbour, b: Neighbour) {
    Orders.StringLess(a.title, b.title) || (a.title == b.title && Orders.StringLess(a.displayName, b.displayName))
  }

  ghost predicate EdgesJoinAssets(s: State) {
    forall i :: 0 <= i < |s.edges| ==> s.edges[i].source in s.assets && s.edges[i].target in s.assets
  }

  ghost predicate Within(order: seq<nat>, n: nat) { forall k :: 0 <= k < |order| ==> order[k] < n }

  /** The neighbourhood in the order the edges were read, the first n of them. */
  function Unsorted(s: State, asset: AssetId, order: seq<nat>): seq<Neighbour>
    requires EdgesJoinAssets(s) && Within(order, |s.edges|)
  {
    if order == [] then []
    else
      var last := order[|order| - 1];
      var earlier := Unsorted(s, asset, order[..|order| - 1]);
      if Shows(s.edges[last], asset) then earlier + [Seen(s, last, asset)] else earlier
  }

  /** RelationshipService.neighbours, given the order in which the query returned the edges. */
  function Neighbours(s: State, asset: AssetId, order: seq<nat>): seq<Neighbour>
    requires EdgesJoinAssets(s) && Within(order, |s.edges|)
  {
    Orders.SortBy(NeighbourLess, Unsorted(s, asset, order))
  }

  /** The query reads every edge once, in some order. */
  ghost predicate ReadsAll(s: State, order: seq<nat>) {
    && Within(order, |s.edges|) && (forall i: nat :: i < |s.edges| ==> i in order)
    && (forall i, j :: 0 <= i < j < |order| ==> order[i] != order[j])
  }

  lemma {:induction false} UnsortedExactly(s: State, asset: AssetId, order: seq<nat>)
    requires EdgesJoinAssets(s) && Within(order, |s.edges|)
    ensures forall n :: n in Unsorted(s, asset, order) <==>
      n.edge in order && Shows(s.edges[n.edge], asset) && n == Seen(s, n.edge, asset)
  {
    if order != [] {
      var front, last := order[..|order| - 1], order[|order| - 1];
      UnsortedExactly(s, asset, front);
      assert forall i: nat :: i in order <==> i in front || i == last;
    }
  }

  ghost predicate DistinctEdges(ns: seq<Neighbour>) { forall i, j :: 0 <= i < j < |ns| ==> ns[i].edge != ns[j].edge }

  lemma {:induction false} UnsortedDistinct(s: State, asset: AssetId, order: seq<nat>)
    requires EdgesJoinAssets(s) && Within(order, |s.edges|)
    requires forall i, j :: 0 <= i < j < |order| ==> order[i] != order[j]
    ensures DistinctEdges(Unsorted(s, asset, order))
  {
    if order != [] {
      var front, last := order[..|order| - 1], order[|order| - 1];
      UnsortedDistinct(s, asset, front);
      UnsortedExactly(s, asset, front);
      var ns := Unsorted(s, asset, front);
      forall i | 0 <= i < |ns| ensures ns[i].edge != last {
        assert ns[i] in ns;
      }
    }
  }

  lemma SortKeepsDistinct(ns: seq<Neighbour>)
    requires DistinctEdges(ns)
    ensures DistinctEdges(Orders.SortBy(NeighbourLess, ns))
  {
    if ns != [] {
      var front, last := ns[..|ns| - 1], ns[|ns| - 1];
      SortKeepsDistinct(front);
      Orders.SortByPermutes(NeighbourLess, front);
      var sorted := Orders.SortBy(NeighbourLess, front);
      forall i | 0 <= i < |sorted| ensures sorted[i].edge != last.edge {
        assert sorted[i] in front;
      }
      InsertKeepsDistinct(sorted, last);
    }
  }

  lemma {:induction false} InsertKeepsDistinct(ns: seq<Neighbour>, n: Neighbour)
    requires DistinctEdges(ns) && forall i :: 0 <= i < |ns| ==> ns[i].edge != n.edge
    ensures DistinctEdges(Orders.Insert(NeighbourLess, ns, n))
  {
    if ns != [] && NeighbourLess(n, ns[|ns| - 1]) {
      var front, last := ns[..|ns| - 1], ns[|ns| - 1];
      InsertKeepsDistinct(front, n);
      Orders.InsertPermutes(NeighbourLess, front, n);
      var r := Orders.Insert(NeighbourLess, front, n);
      forall i | 0 <= i < |r| ensures r[i].edge != last.edge {
        assert r[i] == n || r[i] in front;
      }
    }
  }

  /** An asset's neighbourhood is exactly its live edges, each once, as seen from it. */
  lemma NeighboursExactly(s: State, asset: AssetId, order: seq<nat>)
    requires EdgesJoinAssets(s) && ReadsAll(s, order)
    ensures forall n :: n in Neighbours(s, asset, order) <==>
      n.edge < |s.edges| && Shows(s.edges[n.edge], asset) && n == Seen(s, n.edge, asset)
    ensures DistinctEdges(Neighbours(s, asset, order))
    ensures Orders.NonDescending(NeighbourLess, Neighbours(s, asset, order))
  {
    UnsortedExactly(s, asset, order);
    UnsortedDistinct(s, asset, order);
    SortKeepsDistinct(Unsorted(s, asset, order));
    Orders.SortByPermutes(NeighbourLess, Unsorted(s, asset, order));
    NeighbourOrder();
    Orders.SortByAscends(NeighbourLess, Unsorted(s, asset, order));
  }

  lemma NeighbourOrder()
    ensures Orders.WeakOrder(NeighbourLess)
  {
    Orders.StringOrder();
  }

  function Outward(s: State, id: nat): Neighbour
    requires id < |s.edges| && s.edges[id].target in s.assets
  {
    var e, other := s.edges[id], s.assets[s.edges[id].target];
    Neighbour(id, TypeLabel(e.relType), true, e.qualifier, e.target, other.assetType, other.displayName, other.lifecycle,
              e.status, e.sourceId)
  }

  function Inward(s: State, id: nat): Neighbour
    requires id < |s.edges| && s.edges[id].source in s.assets
  {
    var e, other := s.edges[id], s.assets[s.edges[id].source];
    Neighbour(id, if SpecOf(e.relType).symmetric then TypeLabel(e.relType) else InverseLabel(e.relType),
              false, e.qualifier, e.source, other.assetType, other.displayName, other.lifecycle, e.status, e.sourceId)
  }

  /** Duality: a live edge is one outbound line at its source, under its own label, and one inbound line at its target,
      under the inverse label or, when it is symmetric, its own; and it is nowhere else. */
  lemma EachEdgeIsSeenTwice(s: State, id: nat, asset: AssetId, order: seq<nat>, n: Neighbour)
    requires EdgesJoinAssets(s) && ReadsAll(s, order) && id < |s.edges| && s.edges[id].source != s.edges[id].target
    requires n.edge == id
    ensures var e := s.edges[id];
      n in Neighbours(s, asset, order) <==>
        && Live(e)
        && ((asset == e.source && n == Outward(s, id)) || (asset == e.target && n == Inward(s, id)))
  {
    NeighboursExactly(s, asset, order);
  }

  // ---- The service on the stored tables ----

  datatype Outcome = Done(report: Report) | Failed(error: Error)

  ghost predicate Answers(spec: Result, outcome: Outcome, before: State, now: State) {
    match spec
    case Committed(next, report) => now == next && outcome == Done(report)
    case Refused(error) => now == before && outcome == Failed(error)
  }

  class RelationshipService {
    var assets: map<AssetId, Asset>
    var edges: seq<Edge>

    ghost function Contents(): State
      reads this
    {
      State(assets, edges)
    }

    constructor ()
      ensures Contents() == EMPTY
    {
      assets, edges := map[], [];
    }

    method AssertRelationship(presented: Claim, now: Time) returns (outcome: Outcome)
      modifies this
      ensures Answers(AssertEdge(old(Contents()), presented, now), outcome, old(Contents()), Contents())
    {
      if presented.source == presented.target { return Failed(SelfEdge); }
      if presented.source !in assets || presented.target !in assets { return Failed(NotFound); }
      var spec := SpecOf(presented.relType);
      if !spec.Permits(assets[presented.source].assetType, assets[presented.target].assetType) { return Failed(NotPermitted); }
      var saved := edges;
      var source, target, canonicalised := presented.source, presented.target, false;
      if spec.symmetric && source > target {
        source, target, canonicalised := target, source, true;
      }
      var c := presented.(source := source, target := target);
      assert c == Canonical(presented);
      var live := LiveEdge(edges, c);
      if live.Some? && Coalesce(edges[live.value].qualifier) == Coalesce(c.qualifier) {
        edges := edges[live.value := edges[live.value].(lastSeen := now, confidence := c.confidence)];
        if !Constraints(State(assets, edges)) { edges := saved; return Failed(IntegrityError); }
        return Done(TouchedEdge(live.value, canonicalised));
      }
      if live.Some? {
        edges := edges[live.value := edges[live.value].(validTo := Some(now))];
      }
      if !Constraints(State(assets, edges)) { edges := saved; return Failed(IntegrityError); }
      edges := edges + [NewEdge(c, live, now)];
      if !Constraints(State(assets, edges)) { edges := saved; return Failed(IntegrityError); }
      return Done(CreatedEdge(|saved|, canonicalised));
    }

    method Retire(id: nat, now: Time) returns (outcome: Outcome)
      modifies this
      ensures Answers(RetireEdge(old(Contents()), id, now), outcome, old(Contents()), Contents())
    {
      if id >= |edges| { return Failed(NotFound); }
      if edges[id].validTo.Some? { return Failed(AlreadyClosed); }
      var saved := edges;
      edges := edges[id := edges[id].(validTo := Some(now))];
      if !Constraints(State(assets, edges)) { edges := saved; return Failed(IntegrityError); }
      return Done(ClosedEdge(id));
    }

    /** The loop over the live edges at either end of a retired asset. */
    method CloseEdges(asset: AssetId, now: Time) returns (closed: nat)
      modifies this`edges
      ensures edges == CloseFor(old(edges), asset, now)
      ensures closed == CountLive(old(edges), asset)
    {
      closed := 0;
      ghost var before := edges;
      var i := 0;
      while i < |edges|
        invariant i <= |edges| == |before|
        invariant forall k :: 0 <= k < i ==> edges[k] == CloseFor(before, asset, now)[k]
        invariant forall k :: i <= k < |edges| ==> edges[k] == before[k]
        invariant closed == CountLive(before[..i], asset)
      {
        assert before[..i + 1][..i] == before[..i];
        if Live(edges[i]) && Touches(edges[i], asset) {
          edges := edges[i := edges[i].(validTo := Some(now))];
          closed := closed + 1;
        }
        i := i + 1;
      }
      TakeAll(before);
    }

    /** neighbours: one line per live edge, appended as the query returns them, then sorted in place. */
    method ListNeighbours(asset: AssetId, order: seq<nat>) returns (found: Option<seq<Neighbour>>)
      requires EdgesJoinAssets(Contents()) && ReadsAll(Contents(), order)
      ensures found == if asset in assets then Some(Neighbours(Contents(), asset, order)) else None
    {
      if asset !in assets { return None; }
      var neighbours: seq<Neighbour> := [];
      var k := 0;
      while k < |order|
        invariant k <= |order| && neighbours == Unsorted(Contents(), asset, order[..k])
      {
        TakeNext(order, k);
        assert order[..k + 1][..k] == order[..k];
        var e := edges[order[k]];
        if Live(e) && Touches(e, asset) {
          var outbound := e.source == asset;
          var other := if outbound then e.target else e.source;
          var title := if outbound || SpecOf(e.relType).symmetric then TypeLabel(e.relType) else InverseLabel(e.relType);
          var row := assets[other];
          var line := Neighbour(order[k], title, outbound, e.qualifier, other, row.assetType, row.displayName,
                                row.lifecycle, e.status, e.sourceId);
          neighbours := neighbours + [line];
        }
        k := k + 1;
      }
      TakeAll(order);
      return Some(Orders.SortBy(NeighbourLess, neighbours));
    }
  }
}
