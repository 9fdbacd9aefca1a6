/**
 The claim ledger: facts with validity intervals, the log of who trusted them, and the steps that write both.
 Each step is one transaction. It commits a next state or is refused and leaves the state as it was.
 */
module Ledger {
  import opened Base
  import opened CmdbVocabulary
  import opened CanonicalJson

  type Time = int
  type AssetId = nat

  /** A NUMERIC: the wire schema lets a float through that is no number, and the column stores it. */
  datatype Quantity = Finite(amount: real) | Infinite(positive: bool) | NotANumber

  /** A typed value: the discriminator and the one populated column. */
  datatype Value =
    | TextValue(text: string)
    | NumberValue(number: Quantity)
    | BoolValue(bool)
    | TimestampValue(at: Time)
    | JsonValue(json: Json)
    | AssetRefValue(asset: AssetId)

  /** Whether a JSON document that was stored and read back equals one that comes in. It is a parameter: the program
      compares Python dicts, for which 1, 1.0 and true are equal. */
  type Equality = (Json, Json) -> bool

  /** _values_equal: the types must agree, numbers are compared as decimals, and NaN equals nothing. */
  predicate SameValue(same: Equality, stored: Value, incoming: Value) {
    match stored
    case NumberValue(n) => incoming == stored && !n.NotANumber?
    case JsonValue(json) => incoming.JsonValue? && same(json, incoming.json)
    case _ => incoming == stored
  }

  datatype Asset = Asset(lifecycle: LifecycleState, lastSeen: Time, retiredAt: Option<Time>)

  /** One row of asset_fact. A row's id is its position: rows are only ever appended. */
  datatype Fact = Fact(
    asset: AssetId,
    predicateName: string,
    kind: FactKind,
    statementClass: StatementClass,
    sourceType: SourceType,
    sourceId: string,
    confidence: Confidence,
    status: Status,
    verifiedBy: Option<string>,
    verifiedAt: Option<Time>,
    approvedBy: Option<string>,
    approvedAt: Option<Time>,
    value: Value,
    unit: Option<string>,
    supersedes: Option<nat>,
    validFrom: Time,
    validTo: Option<Time>,
    firstSeen: Time,
    lastSeen: Time)

  /** One row of fact_attestation. */
  datatype Attestation = Attestation(
    fact: nat, action: Action, fromStatus: Status, toStatus: Status, subject: string, occurredAt: Time)

  datatype State = State(assets: map<AssetId, Asset>, facts: seq<Fact>, attestations: seq<Attestation>)

  predicate Live(f: Fact) { f.validTo.None? }

  // ---- The database constraints ----

  predicate SameLineage(f: Fact, g: Fact) {
    f.asset == g.asset && f.predicateName == g.predicateName && f.kind == g.kind && f.sourceId == g.sourceId
  }

  predicate SameClaim(f: Fact, g: Fact) {
    f.asset == g.asset && f.predicateName == g.predicateName && f.kind == g.kind
  }

  predicate HoldsAuthority(f: Fact) { Live(f) && IsAuthoritative(f.status) }

  predicate EndsAfter(f: Fact, t: Time) { f.validTo.None? || t < f.validTo.value }

  /** tstzrange(valid_from, valid_to): half-open, so an interval that ends where it starts is empty. */
  predicate Covers(f: Fact, t: Time) { f.validFrom <= t && EndsAfter(f, t) }

  /** Two ranges overlap when they share an instant: the later start then is one. */
  predicate Overlaps(f: Fact, g: Fact) {
    var start := if f.validFrom < g.validFrom then g.validFrom else f.validFrom;
    Covers(f, start) && Covers(g, start)
  }

  /** The CHECK constraints of one row. */
  predicate RowChecks(f: Fact) {
    && !((f.statementClass.Inference? || f.sourceType.AiInference?) && IsAuthoritative(f.status))
    && (f.status.Verified? ==> f.verifiedBy.Some? && f.verifiedAt.Some?)
    && (f.status.Approved? ==> f.approvedBy.Some? && f.approvedAt.Some?)
    && (f.kind.DesiredState? ==> f.status.Approved?)
    && (f.validTo.Some? ==> f.validFrom <= f.validTo.value)
  }

  /** The exclusion constraint and the two partial unique indexes, for one pair of rows. */
  predicate PairChecks(f: Fact, g: Fact) {
    && (SameLineage(f, g) ==> !Overlaps(f, g) && !(Live(f) && Live(g)))
    && (SameClaim(f, g) ==> !(HoldsAuthority(f) && HoldsAuthority(g)))
  }

  /** The foreign key on a referenced asset. */
  predicate RefersTo(v: Value, assets: map<AssetId, Asset>) { v.AssetRefValue? ==> v.asset in assets }

  /** The two foreign keys of one row. */
  predicate KeysHold(f: Fact, assets: map<AssetId, Asset>) { f.asset in assets && RefersTo(f.value, assets) }

  predicate Constraints(s: State) {
    && (forall i :: 0 <= i < |s.facts| ==> RowChecks(s.facts[i]) && KeysHold(s.facts[i], s.assets))
    && (forall i, j :: 0 <= i < j < |s.facts| ==> PairChecks(s.facts[i], s.facts[j]))
    && (forall a :: a in s.assets ==> (s.assets[a].lifecycle.Retired? <==> s.assets[a].retiredAt.Some?))
  }

  // ---- Steps ----

  datatype Error =
    | NotFound | SecretRejected | ClosedClaim | NotRevocable | InferenceNotPromotable | SecondAuthority
    | AlreadyRetired | MergedAsset | TerminalAsset | IntegrityError

  datatype Report =
    | Created(id: nat) | Superseded(id: nat, previous: nat) | Touched(id: nat)
    | Transitioned(id: nat) | RetiredAsset(closedFacts: nat) | UpdatedAsset

  datatype Result = Committed(next: State, report: Report) | Refused(error: Error)

  /** An assert as the wire schema admits it; the value screen's answer comes beside it. */
  datatype Claim = Claim(
    predicateName: string, kind: FactKind, sourceType: SourceType, sourceId: string,
    confidence: Confidence, unit: Option<string>)

  /** The database's answer to a flush. */
  function Flush(s: State, report: Report): Result {
    if Constraints(s) then Committed(s, report) else Refused(IntegrityError)
  }

  predicate IsLiveClaim(f: Fact, asset: AssetId, predicateName: string, kind: FactKind, sourceId: string) {
    f.asset == asset && f.predicateName == predicateName && f.kind == kind && f.sourceId == sourceId && Live(f)
  }

  /** The live row of a lineage, if there is one. */
  function LiveClaim(facts: seq<Fact>, asset: AssetId, predicateName: string, kind: FactKind, sourceId: string)
    : (r: Option<nat>)
    ensures r.Some? ==> r.value < |facts| && IsLiveClaim(facts[r.value], asset, predicateName, kind, sourceId)
    ensures r.None? ==>
      forall i :: 0 <= i < |facts| ==> !IsLiveClaim(facts[i], asset, predicateName, kind, sourceId)
  {
    if facts == [] then None
    else
      var last := |facts| - 1;
      if IsLiveClaim(facts[last], asset, predicateName, kind, sourceId) then Some(last)
      else LiveClaim(facts[..last], asset, predicateName, kind, sourceId)
  }

  function Close(f: Fact, now: Time): Fact { f.(validTo := Some(now)) }

  /** The lineage's live row closed; nothing changes when there is none. */
  function CloseLive(facts: seq<Fact>, live: Option<nat>, now: Time): (r: seq<Fact>)
    requires live.Some? ==> live.value < |facts|
    ensures |r| == |facts|
  {
    if live.None? then facts else facts[live.value := Close(facts[live.value], now)]
  }

  function NewClaim(asset: AssetId, c: Claim, value: Value, supersedes: Option<nat>, now: Time): Fact {
    Fact(asset, c.predicateName, c.kind, StatementClassFor(c.sourceType), c.sourceType, c.sourceId, c.confidence,
         DefaultStatusFor(c.sourceType), None, None, None, None, value, c.unit, supersedes, now, None, now, now)
  }

  /** FactService.assert_fact. `screened` is None when the value screen refuses the fact. */
  function AssertFact(same: Equality, s: State, asset: AssetId, c: Claim, screened: Option<Value>, now: Time): Result {
    if asset !in s.assets then Refused(NotFound)
    else if screened.None? then Refused(SecretRejected)
    else
      var live := LiveClaim(s.facts, asset, c.predicateName, c.kind, c.sourceId);
      if live.Some? && SameValue(same, s.facts[live.value].value, screened.value) then
        var touched := s.facts[live.value].(lastSeen := now, confidence := c.confidence);
        Flush(s.(facts := s.facts[live.value := touched]), Touched(live.value))
      else
        var closed := s.(facts := CloseLive(s.facts, live, now));
        if !Constraints(closed) then Refused(IntegrityError)
        else
          var id := |s.facts|;
          var inserted := closed.(
            facts := closed.facts + [NewClaim(asset, c, screened.value, live, now)],
            assets := s.assets[asset := s.assets[asset].(lastSeen := now)]);
          Flush(inserted, if live.Some? then Superseded(id, live.value) else Created(id))
  }

  function NewDesired(asset: AssetId, predicateName: string, value: Value, unit: Option<string>,
                      subject: string, supersedes: Option<nat>, now: Time): Fact
  {
    Fact(asset, predicateName, DesiredState, FactStatement, ManualEntry, subject, 1.0,
         Approved, None, None, Some(subject), Some(now), value, unit, supersedes, now, None, now, now)
  }

  /** FactService.create_desired. */
  function CreateDesired(s: State, asset: AssetId, predicateName: string, screened: Option<Value>,
                         unit: Option<string>, subject: string, now: Time): Result
  {
    if asset !in s.assets then Refused(NotFound)
    else if screened.None? then Refused(SecretRejected)
    else
      var live := LiveClaim(s.facts, asset, predicateName, DesiredState, subject);
      var closed := s.(facts := CloseLive(s.facts, live, now));
      if !Constraints(closed) then Refused(IntegrityError)
      else
        var id := |s.facts|;
        var fact := NewDesired(asset, predicateName, screened.value, unit, subject, live, now);
        Flush(closed.(facts := closed.facts + [fact],
                      attestations := s.attestations + [Attestation(id, Approve, Unverified, Approved, subject, now)]),
              if live.Some? then Superseded(id, live.value) else Created(id))
  }

  /** Whether another live claim for the same predicate already holds authority. */
  predicate HasRival(facts: seq<Fact>, id: nat)
    requires id < |facts|
  {
    exists j :: 0 <= j < |facts| && j != id && SameClaim(facts[j], facts[id]) && HoldsAuthority(facts[j])
  }

  /** attribution_for and the status it goes with. */
  function Attribute(f: Fact, action: Action, subject: string, now: Time): Fact {
    match action
    case Verify => f.(status := Verified, verifiedBy := Some(subject), verifiedAt := Some(now))
    case Approve => f.(status := Approved, approvedBy := Some(subject), approvedAt := Some(now))
    case Revoke => f.(status := DefaultStatusFor(f.sourceType),
                      verifiedBy := None, verifiedAt := None, approvedBy := None, approvedAt := None)
  }

  /** FactService.transition. */
  function Transition(s: State, id: nat, action: Action, subject: string, now: Time): Result {
    if id >= |s.facts| then Refused(NotFound)
    else
      var f := s.facts[id];
      if !Live(f) then Refused(ClosedClaim)
      else if action.Revoke? && !IsAuthoritative(f.status) then Refused(NotRevocable)
      else if !action.Revoke? && !MayBecomeAuthoritative(f.statementClass, f.sourceType) then Refused(InferenceNotPromotable)
      else if !action.Revoke? && HasRival(s.facts, id) then Refused(SecondAuthority)
      else
        var g := Attribute(f, action, subject, now);
        Flush(s.(facts := s.facts[id := g],
                 attestations := s.attestations + [Attestation(id, action, f.status, g.status, subject, now)]),
              Transitioned(id))
  }

  /** What retiring an asset does to one row. */
  function RetireRow(f: Fact, asset: AssetId, now: Time): Fact {
    if f.asset == asset && Live(f) then
      Close(f, now).(status := if IsAuthoritative(f.status) then f.status else Stale)
    else f
  }

  function RetireRows(facts: seq<Fact>, asset: AssetId, now: Time): (r: seq<Fact>)
    ensures |r| == |facts|
    ensures forall i :: 0 <= i < |facts| ==> r[i] == RetireRow(facts[i], asset, now)
  {
    seq(|facts|, i requires 0 <= i < |facts| => RetireRow(facts[i], asset, now))
  }

  function CountLive(facts: seq<Fact>, asset: AssetId): nat {
    if facts == [] then 0
    else
      var last := |facts| - 1;
      CountLive(facts[..last], asset) + (if facts[last].asset == asset && Live(facts[last]) then 1 else 0)
  }

  /** AssetService.retire, as far as facts go. */
  function RetireAsset(s: State, asset: AssetId, now: Time): Result {
    if asset !in s.assets then Refused(NotFound)
    else if s.assets[asset].lifecycle.Retired? then Refused(AlreadyRetired)
    else if s.assets[asset].lifecycle.Merged? then Refused(MergedAsset)
    else
      Flush(s.(facts := RetireRows(s.facts, asset, now),
               assets := s.assets[asset := s.assets[asset].(lifecycle := Retired, retiredAt := Some(now))]),
            RetiredAsset(CountLive(s.facts, asset)))
  }

  /** AssetService.update, as far as the lifecycle goes. */
  function UpdateLifecycle(s: State, asset: AssetId, lifecycle: OpenState): Result {
    if asset !in s.assets then Refused(NotFound)
    else if s.assets[asset].lifecycle.Retired? || s.assets[asset].lifecycle.Merged? then Refused(TerminalAsset)
    else Flush(s.(assets := s.assets[asset := s.assets[asset].(lifecycle := lifecycle)]), UpdatedAsset)
  }

  /** A new asset row, as resolution or creation writes it. An id is never reused. */
  function RegisterAsset(s: State, asset: AssetId, lifecycle: OpenState, now: Time): Result {
    if asset in s.assets then Refused(IntegrityError)
    else Flush(s.(assets := s.assets[asset := Asset(lifecycle, now, None)]), UpdatedAsset)
  }

  // ---- Runs ----

  datatype Op =
    | DoAssert(asset: AssetId, claim: Claim, screened: Option<Value>, now: Time)
    | DoDesire(asset: AssetId, predicateName: string, screened: Option<Value>, unit: Option<string>, subject: string, now: Time)
    | DoTransition(id: nat, action: Action, subject: string, now: Time)
    | DoRetire(asset: AssetId, now: Time)
    | DoUpdate(asset: AssetId, lifecycle: OpenState, now: Time)
    | DoRegister(asset: AssetId, lifecycle: OpenState, now: Time)

  function Apply(same: Equality, s: State, op: Op): Result {
    match op
    case DoAssert(asset, c, screened, now) => AssertFact(same, s, asset, c, screened, now)
    case DoDesire(asset, p, screened, unit, subject, now) => CreateDesired(s, asset, p, screened, unit, subject, now)
    case DoTransition(id, action, subject, now) => Transition(s, id, action, subject, now)
    case DoRetire(asset, now) => RetireAsset(s, asset, now)
    case DoUpdate(asset, lifecycle, _) => UpdateLifecycle(s, asset, lifecycle)
    case DoRegister(asset, lifecycle, now) => RegisterAsset(s, asset, lifecycle, now)
  }

  /** A refused step changes nothing. */
  function Step(same: Equality, s: State, op: Op): State {
    var r := Apply(same, s, op);
    if r.Committed? then r.next else s
  }

  function Run(same: Equality, s: State, ops: seq<Op>): State {
    if ops == [] then s else Step(same, Run(same, s, ops[..|ops| - 1]), ops[|ops| - 1])
  }

  const EMPTY := State(map[], [], [])

  /** The clock never runs backwards. */
  ghost predicate Monotone(ops: seq<Op>) {
    forall i, j :: 0 <= i < j < |ops| ==> ops[i].now <= ops[j].now
  }
}
