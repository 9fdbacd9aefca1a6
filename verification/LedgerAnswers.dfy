/** What each step of the ledger writes, column by column, and where every row of a run came from. */
module LedgerAnswers {
  import opened Base
  import opened CmdbVocabulary
  import opened Ledger
  import opened LedgerInvariant

  // ---- Asserting ----

  /** The live row of the claim's lineage, where there is one. */
  ghost predicate LiveFor(f: Fact, asset: AssetId, c: Claim) {
    f.validTo == None && f.asset == asset && f.predicateName == c.predicateName && f.kind == c.kind && f.sourceId == c.sourceId
  }

  /** The row is the claim's: what was claimed, of what, by which source and when; the class and the first status follow from
      the source, and nobody has vouched for it. */
  ghost predicate RecordsClaim(f: Fact, asset: AssetId, c: Claim, value: Value, now: Time) {
    && f.asset == asset && f.predicateName == c.predicateName && f.kind == c.kind && f.value == value && f.unit == c.unit
    && f.sourceType == c.sourceType && f.sourceId == c.sourceId && f.confidence == c.confidence
    && StartsAs(c.sourceType, f.statementClass, f.status)
    && f.verifiedBy == None && f.verifiedAt == None && f.approvedBy == None && f.approvedAt == None
    && f.validFrom == now && f.validTo == None && f.firstSeen == now && f.lastSeen == now
  }

  /** Every row but one is as it was. */
  ghost predicate OthersStay(before: seq<Fact>, after: seq<Fact>, except: Option<nat>) {
    |before| <= |after| && forall i :: 0 <= i < |before| && except != Some(i) ==> after[i] == before[i]
  }

  /** What an accepted assert leaves: a new row that records the claim, after closing the live row it replaces if there was
      one, or else the live row that said the same, sighted again. */
  lemma AssertRecordsTheClaim(same: Equality, s: State, asset: AssetId, c: Claim, screened: Option<Value>, now: Time)
    requires AssertFact(same, s, asset, c, screened, now).Committed?
    ensures var r := AssertFact(same, s, asset, c, screened, now); var n := r.next;
      && screened.Some? && n.attestations == s.attestations
      && match r.report
         case Created(id) =>
           && id == |s.facts| && |n.facts| == id + 1 && OthersStay(s.facts, n.facts, None)
           && RecordsClaim(n.facts[id], asset, c, screened.value, now) && n.facts[id].supersedes == None
           && (forall i :: 0 <= i < |s.facts| ==> !LiveFor(s.facts[i], asset, c))
         case Superseded(id, previous) =>
           && id == |s.facts| && |n.facts| == id + 1 && OthersStay(s.facts, n.facts, Some(previous))
           && RecordsClaim(n.facts[id], asset, c, screened.value, now) && n.facts[id].supersedes == Some(previous)
           && previous < id && LiveFor(s.facts[previous], asset, c)
           && !SameValue(same, s.facts[previous].value, screened.value)
           && n.facts[previous] == s.facts[previous].(validTo := Some(now))
         case Touched(id) =>
           && |n.facts| == |s.facts| && OthersStay(s.facts, n.facts, Some(id)) && n.assets == s.assets
           && id < |s.facts| && LiveFor(s.facts[id], asset, c) && SameValue(same, s.facts[id].value, screened.value)
           && n.facts[id] == s.facts[id].(lastSeen := now, confidence := c.confidence)
         case _ => false
    ensures var r := AssertFact(same, s, asset, c, screened, now);
      !r.report.Touched? ==> asset in s.assets && r.next.assets == s.assets[asset := s.assets[asset].(lastSeen := now)]
  {
    var live := LiveClaim(s.facts, asset, c.predicateName, c.kind, c.sourceId);
    forall i | 0 <= i < |s.facts| ensures LiveFor(s.facts[i], asset, c) ==> live.Some? {
      assert live.None? ==> !IsLiveClaim(s.facts[i], asset, c.predicateName, c.kind, c.sourceId);
    }
  }

  /** Under the invariant an observation is accepted exactly when its asset exists, the screen lets it through and its
      reference, if it is one, names an asset. */
  lemma ObservationAccepted(same: Equality, s: State, t: Time, asset: AssetId, c: Claim, screened: Option<Value>, now: Time)
    requires Inv(s, t) && t <= now && c.kind.ObservedState?
    ensures AssertFact(same, s, asset, c, screened, now).Committed? <==>
      asset in s.assets && screened.Some? && (screened.value.AssetRefValue? ==> screened.value.asset in s.assets)
  {
    AssertExactly(same, s, t, asset, c, screened, now);
  }

  // ---- Declaring a desired state ----

  /** The row is the principal's own declaration, approved by the one who makes it. */
  ghost predicate RecordsDesire(f: Fact, asset: AssetId, predicateName: string, value: Value, unit: Option<string>,
                                subject: string, now: Time)
  {
    && f.asset == asset && f.predicateName == predicateName && f.kind.DesiredState? && f.value == value && f.unit == unit
    && f.sourceType.ManualEntry? && f.sourceId == subject && f.confidence == 1.0 && f.statementClass.FactStatement?
    && f.status.Approved? && f.approvedBy == Some(subject) && f.approvedAt == Some(now)
    && f.verifiedBy == None && f.verifiedAt == None
    && f.validFrom == now && f.validTo == None && f.firstSeen == now && f.lastSeen == now
  }

  /** What an accepted declaration leaves: its row, the declarer's live one before it closed, and the attestation. */
  lemma DesireRecordsTheDeclaration(s: State, asset: AssetId, predicateName: string, screened: Option<Value>,
                                    unit: Option<string>, subject: string, now: Time)
    requires CreateDesired(s, asset, predicateName, screened, unit, subject, now).Committed?
    ensures var r := CreateDesired(s, asset, predicateName, screened, unit, subject, now); var n, id := r.next, |s.facts|;
      && screened.Some? && n.assets == s.assets && |n.facts| == id + 1
      && RecordsDesire(n.facts[id], asset, predicateName, screened.value, unit, subject, now)
      && n.attestations == s.attestations + [Attestation(id, Approve, Unverified, Approved, subject, now)]
      && match r.report
         case Created(new_) => new_ == id && OthersStay(s.facts, n.facts, None) && n.facts[id].supersedes == None
         case Superseded(new_, previous) =>
           && new_ == id && previous < id && OthersStay(s.facts, n.facts, Some(previous))
           && n.facts[id].supersedes == Some(previous) && s.facts[previous].validTo == None
           && s.facts[previous].asset == asset && s.facts[previous].predicateName == predicateName
           && s.facts[previous].kind.DesiredState? && s.facts[previous].sourceId == subject
           && n.facts[previous] == s.facts[previous].(validTo := Some(now))
         case _ => false
  {
  }

  // ---- Trust ----

  ghost predicate Trusted(f: Fact) { f.status.Verified? || f.status.Approved? }

  /** Another live claim of the same thing is trusted. */
  ghost predicate TrustedElsewhere(facts: seq<Fact>, id: nat)
    requires id < |facts|
  {
    exists j :: 0 <= j < |facts| && j != id && facts[j].validTo == None && Trusted(facts[j])
      && facts[j].asset == facts[id].asset && facts[j].predicateName == facts[id].predicateName && facts[j].kind == facts[id].kind
  }

  /** Which trust transitions are accepted, in any reachable state: on a live row; a revocation only of trust, and never of
      a desired state's; a verification or approval only of what no model said, while nothing else about the same thing is
      trusted, and of a desired state only an approval. */
  lemma TransitionAcceptedExactly(s: State, t: Time, id: nat, action: Action, subject: string, now: Time)
    requires Inv(s, t) && t <= now
    ensures Transition(s, id, action, subject, now).Committed? <==>
      && id < |s.facts| && s.facts[id].validTo == None
      && (s.facts[id].kind.DesiredState? ==> action.Approve?)
      && match action
         case Revoke => Trusted(s.facts[id])
         case _ =>
           && !s.facts[id].statementClass.Inference? && !s.facts[id].sourceType.AiInference?
           && !TrustedElsewhere(s.facts, id)
    ensures Transition(s, id, action, subject, now) == Refused(NotFound) <==> id >= |s.facts|
    ensures Transition(s, id, action, subject, now) == Refused(ClosedClaim) <==> id < |s.facts| && s.facts[id].validTo != None
    ensures Transition(s, id, action, subject, now) == Refused(SecondAuthority) <==>
      && id < |s.facts| && s.facts[id].validTo == None && !action.Revoke?
      && !s.facts[id].statementClass.Inference? && !s.facts[id].sourceType.AiInference? && TrustedElsewhere(s.facts, id)
  {
    TransitionExactly(s, t, id, action, subject, now);
    if id < |s.facts| {
      assert HasRival(s.facts, id) <==> TrustedElsewhere(s.facts, id);
      assert RowChecks(s.facts[id]);
    }
  }

  /** What an accepted transition writes: the status, and of the attribution only the action's own part, or none of it
      after a revocation, which returns the row to what its source gives it; one attestation; nothing else. */
  lemma TransitionRecordsTheAct(s: State, id: nat, action: Action, subject: string, now: Time)
    requires Transition(s, id, action, subject, now).Committed?
    ensures var n := Transition(s, id, action, subject, now).next;
      && id < |s.facts| == |n.facts| && n.assets == s.assets && OthersStay(s.facts, n.facts, Some(id))
      && n.attestations == s.attestations + [Attestation(id, action, s.facts[id].status, n.facts[id].status, subject, now)]
      && var f, g := s.facts[id], n.facts[id];
         match action
         case Verify => g == f.(status := Verified, verifiedBy := Some(subject), verifiedAt := Some(now))
         case Approve => g == f.(status := Approved, approvedBy := Some(subject), approvedAt := Some(now))
         case Revoke =>
           && g == f.(status := g.status, verifiedBy := None, verifiedAt := None, approvedBy := None, approvedAt := None)
           && StartsAs(f.sourceType, StatementClassFor(f.sourceType), g.status)
  {
  }

  // ---- Where every row came from ----

  /** What no step rewrites: what was claimed, of what, by whom, since when. */
  ghost predicate SameOrigin(f: Fact, g: Fact) {
    && f.asset == g.asset && f.predicateName == g.predicateName && f.kind == g.kind && f.value == g.value && f.unit == g.unit
    && f.statementClass == g.statementClass && f.sourceType == g.sourceType && f.sourceId == g.sourceId
    && f.supersedes == g.supersedes && f.validFrom == g.validFrom && f.firstSeen == g.firstSeen
  }

  lemma StepKeepsOrigins(same: Equality, s: State, op: Op)
    ensures var n := Step(same, s, op);
      |s.facts| <= |n.facts| && forall i :: 0 <= i < |s.facts| ==> SameOrigin(s.facts[i], n.facts[i])
  {
    if Apply(same, s, op).Committed? {
      match op
      case DoAssert(asset, c, screened, now) => AssertRecordsTheClaim(same, s, asset, c, screened, now);
      case DoDesire(asset, p, screened, unit, subject, now) =>
        DesireRecordsTheDeclaration(s, asset, p, screened, unit, subject, now);
      case DoTransition(id, action, subject, now) => TransitionRecordsTheAct(s, id, action, subject, now);
      case _ =>
    }
  }

  /** The operation opened row id with the origin of f. */
  ghost predicate Opens(same: Equality, s: State, op: Op, id: nat, f: Fact) {
    var r := Apply(same, s, op);
    && r.Committed? && (r.report == Created(id) || (r.report.Superseded? && r.report.id == id))
    && match op
       case DoAssert(asset, c, screened, now) =>
         && screened.Some? && f.asset == asset && f.predicateName == c.predicateName && f.kind == c.kind
         && f.value == screened.value && f.unit == c.unit && f.sourceType == c.sourceType && f.sourceId == c.sourceId
         && f.validFrom == f.firstSeen == now
       case DoDesire(asset, p, screened, unit, subject, now) =>
         && screened.Some? && f.asset == asset && f.predicateName == p && f.kind.DesiredState?
         && f.value == screened.value && f.unit == unit && f.sourceType.ManualEntry? && f.sourceId == subject
         && f.validFrom == f.firstSeen == now
       case _ => false
  }

  lemma NewRowOpens(same: Equality, s: State, op: Op, id: nat)
    requires |s.facts| <= id < |Step(same, s, op).facts|
    ensures id == |s.facts| && Opens(same, s, op, id, Step(same, s, op).facts[id])
  {
    match op
    case DoAssert(asset, c, screened, now) => AssertRecordsTheClaim(same, s, asset, c, screened, now);
    case DoDesire(asset, p, screened, unit, subject, now) =>
      DesireRecordsTheDeclaration(s, asset, p, screened, unit, subject, now);
    case _ =>
  }

  /** Over every run, whatever the steps and the clock: each row was opened by one operation of it, an accepted assert or
      declaration, and still says what that operation claimed, of what, by which source and since when. */
  lemma {:induction false} EveryRowWasClaimed(same: Equality, ops: seq<Op>, id: nat) returns (k: nat)
    requires id < |Run(same, EMPTY, ops).facts|
    ensures k < |ops| && Opens(same, Run(same, EMPTY, ops[..k]), ops[k], id, Run(same, EMPTY, ops).facts[id])
  {
    var last := |ops| - 1;
    var front := ops[..last];
    var s := Run(same, EMPTY, front);
    StepKeepsOrigins(same, s, ops[last]);
    if id < |s.facts| {
      k := EveryRowWasClaimed(same, front, id);
      assert front[..k] == ops[..k];
    } else {
      k := last;
      NewRowOpens(same, s, ops[last], id);
    }
  }
}
