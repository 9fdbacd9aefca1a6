/** The fact and asset services: rows updated in place, flushed against the constraints, rolled back when refused. */
module LedgerService {
  import opened Base
  import opened CmdbVocabulary
  import opened Ledger

  datatype Outcome = Ok(report: Report) | Failed(error: Error)

  /** What a step did: the state it left and the answer it gave. */
  ghost predicate Answers(result: Result, before: State, after: State, outcome: Outcome) {
    match result
    case Committed(next, report) => after == next && outcome == Ok(report)
    case Refused(error) => after == before && outcome == Failed(error)
  }

  /** A session over the CMDB tables. */
  class Session {
    var assets: map<AssetId, Asset>
    var facts: seq<Fact>
    var attestations: seq<Attestation>

    ghost function Now(): State
      reads this
    {
      State(assets, facts, attestations)
    }

    constructor ()
      ensures Now() == EMPTY
    {
      assets, facts, attestations := map[], [], [];
    }

    /** session.flush(): whether the database takes the rows as they stand. */
    method Flush() returns (accepted: bool)
      ensures accepted <==> Constraints(Now())
    {
      accepted := Constraints(State(assets, facts, attestations));
    }

    method Rollback(a: map<AssetId, Asset>, f: seq<Fact>, log: seq<Attestation>)
      modifies this
      ensures Now() == State(a, f, log)
    {
      assets, facts, attestations := a, f, log;
    }

    method AssertFact(same: Equality, asset: AssetId, c: Claim, screened: Option<Value>, now: Time)
      returns (outcome: Outcome)
      modifies this
      ensures Answers(Ledger.AssertFact(same, old(Now()), asset, c, screened, now), old(Now()), Now(), outcome)
    {
      if asset !in assets { return Failed(NotFound); }
      if screened.None? { return Failed(SecretRejected); }
      var a0, f0, log0 := assets, facts, attestations;
      var live := LiveClaim(facts, asset, c.predicateName, c.kind, c.sourceId);
      if live.Some? && SameValue(same, facts[live.value].value, screened.value) {
        facts := facts[live.value := facts[live.value].(lastSeen := now, confidence := c.confidence)];
        var accepted := Flush();
        if !accepted { Rollback(a0, f0, log0); return Failed(IntegrityError); }
        return Ok(Touched(live.value));
      }
      if live.Some? {
        // Close first: the partial unique index admits one live row a lineage.
        facts := facts[live.value := facts[live.value].(validTo := Some(now))];
      }
      var closed := Flush();
      if !closed { Rollback(a0, f0, log0); return Failed(IntegrityError); }
      facts := facts + [NewClaim(asset, c, screened.value, live, now)];
      assets := assets[asset := assets[asset].(lastSeen := now)];
      var inserted := Flush();
      if !inserted { Rollback(a0, f0, log0); return Failed(IntegrityError); }
      outcome := Ok(if live.Some? then Superseded(|f0|, live.value) else Created(|f0|));
    }

    method CreateDesired(asset: AssetId, predicateName: string, screened: Option<Value>, unit: Option<string>,
                         subject: string, now: Time) returns (outcome: Outcome)
      modifies this
      ensures Answers(Ledger.CreateDesired(old(Now()), asset, predicateName, screened, unit, subject, now),
                      old(Now()), Now(), outcome)
    {
      if asset !in assets { return Failed(NotFound); }
      if screened.None? { return Failed(SecretRejected); }
      var a0, f0, log0 := assets, facts, attestations;
      var live := LiveClaim(facts, asset, predicateName, DesiredState, subject);
      if live.Some? {
        facts := facts[live.value := facts[live.value].(validTo := Some(now))];
      }
      var closed := Flush();
      if !closed { Rollback(a0, f0, log0); return Failed(IntegrityError); }
      facts := facts + [NewDesired(asset, predicateName, screened.value, unit, subject, live, now)];
      attestations := attestations + [Attestation(|f0|, Approve, Unverified, Approved, subject, now)];
      var inserted := Flush();
      if !inserted { Rollback(a0, f0, log0); return Failed(IntegrityError); }
      outcome := Ok(if live.Some? then Superseded(|f0|, live.value) else Created(|f0|));
    }

    method Transition(id: nat, action: Action, subject: string, now: Time) returns (outcome: Outcome)
      modifies this
      ensures Answers(Ledger.Transition(old(Now()), id, action, subject, now), old(Now()), Now(), outcome)
    {
      if id >= |facts| { return Failed(NotFound); }
      var f := facts[id];
      if !Live(f) { return Failed(ClosedClaim); }
      if action == Revoke {
        if !IsAuthoritative(f.status) { return Failed(NotRevocable); }
      } else {
        if !MayBecomeAuthoritative(f.statementClass, f.sourceType) { return Failed(InferenceNotPromotable); }
        if HasRival(facts, id) { return Failed(SecondAuthority); }
      }
      var a0, f0, log0 := assets, facts, attestations;
      var to := if action == Revoke then DefaultStatusFor(f.sourceType) else if action == Verify then Verified else Approved;
      var g := f;
      match action {
        case Verify => g := g.(verifiedBy := Some(subject), verifiedAt := Some(now));
        case Approve => g := g.(approvedBy := Some(subject), approvedAt := Some(now));
        case Revoke => g := g.(verifiedBy := None, verifiedAt := None, approvedBy := None, approvedAt := None);
      }
      facts := facts[id := g.(status := to)];
      attestations := attestations + [Attestation(id, action, f.status, to, subject, now)];
      var accepted := Flush();
      if !accepted { Rollback(a0, f0, log0); return Failed(IntegrityError); }
      outcome := Ok(Transitioned(id));
    }

    /** The loop over the asset's live claims: each is closed, and stale unless a person stood behind it. */
    method CloseClaims(asset: AssetId, now: Time) returns (closed: nat)
      modifies this`facts
      ensures facts == RetireRows(old(facts), asset, now)
      ensures closed == CountLive(old(facts), asset)
    {
      closed := 0;
      ghost var before := facts;
      var i := 0;
      while i < |facts|
        invariant i <= |facts| == |before|
        invariant forall k :: 0 <= k < i ==> facts[k] == RetireRow(before[k], asset, now)
        invariant forall k :: i <= k < |facts| ==> facts[k] == before[k]
        invariant closed == CountLive(before[..i], asset)
      {
        var f := facts[i];
        assert before[..i + 1][..i] == before[..i];
        if f.asset == asset && Live(f) {
          f := f.(validTo := Some(now));
          if f.status != Verified && f.status != Approved { f := f.(status := Stale); }
          facts := facts[i := f];
          closed := closed + 1;
        }
        i := i + 1;
      }
      TakeAll(before);
    }
  }
}
