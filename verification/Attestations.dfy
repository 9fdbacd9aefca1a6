/** The attestation log explains the trust on every row: replaying it gives the row's status and attribution. */
module Attestations {
  import opened Base
  import opened CmdbVocabulary
  import opened Ledger

  datatype Trust = Trust(status: Status, verifiedBy: Option<string>, approvedBy: Option<string>)

  function TrustOf(f: Fact): Trust { Trust(f.status, f.verifiedBy, f.approvedBy) }

  /** What one attestation does to trust. A source's default is where a revoked claim returns to. */
  function Attest(trust: Trust, source: SourceType, a: Attestation): Trust {
    match a.action
    case Verify => trust.(status := Verified, verifiedBy := Some(a.subject))
    case Approve => trust.(status := Approved, approvedBy := Some(a.subject))
    case Revoke => Trust(DefaultStatusFor(source), None, None)
  }

  /** The log replayed for one fact, from its source's default status. None when an entry does not start where the
      one before ended, or records a status other than the one its action leads to. */
  function Replay(log: seq<Attestation>, id: nat, source: SourceType): Option<Trust> {
    if log == [] then Some(Trust(DefaultStatusFor(source), None, None))
    else
      var last := |log| - 1;
      var before := Replay(log[..last], id, source);
      if log[last].fact != id then before
      else if before.None? || log[last].fromStatus != before.value.status then None
      else
        var after := Attest(before.value, source, log[last]);
        if log[last].toStatus != after.status then None else Some(after)
  }

  /** Replay explains the row; a row closed by retirement may have been relabelled STALE, which is not a trust act. */
  ghost predicate Explained(f: Fact, log: seq<Attestation>, id: nat) {
    var r := Replay(log, id, f.sourceType);
    && r.Some?
    && (|| r.value == TrustOf(f)
        || (!Live(f) && f.status.Stale? && !IsAuthoritative(r.value.status)
            && r.value.verifiedBy == f.verifiedBy && r.value.approvedBy == f.approvedBy))
  }

  ghost predicate LogExplainsTrust(s: State) {
    && (forall k :: 0 <= k < |s.attestations| ==> s.attestations[k].fact < |s.facts|)
    && (forall i :: 0 <= i < |s.facts| ==> Explained(s.facts[i], s.attestations, i))
  }

  lemma {:induction false} ReplayWithoutEntries(log: seq<Attestation>, id: nat, source: SourceType)
    requires forall k :: 0 <= k < |log| ==> log[k].fact != id
    ensures Replay(log, id, source) == Some(Trust(DefaultStatusFor(source), None, None))
  {
    if log != [] { ReplayWithoutEntries(log[..|log| - 1], id, source); }
  }

  lemma ReplayOfOthers(log: seq<Attestation>, entry: Attestation, id: nat, source: SourceType)
    requires entry.fact != id
    ensures Replay(log + [entry], id, source) == Replay(log, id, source)
  {
    assert (log + [entry])[..|log|] == log;
  }

  lemma ReplayOfEntry(log: seq<Attestation>, entry: Attestation, source: SourceType)
    requires var before := Replay(log, entry.fact, source);
      before.Some? && before.value.status == entry.fromStatus && Attest(before.value, source, entry).status == entry.toStatus
    ensures Replay(log + [entry], entry.fact, source)
         == Some(Attest(Replay(log, entry.fact, source).value, source, entry))
  {
    assert (log + [entry])[..|log|] == log;
  }

  /** Rows and log keep agreeing when no entry is written: trust unchanged, or relabelled STALE while closing. */
  ghost predicate QuietRow(f: Fact, g: Fact) {
    && g.sourceType == f.sourceType && g.verifiedBy == f.verifiedBy && g.approvedBy == f.approvedBy
    && (|| (g.status == f.status && (Live(g) ==> Live(f)))
        || (Live(f) && !Live(g) && g.status.Stale? && !IsAuthoritative(f.status)))
  }

  lemma QuietStep(s: State, facts: seq<Fact>, i: nat)
    requires LogExplainsTrust(s) && i < |s.facts| && |s.facts| <= |facts| && QuietRow(s.facts[i], facts[i])
    ensures Explained(facts[i], s.attestations, i)
  {
    assert Explained(s.facts[i], s.attestations, i);
  }

  lemma AssertExplained(same: Equality, s: State, asset: AssetId, c: Claim, screened: Option<Value>, now: Time)
    requires LogExplainsTrust(s) && AssertFact(same, s, asset, c, screened, now).Committed?
    ensures LogExplainsTrust(AssertFact(same, s, asset, c, screened, now).next)
  {
    var n := AssertFact(same, s, asset, c, screened, now).next;
    forall i | 0 <= i < |n.facts| ensures Explained(n.facts[i], n.attestations, i) {
      if i < |s.facts| {
        assert QuietRow(s.facts[i], n.facts[i]);
        QuietStep(s, n.facts, i);
      } else {
        ReplayWithoutEntries(n.attestations, i, n.facts[i].sourceType);
      }
    }
  }

  lemma DesireExplained(s: State, asset: AssetId, p: string, screened: Option<Value>, unit: Option<string>,
                        subject: string, now: Time)
    requires LogExplainsTrust(s) && CreateDesired(s, asset, p, screened, unit, subject, now).Committed?
    ensures LogExplainsTrust(CreateDesired(s, asset, p, screened, unit, subject, now).next)
  {
    var n := CreateDesired(s, asset, p, screened, unit, subject, now).next;
    var id := |s.facts|;
    var entry := Attestation(id, Approve, Unverified, Approved, subject, now);
    forall i | 0 <= i < |n.facts| ensures Explained(n.facts[i], n.attestations, i) {
      if i < id {
        assert QuietRow(s.facts[i], n.facts[i]);
        QuietStep(s, n.facts, i);
        ReplayOfOthers(s.attestations, entry, i, n.facts[i].sourceType);
      } else {
        ReplayWithoutEntries(s.attestations, id, ManualEntry);
        ReplayOfEntry(s.attestations, entry, ManualEntry);
      }
    }
  }

  lemma TransitionExplained(s: State, id: nat, action: Action, subject: string, now: Time)
    requires LogExplainsTrust(s) && Transition(s, id, action, subject, now).Committed?
    ensures LogExplainsTrust(Transition(s, id, action, subject, now).next)
  {
    var n := Transition(s, id, action, subject, now).next;
    var f := s.facts[id];
    var entry := Attestation(id, action, f.status, Attribute(f, action, subject, now).status, subject, now);
    forall i | 0 <= i < |n.facts| ensures Explained(n.facts[i], n.attestations, i) {
      assert Explained(s.facts[i], s.attestations, i);
      if i == id {
        ReplayOfEntry(s.attestations, entry, f.sourceType);
      } else {
        ReplayOfOthers(s.attestations, entry, i, s.facts[i].sourceType);
      }
    }
  }

  lemma RetireExplained(s: State, asset: AssetId, now: Time)
    requires LogExplainsTrust(s) && RetireAsset(s, asset, now).Committed?
    ensures LogExplainsTrust(RetireAsset(s, asset, now).next)
  {
    var n := RetireAsset(s, asset, now).next;
    forall i | 0 <= i < |n.facts| ensures Explained(n.facts[i], n.attestations, i) {
      assert QuietRow(s.facts[i], n.facts[i]);
      QuietStep(s, n.facts, i);
    }
  }

  lemma StepExplained(same: Equality, s: State, op: Op)
    requires LogExplainsTrust(s)
    ensures LogExplainsTrust(Step(same, s, op))
  {
    if Apply(same, s, op).Committed? {
      match op
      case DoAssert(asset, c, screened, now) => AssertExplained(same, s, asset, c, screened, now);
      case DoDesire(asset, p, screened, unit, subject, now) => DesireExplained(s, asset, p, screened, unit, subject, now);
      case DoTransition(id, action, subject, now) => TransitionExplained(s, id, action, subject, now);
      case DoRetire(asset, now) => RetireExplained(s, asset, now);
      case _ => assert Step(same, s, op).facts == s.facts && Step(same, s, op).attestations == s.attestations;
    }
  }

  /** In every reachable state, whatever the steps and the clock, replaying the log gives every fact's trust. */
  lemma {:induction false} ReplayOverRuns(same: Equality, ops: seq<Op>)
    ensures LogExplainsTrust(Run(same, EMPTY, ops))
  {
    if ops != [] {
      ReplayOverRuns(same, ops[..|ops| - 1]);
      StepExplained(same, Run(same, EMPTY, ops[..|ops| - 1]), ops[|ops| - 1]);
    }
  }

  /** A row relabelled STALE is past trusting: no transition of it is ever accepted again. */
  lemma StaleIsFinal(s: State, id: nat, action: Action, subject: string, now: Time)
    requires LogExplainsTrust(s) && id < |s.facts|
    requires Replay(s.attestations, id, s.facts[id].sourceType) != Some(TrustOf(s.facts[id]))
    ensures Transition(s, id, action, subject, now) == Refused(ClosedClaim)
  {
    assert Explained(s.facts[id], s.attestations, id);
  }
}
