/**
 When an adapter is asked to act: exactly when the lease is held and the request is vouched for by what the worker's gate
 read, at most once in an invocation's life, and never for what was not approved.
 */
module Launches {
  import opened Base
  import opened ToolVocabulary
  import opened M = InvocationMachine
  import opened InvocationService

  /** Call k of the life makes the adapter act, whether its own transaction then commits or not. */
  ghost predicate LaunchAt(i: Invocation, cs: seq<Call>, k: nat)
    requires k < |cs|
  {
    cs[k].DoDispatch? && Launches(Lifetime(i, cs[..k]), cs[k].dispatch)
  }

  /** What must hold of what the worker's gate read, some time before the lease is asserted: the tool was bound, active and
      not prohibited, the envelope recomputed is the one recorded, and where approval is required enough people had given
      it, every one read being for this envelope and none too old at the gate's own clock. */
  ghost predicate Vouched(i: Invocation, d: Dispatch) {
    && d.bound.Some? && d.lifecycle.Active?
    && !d.bound.value.prohibited && d.bound.value.capabilityTags !! PROHIBITED_CAPABILITIES
    && i.terms.recompute(d.bound.value) == i.terms.digest
    && (i.terms.approvalRequired ==>
          && (exists a :: a in ReadBy(i, d) && a.granted)
          && (forall a :: a in ReadBy(i, d) && a.granted ==> a.digest == i.terms.digest && a.expires > d.now)
          && |Approvers(ReadBy(i, d))| >= i.terms.minApprovals)
  }

  /** The adapter is asked to act exactly when the worker still holds the row and the request is vouched for. */
  lemma LaunchesExactly(i: Invocation, d: Dispatch)
    ensures Launches(i, d) <==>
      && i.machine.row.state.Executing?
      && (exists lease :: i.machine.row.lease == Some(lease) && lease.id == d.leaseId && d.now < lease.expires)
      && Vouched(i, d)
  {
    assert Owns(i.machine.row, d.leaseId, d.now) ==> i.machine.row.lease == Some(i.machine.row.lease.value);
    if d.bound.Some? { DisjointExactly(d.bound.value.capabilityTags, PROHIBITED_CAPABILITIES); }
    if i.terms.approvalRequired { ApprovalSufficesExactly(i.terms, ReadBy(i, d), d.now); }
  }

  lemma ExecutedByLaunch(i: Invocation, c: Call)
    requires Sound(i) && Executed !in Trail(i.machine.events) && Executed in Trail(Serve(i, c).machine.events)
    ensures c.DoDispatch? && Launches(i, c.dispatch) && c.dispatch.commits
  {
    if c.DoDecide? {
      DecidedMachine(i, c.decision);
    } else {
      OnlyByTarget(i.machine, WritesOf(i, c), Executed);
    }
  }

  /** What was executed was launched, by a dispatch that committed. */
  lemma {:induction false} ExecutedWasLaunched(i: Invocation, cs: seq<Call>) returns (k: nat)
    requires Sound(i) && Executed !in Trail(i.machine.events) && Executed in Trail(Lifetime(i, cs).machine.events)
    ensures k < |cs| && LaunchAt(i, cs, k) && cs[k].dispatch.commits
  {
    k := |cs| - 1;
    var front := cs[..k];
    LifetimeIsSound(i, front);
    if Executed in Trail(Lifetime(i, front).machine.events) {
      k := ExecutedWasLaunched(i, front);
      assert front[..k] == cs[..k];
    } else {
      ExecutedByLaunch(Lifetime(i, front), cs[k]);
    }
  }

  /** Whatever approvers, dispatchers, reapers, sweepers and cancellers do, and however stale what they read: an invocation
      that requires approval is never READY, and so never executed, without its quorum of different approvers of this very
      envelope, none of them its requester unless the snapshot permits it; no adapter is asked to act but by the holder of
      the lease and for a request that is vouched for as its gate read it; what was executed or has an outcome was launched
      so, and nothing succeeds unvalidated when it must be validated. */
  lemma {:induction false} NothingExecutesUnapproved(terms: Terms, cs: seq<Call>)
    ensures var i := Lifetime(CreatedAllowed(terms), cs); var path := Trail(i.machine.events);
      && (Executing in path ==> Ready in path)
      && (terms.approvalRequired && Ready in path ==> |Approvers(i.approvals)| >= terms.minApprovals)
      && (forall a :: a in i.approvals ==>
            a.digest == terms.digest && (a.approver == terms.requester ==> a.selfApproval && terms.selfApprovalPermitted))
      && (i.machine.row.state.Succeeded? || i.machine.row.state.ValidationFailed? ==>
            Executed in path && i.machine.row.gate.Some? && i.machine.row.gate.value.allowed)
      && (i.machine.row.state.Succeeded? && terms.validationRequired ==> Validating in path)
    ensures forall k :: 0 <= k < |cs| && LaunchAt(CreatedAllowed(terms), cs, k) ==>
      var i := Lifetime(CreatedAllowed(terms), cs[..k]); var d := cs[k].dispatch;
      i.terms == terms && Owns(i.machine.row, d.leaseId, d.now) && Vouched(i, d)
    ensures Executed in Trail(Lifetime(CreatedAllowed(terms), cs).machine.events) ==>
      exists k :: 0 <= k < |cs| && LaunchAt(CreatedAllowed(terms), cs, k) && cs[k].dispatch.commits
  {
    LifeIsControlled(terms, cs);
    CreationIsSound(terms);
    forall k | 0 <= k < |cs| && LaunchAt(CreatedAllowed(terms), cs, k)
      ensures var i := Lifetime(CreatedAllowed(terms), cs[..k]); var d := cs[k].dispatch;
        i.terms == terms && Owns(i.machine.row, d.leaseId, d.now) && Vouched(i, d)
    {
      LifetimeIsSound(CreatedAllowed(terms), cs[..k]);
      LaunchesExactly(Lifetime(CreatedAllowed(terms), cs[..k]), cs[k].dispatch);
    }
    if Executed in Trail(Lifetime(CreatedAllowed(terms), cs).machine.events) {
      NewNotExecuted(terms);
      var k := ExecutedWasLaunched(CreatedAllowed(terms), cs);
    }
  }

  /** The part of it that the end of a life shows. */
  lemma {:induction false} LifeIsControlled(terms: Terms, cs: seq<Call>)
    ensures var i := Lifetime(CreatedAllowed(terms), cs); var path := Trail(i.machine.events);
      && (Executing in path ==> Ready in path)
      && (terms.approvalRequired && Ready in path ==> |Approvers(i.approvals)| >= terms.minApprovals)
      && (forall a :: a in i.approvals ==>
            a.digest == terms.digest && (a.approver == terms.requester ==> a.selfApproval && terms.selfApprovalPermitted))
      && (i.machine.row.state.Succeeded? || i.machine.row.state.ValidationFailed? ==>
            Executed in path && i.machine.row.gate.Some? && i.machine.row.gate.value.allowed)
      && (i.machine.row.state.Succeeded? && terms.validationRequired ==> Validating in path)
  {
    CreationIsSound(terms);
    LifetimeIsSound(CreatedAllowed(terms), cs);
    var i := Lifetime(CreatedAllowed(terms), cs);
    var path := Trail(i.machine.events);
    if Executing in path {
      var k :| 0 <= k < |path| && path[k].Executing?;
      StepBefore(path, k);
    }
    if Last(path).Succeeded? || Last(path).ValidationFailed? { OutcomeWasExecuted(path); }
  }

  lemma NewNotExecuted(terms: Terms)
    ensures Executed !in Trail(CreatedAllowed(terms).machine.events)
  {
    AllowedWritesWin(if terms.approvalRequired then AwaitingApproval else Ready);
  }

  lemma OutcomeWasExecuted(path: seq<State>)
    requires LegalPath(path) && (Last(path).Succeeded? || Last(path).ValidationFailed?)
    ensures Executed in path
  {
    var k := |path| - 1;
    assert k >= 1 && Legal(path[k - 1], path[k]);
    StepBefore(path, k - 1);
  }

  // ---- One lease, one row: what a launch that was rolled back leaves for others ----

  /** Once the row has been claimed, a write that leaves it executing found it executing under the same lease. */
  lemma WriteKeepsLease(m: Machine, w: Write)
    requires Inv(m) && Executing in Trail(m.events) && !Apply(m, w).Raised? && Apply(m, w).machine.row.state.Executing?
    ensures m.row.state.Executing? && Apply(m, w).machine.row.lease == m.row.lease
  {
    WriteKeeps(m, w);
    var path := Trail(m.events);
    PathIsShort(Trail(Apply(m, w).machine.events));
    match w
    case DoTransition(held, to, expected, lease, refreshed, unseen, _) =>
      TransitionKeeps(m, held, to, expected, lease, refreshed, unseen);
      EnteredOnce(path, Executing);
    case DoClaim(lease, unseen) =>
      ClaimKeeps(m, lease, unseen);
      EnteredOnce(path, Executing);
    case _ =>
  }

  /** A state the path has been in is not entered again. */
  lemma EnteredOnce(path: seq<State>, s: State)
    requires s in path
    ensures !LegalPath(path + [s])
  {
    var k :| 0 <= k < |path| && path[k] == s;
    if LegalPath(path + [s]) { PathClimbs(path + [s], k, |path|); }
  }

  lemma {:induction false} TransactionKeepsLease(m: Machine, ws: seq<Write>)
    requires Inv(m) && Executing in Trail(m.events) && Commit(m, ws).row.state.Executing?
    ensures m.row.state.Executing? && Commit(m, ws).row.lease == m.row.lease
  {
    if ws != [] && Transaction(m, ws).Some? {
      var front := ws[..|ws| - 1];
      TransactionKeeps(m, front);
      StaysInTrail(m, front, Executing);
      WriteKeepsLease(Commit(m, front), ws[|ws| - 1]);
      TransactionKeepsLease(m, front);
    }
  }

  lemma StaysInTrail(m: Machine, ws: seq<Write>, s: State)
    requires Inv(m) && s in Trail(m.events)
    ensures s in Trail(Commit(m, ws).events)
  {
    TransactionKeeps(m, ws);
    var path, longer := Trail(m.events), Trail(Commit(m, ws).events);
    var k :| 0 <= k < |path| && path[k] == s;
    assert longer[k] == longer[..|path|][k];
  }

  lemma CallKeepsLease(i: Invocation, c: Call)
    requires Sound(i) && Executing in Trail(i.machine.events)
    ensures Executing in Trail(Serve(i, c).machine.events)
    ensures Serve(i, c).machine.row.state.Executing? ==>
      i.machine.row.state.Executing? && Serve(i, c).machine.row.lease == i.machine.row.lease
  {
    var n := Serve(i, c).machine;
    if c.DoDecide? {
      DecidedMachine(i, c.decision);
      var k :| 0 <= k < |Trail(i.machine.events)| && Trail(i.machine.events)[k].Executing?;
      assert Trail(n.events)[k] == Trail(n.events)[..|Trail(i.machine.events)|][k];
      DecisionSettles(i, c.decision);
    } else {
      StaysInTrail(i.machine, WritesOf(i, c), Executing);
      if n.row.state.Executing? { TransactionKeepsLease(i.machine, WritesOf(i, c)); }
    }
  }

  /** However long it executes, it is under the lease it was claimed with. */
  lemma {:induction false} LifeKeepsLease(i: Invocation, cs: seq<Call>)
    requires Sound(i) && Executing in Trail(i.machine.events)
    ensures Executing in Trail(Lifetime(i, cs).machine.events)
    ensures Lifetime(i, cs).machine.row.state.Executing? ==>
      i.machine.row.state.Executing? && Lifetime(i, cs).machine.row.lease == i.machine.row.lease
  {
    if cs != [] {
      var front := cs[..|cs| - 1];
      LifeKeepsLease(i, front);
      LifetimeIsSound(i, front);
      CallKeepsLease(Lifetime(i, front), cs[|cs| - 1]);
    }
  }

  lemma {:induction false} LifeInTwo(i: Invocation, cs: seq<Call>, k: nat)
    requires k <= |cs|
    ensures Lifetime(i, cs) == Lifetime(Lifetime(i, cs[..k]), cs[k..])
  {
    if k == |cs| {
      assert cs[..k] == cs && cs[k..] == [];
    } else {
      var front := cs[..|cs| - 1];
      LifeInTwo(i, front, k);
      assert front[..k] == cs[..k] && cs[k..][..|cs| - k - 1] == front[k..];
    }
  }

  /** A claim's lease id is new, and each claim is dispatched once. */
  ghost predicate OneDispatchPerLease(cs: seq<Call>) {
    forall k, l :: 0 <= k < l < |cs| && cs[k].DoDispatch? && cs[l].DoDispatch? ==>
      cs[k].dispatch.leaseId != cs[l].dispatch.leaseId
  }

  /** Any number of workers may claim, dispatch, fail, be cancelled and lose: at most one of them ever makes the adapter
      act, though its transaction may leave no trace. */
  lemma {:induction false} AtMostOneLaunch(i: Invocation, cs: seq<Call>, k: nat, l: nat)
    requires Sound(i) && OneDispatchPerLease(cs)
    requires k < |cs| && l < |cs| && LaunchAt(i, cs, k) && LaunchAt(i, cs, l)
    ensures k == l
  {
    if k < l {
      LaunchesShareALease(i, cs, k, l);
    } else if l < k {
      LaunchesShareALease(i, cs, l, k);
    }
  }

  lemma {:induction false} LaunchesShareALease(i: Invocation, cs: seq<Call>, k: nat, l: nat)
    requires Sound(i) && k <= l < |cs| && LaunchAt(i, cs, k) && LaunchAt(i, cs, l)
    ensures cs[k].dispatch.leaseId == cs[l].dispatch.leaseId
  {
    var first, between := Lifetime(i, cs[..k]), cs[..l][k..];
    LifetimeIsSound(i, cs[..k]);
    assert cs[..l][..k] == cs[..k];
    LifeInTwo(i, cs[..l], k);
    assert Last(Trail(first.machine.events)) in Trail(first.machine.events);
    LifeKeepsLease(first, between);
  }

  /** A launch that committed was the last: the invocation stays finished, and whatever the leases no dispatch launches
      after it. */
  lemma {:induction false} CommittedLaunchIsLast(i: Invocation, cs: seq<Call>, k: nat)
    requires Sound(i) && k < |cs| && LaunchAt(i, cs, k) && cs[k].dispatch.commits
    ensures forall l :: k < l <= |cs| ==> Terminal(Lifetime(i, cs[..l]).machine.row.state)
    ensures forall l :: k < l < |cs| ==> !LaunchAt(i, cs, l)
  {
    forall l | k < l <= |cs| ensures Terminal(Lifetime(i, cs[..l]).machine.row.state) {
      FinishedAfter(i, cs, k, l);
    }
  }

  lemma {:induction false} LaunchedAt(i: Invocation, cs: seq<Call>, k: nat)
    requires Sound(i) && k < |cs| && LaunchAt(i, cs, k) && cs[k].dispatch.commits
    ensures var end := Lifetime(i, cs[..k + 1]);
      && Sound(end) && Terminal(end.machine.row.state)
      && Tells(end.machine.row.state, cs[k].dispatch.outcome, i.terms.validationRequired)
  {
    assert cs[..k + 1][..k] == cs[..k];
    LifetimeIsSound(i, cs[..k]);
    LaunchFinishes(Lifetime(i, cs[..k]), cs[k].dispatch);
    LifetimeIsSound(i, cs[..k + 1]);
  }

  lemma {:induction false} RowStays(i: Invocation, cs: seq<Call>, k: nat, l: nat)
    requires k < l <= |cs| && Sound(Lifetime(i, cs[..k + 1])) && Terminal(Lifetime(i, cs[..k + 1]).machine.row.state)
    ensures Lifetime(i, cs[..l]).machine.row == Lifetime(i, cs[..k + 1]).machine.row
  {
    assert cs[..l][..k + 1] == cs[..k + 1];
    LifeInTwo(i, cs[..l], k + 1);
    LifeStaysFinished(Lifetime(i, cs[..k + 1]), cs[..l][k + 1..]);
  }

  lemma {:induction false} FinishedAfter(i: Invocation, cs: seq<Call>, k: nat, l: nat)
    requires Sound(i) && k < l <= |cs| && LaunchAt(i, cs, k) && cs[k].dispatch.commits
    ensures Terminal(Lifetime(i, cs[..l]).machine.row.state)
    ensures Tells(Lifetime(i, cs[..l]).machine.row.state, cs[k].dispatch.outcome, i.terms.validationRequired)
  {
    LaunchedAt(i, cs, k);
    RowStays(i, cs, k, l);
  }

  lemma {:induction false} LifeStaysFinished(i: Invocation, cs: seq<Call>)
    requires Sound(i) && Terminal(i.machine.row.state)
    ensures Lifetime(i, cs).machine.row == i.machine.row
  {
    if cs != [] {
      LifeStaysFinished(i, cs[..|cs| - 1]);
      LifetimeIsSound(i, cs[..|cs| - 1]);
      FinishedStays(Lifetime(i, cs[..|cs| - 1]), cs[|cs| - 1]);
    }
  }
}
