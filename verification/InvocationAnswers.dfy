/** What each call comes to, answer by answer, and what an invocation's end says of its life. */
module InvocationAnswers {
  import opened Base
  import opened ToolVocabulary
  import opened M = InvocationMachine
  import opened I = InvocationService
  import opened U = Launches
  import Q = ApprovalQuorum

  // ---- The end of an invocation ----

  /** The call is a dispatch that launched and committed, and the adapter came to what the state tells. */
  ghost predicate EndedBy(i: Invocation, cs: seq<Call>, k: nat, s: State)
    requires k < |cs|
  {
    LaunchAt(i, cs, k) && cs[k].dispatch.commits
    && var o, mustValidate := cs[k].dispatch.outcome, i.terms.validationRequired;
       match s
       case Failed => o.AdapterFailed?
       case TimedOut => o.AdapterTimedOut?
       case Succeeded => o.Returned? && (!mustValidate || o.confirmed)
       case ValidationFailed => o.Returned? && mustValidate && !o.confirmed
       case _ => false
  }

  /** Validation is over when its transaction commits: no call leaves the row VALIDATING. */
  lemma NeverRestsValidating(i: Invocation, c: Call)
    requires Sound(i) && !i.machine.row.state.Validating?
    ensures !Serve(i, c).machine.row.state.Validating?
  {
    if c.DoDecide? {
      DecisionSettles(i, c.decision);
    } else if c.DoDispatch? && c.dispatch.commits {
      DispatchEnds(i, c.dispatch);
    } else if Serve(i, c).machine.row.state.Validating? {
      Q.NotEntered(i.machine, WritesOf(i, c), Validating);
    }
  }

  /** A dispatch that commits leaves the row alone without its lease, ends it EXPIRED when its gate refuses, and otherwise
      in one of the four states that tell what came of the adapter. */
  lemma DispatchEnds(i: Invocation, d: Dispatch)
    requires Inv(i.machine) && d.commits
    ensures var r := Serve(i, DoDispatch(d)).machine.row;
      if !Owns(i.machine.row, d.leaseId, d.now) then r == i.machine.row
      else if !Launches(i, d) then r.state.Expired?
      else Tells(r.state, d.outcome, i.terms.validationRequired)
           && (r.state.Failed? || r.state.TimedOut? || r.state.Succeeded? || r.state.ValidationFailed?)
  {
    if !Owns(i.machine.row, d.leaseId, d.now) {
      WithoutTheLeaseNothingHappens(i, d);
    } else if !Launches(i, d) {
      RefusalExpires(i, d);
    } else {
      LaunchFinishes(i, d);
    }
  }

  predicate IsEnd(s: State) { s.Failed? || s.TimedOut? || s.Succeeded? || s.ValidationFailed? }

  /** A call that ends an invocation so is a dispatch that launched. */
  lemma EndEntered(i: Invocation, c: Call, s: State)
    requires Sound(i) && !i.machine.row.state.Validating? && IsEnd(s)
    requires i.machine.row.state != s && Serve(i, c).machine.row.state == s
    ensures c.DoDispatch? && c.dispatch.commits && Launches(i, c.dispatch)
    ensures Tells(s, c.dispatch.outcome, i.terms.validationRequired)
  {
    if c.DoDecide? {
      DecisionSettles(i, c.decision);
    } else if c.DoDispatch? && c.dispatch.commits {
      DispatchEnds(i, c.dispatch);
    } else if c.DoReap? {
      ReaperMustLose(i, c.held, c.heldLease, c.refreshed);
      if c.held.Executing? { Q.NotEntered(i.machine, WritesOf(i, c), s); }
    } else {
      Q.NotEntered(i.machine, WritesOf(i, c), s);
    }
  }

  lemma {:induction false} NeverFoundValidating(terms: Terms, cs: seq<Call>)
    ensures !Lifetime(CreatedAllowed(terms), cs).machine.row.state.Validating?
  {
    CreationIsSound(terms);
    if cs != [] {
      var front := cs[..|cs| - 1];
      NeverFoundValidating(terms, front);
      LifetimeIsSound(CreatedAllowed(terms), front);
      NeverRestsValidating(Lifetime(CreatedAllowed(terms), front), cs[|cs| - 1]);
    }
  }

  lemma {:induction false} EndHasLaunch(terms: Terms, cs: seq<Call>, s: State) returns (k: nat)
    requires IsEnd(s) && Lifetime(CreatedAllowed(terms), cs).machine.row.state == s
    ensures k < |cs| && EndedBy(CreatedAllowed(terms), cs, k, s)
  {
    CreationIsSound(terms);
    var start, last := CreatedAllowed(terms), |cs| - 1;
    var front := cs[..last];
    LifetimeIsSound(start, front);
    NeverFoundValidating(terms, front);
    if Lifetime(start, front).machine.row.state == s {
      k := EndHasLaunch(terms, front, s);
      assert front[..k] == cs[..k];
    } else {
      k := last;
      EndEntered(Lifetime(start, front), cs[last], s);
    }
  }

  /** Over every life: an invocation is FAILED, TIMED_OUT, SUCCEEDED or VALIDATION_FAILED exactly when a dispatch launched
      and committed and its adapter failed, timed out, or returned a result that stands or does not. So what had to be
      validated and succeeded was confirmed. */
  lemma {:induction false} EndsExactly(terms: Terms, cs: seq<Call>, s: State)
    requires s.Failed? || s.TimedOut? || s.Succeeded? || s.ValidationFailed?
    ensures Lifetime(CreatedAllowed(terms), cs).machine.row.state == s <==>
      exists k :: 0 <= k < |cs| && EndedBy(CreatedAllowed(terms), cs, k, s)
  {
    if Lifetime(CreatedAllowed(terms), cs).machine.row.state == s {
      var k := EndHasLaunch(terms, cs, s);
    } else {
      forall k | 0 <= k < |cs| ensures !EndedBy(CreatedAllowed(terms), cs, k, s) {
        if EndedBy(CreatedAllowed(terms), cs, k, s) { LaunchEnds(terms, cs, k, s); }
      }
    }
  }

  lemma {:induction false} LaunchEnds(terms: Terms, cs: seq<Call>, k: nat, s: State)
    requires IsEnd(s) && k < |cs| && EndedBy(CreatedAllowed(terms), cs, k, s)
    ensures Lifetime(CreatedAllowed(terms), cs).machine.row.state == s
  {
    CreationIsSound(terms);
    FinishedAfter(CreatedAllowed(terms), cs, k, |cs|);
    TellsOne(Lifetime(CreatedAllowed(terms), cs[..|cs|]).machine.row.state, s, cs[k].dispatch.outcome, terms.validationRequired);
    assert cs[..|cs|] == cs;
  }

  lemma TellsOne(a: State, b: State, o: I.Outcome, mustValidate: bool)
    requires Tells(a, o, mustValidate) && Tells(b, o, mustValidate)
    ensures a == b
  {
    match o
    case AdapterFailed =>
    case AdapterTimedOut =>
    case Returned(_, confirmed) =>
  }

  /** The call is a dispatch that launched and committed, whose adapter returned and whose validation confirmed. */
  ghost predicate ConfirmedAt(i: Invocation, cs: seq<Call>, k: nat)
    requires k < |cs|
  {
    LaunchAt(i, cs, k) && cs[k].dispatch.commits && cs[k].dispatch.outcome.Returned? && cs[k].dispatch.outcome.confirmed
  }

  /** What must be validated succeeded exactly when a launch that committed was confirmed. */
  lemma {:induction false} SucceedsConfirmed(terms: Terms, cs: seq<Call>)
    requires terms.validationRequired
    ensures Lifetime(CreatedAllowed(terms), cs).machine.row.state.Succeeded? <==>
      exists k :: 0 <= k < |cs| && ConfirmedAt(CreatedAllowed(terms), cs, k)
  {
    EndsExactly(terms, cs, Succeeded);
    assert CreatedAllowed(terms).terms == terms;
    forall k | 0 <= k < |cs|
      ensures EndedBy(CreatedAllowed(terms), cs, k, Succeeded) <==> ConfirmedAt(CreatedAllowed(terms), cs, k)
    {
    }
  }

  lemma {:induction false} LogGrows(m: Machine, ws: seq<Write>)
    requires Transaction(m, ws).Some?
    ensures m.events <= Transaction(m, ws).value.events
  {
    if ws != [] { LogGrows(m, ws[..|ws| - 1]); }
  }

  /** Whatever the gate says and whoever holds the row, a dispatch that commits leaves its evaluation in the log, as the
      first of its events and with the state its worker read; the lease's owner also has the decision on the row, with the
      number of that event. */
  lemma EvaluationIsOnRecord(i: Invocation, d: Dispatch)
    requires Inv(i.machine) && d.commits
    ensures var m, n := i.machine, Serve(i, DoDispatch(d)).machine;
      && m.events + [Event(|m.events| + 1, Some(d.observed), d.observed)] <= n.events
      && n.row.gate == if Owns(m.row, d.leaseId, d.now) then Some(GateRecord(Launches(i, d), |m.events| + 1)) else m.row.gate
  {
    var m, rest := i.machine, if !Owns(i.machine.row, d.leaseId, d.now) then []
                              else if Launches(i, d) then ExecutionWrites(i.terms, d.outcome) else [Release(Executing, Expired)];
    GateLeaves(i, d);
    var g := Transaction(m, GateWrites(i, d)).value;
    assert DispatchWrites(i, d) == GateWrites(i, d) + rest;
    TransactionInTwo(m, GateWrites(i, d), rest);
    if Owns(m.row, d.leaseId, d.now) {
      if Launches(i, d) { ExecutionFinishes(g, i.terms, d.outcome); } else { Wins(g, Executing, Expired, Clear); }
    }
    LogGrows(g, rest);
    OnlyRecordedGates(g, rest);
    NoteFirst(i, d);
  }

  lemma NoteFirst(i: Invocation, d: Dispatch)
    requires Inv(i.machine)
    ensures Transaction(i.machine, GateWrites(i, d)).Some?
    ensures i.machine.events + [Event(|i.machine.events| + 1, Some(d.observed), d.observed)] <=
      Transaction(i.machine, GateWrites(i, d)).value.events
  {
    GateLeaves(i, d);
    var note, record := DoNote(d.observed, 0), DoRecordGate(d.leaseId, d.now, GateOf(i, d));
    NoteLeaves(i.machine, d.observed);
    assert GateWrites(i, d) == [note] + [record];
    TransactionInTwo(i.machine, [note], [record]);
    LogGrows(Transaction(i.machine, [note]).value, [record]);
  }

  // ---- A denial ----

  /** A denial that is taken, on a request that waits, is the end of it: it is on record, the invocation is DENIED, and
      whatever is called afterwards it stays so and no adapter is asked to act. */
  lemma {:induction false} DenialIsTheEnd(i: Invocation, d: Decision, cs: seq<Call>)
    requires Sound(i) && i.machine.row.state.AwaitingApproval? && d.held.AwaitingApproval? && !d.granted
    requires d.stated == i.terms.digest && i.terms.ttlSeconds > 0
    requires exists h, r :: RoleValue(h) in d.roles && r in Implied(h) && RoleValue(r) in i.terms.approverRoles
    requires d.approver == i.terms.requester ==> d.selfAllowed && i.terms.selfApprovalPermitted
    ensures Decide(i, d).approvals == i.approvals + [Approval(false, i.terms.digest, d.approver,
                                                              d.approver == i.terms.requester, d.now + i.terms.ttlSeconds)]
    ensures Lifetime(Decide(i, d), cs).machine.row.state.Denied?
    ensures forall k :: 0 <= k < |cs| ==> !LaunchAt(Decide(i, d), cs, k)
  {
    OnlyAuthorisedDecisionsCount(i, d);
    DecisionAnswersExactly(i, d);
    DecideKeeps(i, d);
    LifeStaysFinished(Decide(i, d), cs);
    forall k | 0 <= k < |cs| ensures !LaunchAt(Decide(i, d), cs, k) { LifeStaysFinished(Decide(i, d), cs[..k]); }
  }

  /** The decision that put an approval or a denial on record: on this envelope, by someone who effectively held an approver
      role of the snapshot, not the requester unless both server and snapshot permitted it. */
  ghost predicate WasDecided(terms: Terms, a: Approval, c: Call) {
    c.DoDecide? && var d := c.decision;
      && a == Approval(d.granted, terms.digest, d.approver, d.approver == terms.requester, d.now + terms.ttlSeconds)
      && d.stated == terms.digest
      && (exists h, r :: RoleValue(h) in d.roles && r in Implied(h) && RoleValue(r) in terms.approverRoles)
      && (d.approver == terms.requester ==> d.selfAllowed && terms.selfApprovalPermitted)
  }

  /** Over every life, each approval on record was put there by one decision of it that was entitled to. */
  lemma {:induction false} ApprovalsWereDecided(terms: Terms, cs: seq<Call>, j: nat) returns (k: nat)
    requires j < |Lifetime(CreatedAllowed(terms), cs).approvals|
    ensures k < |cs| && WasDecided(terms, Lifetime(CreatedAllowed(terms), cs).approvals[j], cs[k])
  {
    var start, last := CreatedAllowed(terms), |cs| - 1;
    var front := cs[..last];
    CreationIsSound(terms);
    LifetimeIsSound(start, front);
    var i := Lifetime(start, front);
    if cs[last].DoDecide? { OnlyAuthorisedDecisionsCount(i, cs[last].decision); }
    if j < |i.approvals| {
      k := ApprovalsWereDecided(terms, front, j);
    } else {
      k := last;
    }
  }

  // ---- The other calls ----

  /** A claim takes a READY row, with its lease, one attempt more and the event; any other row it leaves alone. */
  lemma ClaimAnswersExactly(i: Invocation, lease: Lease)
    requires Inv(i.machine)
    ensures var m, n := i.machine, Serve(i, DoClaimFor(lease)).machine;
      if m.row.state.Ready? then
        && n.row == m.row.(state := Executing, lease := Some(lease), attempts := m.row.attempts + 1)
        && n.events == m.events + [Event(|m.events| + 1, Some(Ready), Executing)]
      else n == m
  {
    var m := i.machine;
    SingleWrite(m, M.DoClaim(lease, 0));
    SequenceIsForced(m.(row := m.row.(state := Executing, lease := Some(lease), attempts := m.row.attempts + 1)),
                     Some(Ready), Executing, 0);
  }

  /** One compare-and-set of a caller that catches its loss. */
  lemma CaughtMove(m: Machine, held: State, to: State, expected: Option<Lease>, lease: LeaseWrite, refreshed: State)
    requires Inv(m) && Legal(held, to) && !Leased(to) && (lease.Clear? || (lease.Keep? && !Leased(held)))
    ensures var n := Commit(m, [DoTransition(held, to, expected, lease, refreshed, 0, true)]);
      if m.row.state == held && (expected.None? || m.row.lease == expected) then
        && n.row == m.row.(state := to, lease := None)
        && n.events == m.events + [Event(|m.events| + 1, Some(held), to)]
      else n.row == m.row && n.events == m.events + [Event(|m.events| + 1, Some(refreshed), refreshed)]
  {
    SingleWrite(m, DoTransition(held, to, expected, lease, refreshed, 0, true));
    SequenceIsForced(m.(row := m.row.(state := to, lease := WriteLease(m.row.lease, lease))), Some(held), to, 0);
    SequenceIsForced(m, Some(refreshed), refreshed, 0);
  }

  /** The reaper ends a row that is still as it judged it: unknown if it was executing, unvalidated if it was validating. */
  lemma ReapAnswersExactly(i: Invocation, held: State, lease: Lease, refreshed: State)
    requires Inv(i.machine)
    ensures var m, n := i.machine, Serve(i, DoReap(held, lease, refreshed)).machine;
      if !held.Executing? && !held.Validating? then n == m
      else if m.row.state == held && m.row.lease == Some(lease) then
        n.row == m.row.(state := if held.Executing? then ExecutionIndeterminate else ValidationFailed, lease := None)
      else n.row == m.row
  {
    if held.Executing? {
      CaughtMove(i.machine, held, ExecutionIndeterminate, Some(lease), Clear, refreshed);
    } else if held.Validating? {
      CaughtMove(i.machine, held, ValidationFailed, Some(lease), Clear, refreshed);
    }
  }

  /** The sweeper ends a request that needed approval and still waits, for it or for execution. */
  lemma SweepAnswersExactly(i: Invocation, held: State, refreshed: State)
    requires Inv(i.machine)
    ensures var m, n := i.machine, Serve(i, DoSweep(held, refreshed)).machine;
      if i.terms.approvalRequired && (held.AwaitingApproval? || held.Ready?) && m.row.state == held
      then n.row == m.row.(state := Expired) else n.row == m.row
  {
    if i.terms.approvalRequired && (held.AwaitingApproval? || held.Ready?) {
      CaughtMove(i.machine, held, Expired, None, Keep, refreshed);
    }
  }

  /** A cancellation ends a request that still waits as it was read, and otherwise is rolled back. */
  lemma CancelAnswersExactly(i: Invocation, held: State)
    requires Inv(i.machine)
    ensures var m, n := i.machine, Serve(i, DoCancel(held)).machine;
      if (held.AwaitingApproval? || held.Ready?) && m.row.state == held then
        n.row == m.row.(state := Cancelled) && Trail(n.events) == Trail(m.events) + [Cancelled]
      else n == m
  {
    if held.AwaitingApproval? || held.Ready? {
      if i.machine.row.state == held {
        Wins(i.machine, held, Cancelled, Keep);
      } else {
        StaleMoveRaises(i.machine, held, Cancelled);
      }
    }
  }
}
