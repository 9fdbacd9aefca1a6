/**
 The event log of an invocation's life: exactly when it chains event by event. Its moves always do; what can break the
 chain is an event that moves nothing and names a state the row has left.
 */
module InvocationLog {
  import opened Base
  import opened M = InvocationMachine
  import opened InvocationService
  import Q = ApprovalQuorum

  /** The write leaves no event but a move's. */
  predicate OnlyMoves(w: Write) { !w.DoNote? && !(w.DoTransition? && w.catches) }

  lemma {:induction false} MovesAttend(m: Machine, ws: seq<Write>)
    requires forall k :: 0 <= k < |ws| ==> OnlyMoves(ws[k])
    ensures AllAttentive(m, ws)
  {
    if ws != [] { MovesAttend(m, ws[..|ws| - 1]); }
  }

  lemma {:induction false} FirstNoteAttends(m: Machine, note: Write, ws: seq<Write>)
    requires note.DoNote? && forall k :: 0 <= k < |ws| ==> OnlyMoves(ws[k])
    ensures AllAttentive(m, [note] + ws) <==> note.observed == m.row.state
  {
    if ws == [] {
      LoneWriteAttends(m, note);
      assert [note] + ws == [note];
    } else {
      var front, all := ws[..|ws| - 1], [note] + ws;
      FirstNoteAttends(m, note, front);
      assert all[..|all| - 1] == [note] + front && all[|all| - 1] == ws[|ws| - 1];
    }
  }

  lemma LoneWriteAttends(m: Machine, w: Write)
    ensures AllAttentive(m, [w]) <==> Attentive(m, w)
  {
    assert [w][..0] == [] && Transaction(m, []) == Some(m);
    assert AllAttentive(m, []);
  }

  /** A dispatch has nothing to fail on: what it writes commits, unless it is cancelled or raises. */
  lemma DispatchCommits(i: Invocation, d: Dispatch)
    requires Inv(i.machine)
    ensures Transaction(i.machine, DispatchWrites(i, d)).Some?
  {
    GateLeaves(i, d);
    var g := Transaction(i.machine, GateWrites(i, d)).value;
    if Launches(i, d) {
      ExecutionFinishes(g, i.terms, d.outcome);
      TransactionInTwo(i.machine, GateWrites(i, d), ExecutionWrites(i.terms, d.outcome));
    } else if Owns(i.machine.row, d.leaseId, d.now) {
      Wins(g, Executing, Expired, Clear);
      TransactionInTwo(i.machine, GateWrites(i, d), [Release(Executing, Expired)]);
    }
  }

  lemma DispatchAttends(i: Invocation, d: Dispatch)
    ensures AllAttentive(i.machine, DispatchWrites(i, d)) <==> d.observed == i.machine.row.state
  {
    var ws := DispatchWrites(i, d);
    assert ws == [ws[0]] + ws[1..];
    FirstNoteAttends(i.machine, ws[0], ws[1..]);
  }

  /** A reaper or sweeper that tries the write and loses. */
  ghost predicate Loses(i: Invocation, c: Call) {
    match c
    case DoReap(held, lease, _) => (held.Executing? || held.Validating?) && !Matches(i.machine.row, held, Some(lease))
    case DoSweep(held, _) =>
      i.terms.approvalRequired && (held.AwaitingApproval? || held.Ready?) && !Matches(i.machine.row, held, None)
    case _ => false
  }

  /** Whatever the call leaves that moves nothing names the state the row is in: the note of a dispatch that commits, the
      no-op of a reaper or sweeper that loses, the note of a reconciliation. */
  ghost predicate Attends(i: Invocation, c: Call) {
    match c
    case DoDispatch(d) => d.commits ==> d.observed == i.machine.row.state
    case DoReap(_, _, refreshed) => Loses(i, c) ==> refreshed == i.machine.row.state
    case DoSweep(_, refreshed) => Loses(i, c) ==> refreshed == i.machine.row.state
    case DoReconcile(read) => read.ExecutionIndeterminate? ==> read == i.machine.row.state
    case _ => true
  }

  lemma MovesKeepUp(m: Machine, ws: seq<Write>)
    requires Inv(m) && forall k :: 0 <= k < |ws| ==> OnlyMoves(ws[k])
    ensures NotesKeepUp(Commit(m, ws).events) <==> NotesKeepUp(m.events)
  {
    MovesAttend(m, ws);
    if Transaction(m, ws).Some? { TransactionKeepsUp(m, ws); }
  }

  /** One caught transition or note: if it is inattentive it is committed nonetheless. */
  lemma LoneWriteKeepsUp(m: Machine, w: Write)
    requires Inv(m)
    requires w.DoNote? || (w.DoTransition? && w.catches && Legal(w.held, w.to))
    requires w.unseen == 0
    ensures NotesKeepUp(Commit(m, [w]).events) <==> NotesKeepUp(m.events) && Attentive(m, w)
  {
    SingleWrite(m, w);
    LoneWriteAttends(m, w);
    if w.DoNote? {
      SequenceIsForced(m, Some(w.observed), w.observed, 0);
    } else {
      SequenceIsForced(m, Some(w.refreshed), w.refreshed, 0);
    }
    if Transaction(m, [w]).Some? { TransactionKeepsUp(m, [w]); }
  }

  lemma DecisionKeepsUp(i: Invocation, d: Decision)
    requires Inv(i.machine)
    ensures NotesKeepUp(Serve(i, DoDecide(d)).machine.events) <==> NotesKeepUp(i.machine.events)
  {
    MovesKeepUp(i.machine, [Move(d.held, Denied)]);
    MovesKeepUp(i.machine, [Move(d.held, Approved), Move(Approved, Ready)]);
  }

  lemma DispatchKeepsUp(i: Invocation, d: Dispatch)
    requires Inv(i.machine) && d.commits
    ensures NotesKeepUp(Serve(i, DoDispatch(d)).machine.events) <==>
      NotesKeepUp(i.machine.events) && d.observed == i.machine.row.state
  {
    DispatchCommits(i, d);
    DispatchAttends(i, d);
    TransactionKeepsUp(i.machine, DispatchWrites(i, d));
  }

  lemma CallKeepsUp(i: Invocation, c: Call)
    requires Inv(i.machine)
    ensures NotesKeepUp(Serve(i, c).machine.events) <==> NotesKeepUp(i.machine.events) && Attends(i, c)
  {
    var ws := WritesOf(i, c);
    if c.DoDecide? {
      DecisionKeepsUp(i, c.decision);
    } else if c.DoDispatch? && c.dispatch.commits {
      DispatchKeepsUp(i, c.dispatch);
    } else if (c.DoReap? || c.DoSweep? || c.DoReconcile?) && ws != [] {
      LoneWriteKeepsUp(i.machine, ws[0]);
    } else {
      MovesKeepUp(i.machine, ws);
    }
  }

  ghost predicate AllAttend(i: Invocation, cs: seq<Call>) {
    if cs == [] then true else AllAttend(i, cs[..|cs| - 1]) && Attends(Lifetime(i, cs[..|cs| - 1]), cs[|cs| - 1])
  }

  lemma {:induction false} LifeKeepsUp(i: Invocation, cs: seq<Call>)
    requires Sound(i) && NotesKeepUp(i.machine.events)
    ensures NotesKeepUp(Lifetime(i, cs).machine.events) <==> AllAttend(i, cs)
  {
    if cs != [] {
      LifeKeepsUp(i, cs[..|cs| - 1]);
      LifetimeIsSound(i, cs[..|cs| - 1]);
      CallKeepsUp(Lifetime(i, cs[..|cs| - 1]), cs[|cs| - 1]);
    }
  }

  /** The log of an invocation's life chains event by event exactly when every event left that moves nothing, by whoever,
      named the state the row was still in. */
  lemma {:induction false} LifeChainsExactly(terms: Terms, cs: seq<Call>)
    ensures Chains(Lifetime(CreatedAllowed(terms), cs).machine.events) <==> AllAttend(CreatedAllowed(terms), cs)
  {
    CreationIsSound(terms);
    CreatedIsSound();
    MovesKeepUp(CREATED, [Move(Requested, Authorized),
                          Move(Authorized, if terms.approvalRequired then AwaitingApproval else Ready)]);
    LifeKeepsUp(CreatedAllowed(terms), cs);
    LifetimeIsSound(CreatedAllowed(terms), cs);
    ChainsExactly(Lifetime(CreatedAllowed(terms), cs).machine.events);
  }

  // ---- It need not chain ----

  lemma ClaimWins(i: Invocation, lease: Lease)
    requires Inv(i.machine) && i.machine.row.state.Ready?
    ensures var n := Serve(i, DoClaimFor(lease)).machine;
      Inv(n) && n.row.state.Executing? && n.row.lease == Some(lease)
  {
    var m := i.machine;
    SingleWrite(m, M.DoClaim(lease, 0));
    SequenceIsForced(m.(row := m.row.(state := Executing, lease := Some(lease), attempts := m.row.attempts + 1)),
                     Some(Ready), Executing, 0);
    ClaimKeeps(m, lease, 0);
  }

  lemma ReapWins(i: Invocation, lease: Lease, refreshed: State)
    requires Inv(i.machine) && i.machine.row.state.Executing? && i.machine.row.lease == Some(lease)
    ensures Serve(i, DoReap(Executing, lease, refreshed)).machine.row.state.ExecutionIndeterminate?
  {
    var m, w := i.machine, DoTransition(Executing, ExecutionIndeterminate, Some(lease), Clear, refreshed, 0, true);
    SingleWrite(m, w);
    SequenceIsForced(m.(row := m.row.(state := ExecutionIndeterminate, lease := None)), Some(Executing),
                     ExecutionIndeterminate, 0);
    assert Apply(m, w).Ok?;
  }

  /** The last call of a life that does not attend breaks its chain. */
  lemma {:induction false} BreaksTheChain(terms: Terms, cs: seq<Call>, c: Call)
    requires !Attends(Lifetime(CreatedAllowed(terms), cs), c)
    ensures !Chains(Lifetime(CreatedAllowed(terms), cs + [c]).machine.events)
  {
    assert (cs + [c])[..|cs|] == cs;
    LifeChainsExactly(terms, cs + [c]);
  }

  /** A worker that claims the row and reads it, and is reaped before its note, leaves a note that names a state the row has
      left. */
  lemma ReapedBeforeItsNote(terms: Terms, lease: Lease, d: Dispatch)
    requires !terms.approvalRequired && d.leaseId == lease.id && d.observed.Executing? && d.commits
    ensures var cs := [DoClaimFor(lease), DoReap(Executing, lease, Executing), DoDispatch(d)];
      !Chains(Lifetime(CreatedAllowed(terms), cs).machine.events)
  {
    CreationIsSound(terms);
    var i := CreatedAllowed(terms);
    var cs := [DoClaimFor(lease), DoReap(Executing, lease, Executing)];
    ClaimWins(i, lease);
    ReapWins(Serve(i, cs[0]), lease, Executing);
    TwoCalls(i, cs[0], cs[1]);
    BreaksTheChain(terms, cs, DoDispatch(d));
    assert cs + [DoDispatch(d)] == [DoClaimFor(lease), DoReap(Executing, lease, Executing), DoDispatch(d)];
  }

  /** No dispatch need have run: a sweeper reads the row awaiting approval and loses to the approval; what it refreshes is
      READY; a claim commits; and the sweeper's event names READY behind EXECUTING. */
  lemma SweptBehindTheClaim(terms: Terms, d: Decision, lease: Lease)
    requires terms.approvalRequired && terms.minApprovals == 1 && Q.Admitted(CreatedAllowed(terms), d)
    ensures var cs := [DoDecide(d), DoClaimFor(lease), DoSweep(AwaitingApproval, Ready)];
      !Chains(Lifetime(CreatedAllowed(terms), cs).machine.events)
  {
    CreationIsSound(terms);
    var i := CreatedAllowed(terms);
    var cs := [DoDecide(d), DoClaimFor(lease)];
    Q.ApprovalMovesExactly(i, d);
    Q.CountIsFullExactly(i, d);
    assert Approvers(i.approvals) == {};
    ServeKeeps(i, cs[0]);
    ClaimWins(Serve(i, cs[0]), lease);
    TwoCalls(i, cs[0], cs[1]);
    LifetimeIsSound(i, cs);
    BreaksTheChain(terms, cs, DoSweep(AwaitingApproval, Ready));
    assert cs + [DoSweep(AwaitingApproval, Ready)] == [DoDecide(d), DoClaimFor(lease), DoSweep(AwaitingApproval, Ready)];
  }
}
