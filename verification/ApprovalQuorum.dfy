/**
 Counting approvers. Each decision counts the committed approvals its own snapshot shows, so decisions taken at the same
 moment can each count too few: exactly when that leaves a complete quorum waiting, and how it ends.
 */
module ApprovalQuorum {
  import opened Base
  import opened ToolVocabulary
  import opened M = InvocationMachine
  import opened InvocationService

  /** A state no write of a transaction names is not entered by it. */
  lemma NotEntered(m: Machine, ws: seq<Write>, s: State)
    requires Inv(m) && (forall w :: w in ws ==> !Targets(w, s)) && Commit(m, ws).row.state == s
    ensures m.row.state == s
  {
    TransactionKeeps(m, ws);
    var path, longer := Trail(m.events), Trail(Commit(m, ws).events);
    assert Last(longer) in longer;
    OnlyByTarget(m, ws, s);
    PathIsShort(longer);
    var k :| 0 <= k < |path| && path[k] == s;
    assert longer[k] == longer[..|path|][k];
  }

  lemma StillWaiting(i: Invocation, c: Call)
    requires Inv(i.machine) && Serve(i, c).machine.row.state.AwaitingApproval?
    ensures i.machine.row.state.AwaitingApproval?
  {
    if c.DoDecide? {
      DecisionSettles(i, c.decision);
    } else {
      NotEntered(i.machine, WritesOf(i, c), AwaitingApproval);
    }
  }

  // ---- Exactly when a quorum is missed, and how it ends ----

  /** An approval the service takes. */
  ghost predicate Admitted(i: Invocation, d: Decision) {
    d.granted && MayDecide(i, d) && ApprovalInserts(i, ApprovalOf(i, d), d.now)
  }

  /** The approval completes the quorum, but the count it is judged by misses an approver on record. */
  ghost predicate Misses(i: Invocation, d: Decision) {
    Admitted(i, d) && |Approvers(i.approvals)| + 1 == i.terms.minApprovals && !(Approvers(i.approvals) <= d.counted)
  }

  lemma ApprovalAddsOne(i: Invocation, d: Decision)
    requires Admitted(i, d)
    ensures Approvers(i.approvals + [ApprovalOf(i, d)]) == Approvers(i.approvals) + {d.approver}
    ensures |Approvers(i.approvals + [ApprovalOf(i, d)])| == |Approvers(i.approvals)| + 1
  {
    var a := ApprovalOf(i, d);
    var more := i.approvals + [a];
    forall x | x in Approvers(i.approvals) + {d.approver} ensures x in Approvers(more) {
      if x in Approvers(i.approvals) {
        var b :| b in i.approvals && b.granted && b.approver == x;
        assert b in more;
      } else {
        assert a in more;
      }
    }
  }

  lemma CountIsFullExactly(i: Invocation, d: Decision)
    requires d.approver !in Approvers(i.approvals)
    ensures |Counted(i, d)| <= |Approvers(i.approvals)| + 1
    ensures |Counted(i, d)| == |Approvers(i.approvals)| + 1 <==> Approvers(i.approvals) <= d.counted
  {
    var all := Approvers(i.approvals);
    var seen := d.counted * all;
    SubsetSize(seen, all);
    if x :| x in all && x !in d.counted {
      SubsetSize(seen, all - {x});
    } else {
      assert seen == all;
    }
  }

  /** An approval moves a waiting invocation on exactly when what it counts reaches the number required. */
  lemma ApprovalMovesExactly(i: Invocation, d: Decision)
    requires Sound(i) && i.machine.row.state.AwaitingApproval? && Admitted(i, d)
    ensures var n := Decide(i, d);
      && n.approvals == i.approvals + [ApprovalOf(i, d)]
      && n.machine.row.state == if |Counted(i, d)| >= i.terms.minApprovals then Ready else AwaitingApproval
  {
    MovesTwice(i.machine, AwaitingApproval, Approved, Ready);
  }

  /** With one approver missing, the approval that completes the quorum leaves the invocation waiting exactly when its
      count misses an approver on record; otherwise it is ready. */
  lemma StallsExactly(i: Invocation, d: Decision)
    requires Sound(i) && i.machine.row.state.AwaitingApproval? && Admitted(i, d)
    requires |Approvers(i.approvals)| + 1 == i.terms.minApprovals
    ensures |Approvers(Decide(i, d).approvals)| == i.terms.minApprovals
    ensures Decide(i, d).machine.row.state.AwaitingApproval? <==> !(Approvers(i.approvals) <= d.counted)
    ensures !Decide(i, d).machine.row.state.AwaitingApproval? ==> Decide(i, d).machine.row.state.Ready?
  {
    ApprovalMovesExactly(i, d);
    ApprovalAddsOne(i, d);
    CountIsFullExactly(i, d);
  }

  /** A stall is not for ever: any further approval that counts the rows on record makes the invocation ready, and the
      sweeper can expire it. */
  lemma StallsEnd(i: Invocation, d: Decision, refreshed: State)
    requires Sound(i) && i.machine.row.state.AwaitingApproval? && |Approvers(i.approvals)| >= i.terms.minApprovals
    ensures Admitted(i, d) && Approvers(i.approvals) <= d.counted ==> Decide(i, d).machine.row.state.Ready?
    ensures i.terms.approvalRequired ==> Serve(i, DoSweep(AwaitingApproval, refreshed)).machine.row.state.Expired?
  {
    if Admitted(i, d) && Approvers(i.approvals) <= d.counted {
      ApprovalMovesExactly(i, d);
      CountIsFullExactly(i, d);
    }
    if i.terms.approvalRequired { SweepWins(i, refreshed); }
  }

  lemma SweepWins(i: Invocation, refreshed: State)
    requires Inv(i.machine) && i.machine.row.state.AwaitingApproval? && i.terms.approvalRequired
    ensures Serve(i, DoSweep(AwaitingApproval, refreshed)).machine.row.state.Expired?
  {
    var m, w := i.machine, DoTransition(AwaitingApproval, Expired, None, Keep, refreshed, 0, true);
    SingleWrite(m, w);
    SequenceIsForced(m.(row := m.row.(state := Expired)), Some(AwaitingApproval), Expired, 0);
    assert Apply(m, w).Ok?;
  }

  /** One call of a life that goes on waiting completes its approvers exactly by a miss. */
  lemma StallStep(i: Invocation, c: Call)
    requires Sound(i) && i.terms.minApprovals >= 1 && Serve(i, c).machine.row.state.AwaitingApproval?
    ensures |Approvers(Serve(i, c).approvals)| >= i.terms.minApprovals <==>
      |Approvers(i.approvals)| >= i.terms.minApprovals || (c.DoDecide? && Misses(i, c.decision))
  {
    StillWaiting(i, c);
    if c.DoDecide? {
      var d := c.decision;
      DecisionSettles(i, d);
      DecidedApprovals(i, d);
      if Admitted(i, d) {
        ApprovalMovesExactly(i, d);
        ApprovalAddsOne(i, d);
        CountIsFullExactly(i, d);
      }
    }
  }

  ghost predicate MissedAt(i: Invocation, cs: seq<Call>, k: nat)
    requires k < |cs|
  {
    cs[k].DoDecide? && Misses(Lifetime(i, cs[..k]), cs[k].decision)
  }

  ghost predicate SomeMissed(i: Invocation, cs: seq<Call>) { exists k :: 0 <= k < |cs| && MissedAt(i, cs, k) }

  /** Over every life: an invocation that still waits has its quorum on record exactly when some approval completed it and
      was judged by a count that missed an approver. */
  lemma {:induction false} StallOverLives(terms: Terms, cs: seq<Call>)
    requires terms.minApprovals >= 1
    ensures var i := Lifetime(CreatedAllowed(terms), cs);
      i.machine.row.state.AwaitingApproval? ==>
        (|Approvers(i.approvals)| >= terms.minApprovals <==> SomeMissed(CreatedAllowed(terms), cs))
  {
    CreationIsSound(terms);
    if cs == [] {
      assert Approvers([]) == {};
    } else {
      var last := |cs| - 1;
      var front := cs[..last];
      LifetimeIsSound(CreatedAllowed(terms), front);
      var i := Lifetime(CreatedAllowed(terms), front);
      if Serve(i, cs[last]).machine.row.state.AwaitingApproval? {
        StillWaiting(i, cs[last]);
        StallOverLives(terms, front);
        StallStep(i, cs[last]);
        MissedInFront(CreatedAllowed(terms), cs);
      }
    }
  }

  lemma {:induction false} MissedInFront(i: Invocation, cs: seq<Call>)
    requires cs != []
    ensures SomeMissed(i, cs) <==> SomeMissed(i, cs[..|cs| - 1]) || MissedAt(i, cs, |cs| - 1)
  {
    var front := cs[..|cs| - 1];
    forall k | 0 <= k < |front| ensures MissedAt(i, front, k) <==> MissedAt(i, cs, k) {
      assert front[..k] == cs[..k] && front[k] == cs[k];
    }
  }

  /** Every decision of the life counted all the approvals on record. */
  ghost predicate CountsAll(i: Invocation, cs: seq<Call>) {
    forall k :: 0 <= k < |cs| && cs[k].DoDecide? ==> Approvers(Lifetime(i, cs[..k]).approvals) <= cs[k].decision.counted
  }

  /** While it waits it lacks approvers, if every decision counted them all. */
  lemma {:induction false} WaitingLacksApprovers(terms: Terms, cs: seq<Call>)
    requires terms.minApprovals >= 1 && CountsAll(CreatedAllowed(terms), cs)
    ensures var i := Lifetime(CreatedAllowed(terms), cs);
      i.machine.row.state.AwaitingApproval? ==> |Approvers(i.approvals)| < terms.minApprovals
  {
    StallOverLives(terms, cs);
    forall k | 0 <= k < |cs| ensures !MissedAt(CreatedAllowed(terms), cs, k) {
      assert cs[k].DoDecide? ==> Approvers(Lifetime(CreatedAllowed(terms), cs[..k]).approvals) <= cs[k].decision.counted;
    }
  }

  lemma AdminHoldsApproval()
    ensures RoleValue(Approver) in APPROVAL_AUTHORITY * Held({RoleValue(Admin)})
  {
    var admin := {RoleValue(Admin)};
    assert RoleValue(Admin) in admin && Admin in ALL_ROLES && Approver in Implied(Admin);
    assert Approver in EffectiveRoles(admin);
  }

  lemma LoneDecision(i: Invocation, d: Decision, who: string)
    requires Admitted(i, d) && Counted(i, d) == {who} && i.terms.minApprovals == 2
    ensures Decide(i, d) == i.(approvals := i.approvals + [ApprovalOf(i, d)], received := 1)
  {
  }

  /** The approval of a person who holds no role but administrator, and who sees no approval but the own. */
  function AloneBy(terms: Terms, who: string, now: Time): Decision {
    Decision(AwaitingApproval, who, {RoleValue(Admin)}, false, terms.digest, true, {}, now)
  }

  lemma AloneIsAdmitted(i: Invocation, who: string, now: Time)
    requires i.terms.approverRoles == APPROVAL_AUTHORITY && i.terms.ttlSeconds > 0
    requires who != i.terms.requester && who !in Approvers(i.approvals)
    ensures Admitted(i, AloneBy(i.terms, who, now)) && Counted(i, AloneBy(i.terms, who, now)) == {who}
  {
    AdminHoldsApproval();
  }

  /** Two approvers who decide at the same moment each count only themselves: the quorum is on record and nothing moves. */
  lemma ConcurrentApproversCanStall(terms: Terms, ann: string, bob: string, now: Time)
    requires terms.approvalRequired && terms.minApprovals == 2 && terms.ttlSeconds > 0
    requires terms.approverRoles == APPROVAL_AUTHORITY && ann != bob && ann != terms.requester && bob != terms.requester
    ensures exists cs ::
      && Lifetime(CreatedAllowed(terms), cs).machine.row.state.AwaitingApproval?
      && |Approvers(Lifetime(CreatedAllowed(terms), cs).approvals)| == terms.minApprovals
  {
    CreationIsSound(terms);
    var i := CreatedAllowed(terms);
    var first, second := AloneBy(terms, ann, now), AloneBy(terms, bob, now);
    var cs := [DoDecide(first), DoDecide(second)];
    TwoCalls(i, cs[0], cs[1]);
    assert Approvers(i.approvals) == {};
    AloneIsAdmitted(i, ann, now);
    LoneDecision(i, first, ann);
    ApprovalAddsOne(i, first);
    var j := Decide(i, first);
    AloneIsAdmitted(j, bob, now);
    LoneDecision(j, second, bob);
    ApprovalAddsOne(j, second);
  }
}
