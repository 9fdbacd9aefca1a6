/**
 The services that drive an invocation: approval, dispatch, reaping, sweeping and cancellation, each one transaction of
 compare-and-set writes made from a state that was read earlier. A session that misses an event cannot log another, so
 only calls that see every event are told here.
 */
module InvocationService {
  import opened Base
  import opened ToolVocabulary
  import Contract
  import opened M = InvocationMachine

  /** The snapshot taken at request time; nothing rewrites it. `recompute` is the digest the stored request has under a
      declaration. */
  datatype Terms = Terms(
    approvalRequired: bool, minApprovals: int, approverRoles: set<string>, selfApprovalPermitted: bool,
    ttlSeconds: int, validationRequired: bool, digest: string, requester: string,
    recompute: Contract.ToolDefinition -> string)

  /** One row of tool_approval. */
  datatype Approval = Approval(granted: bool, digest: string, approver: string, selfApproval: bool, expires: Time)

  datatype Invocation = Invocation(terms: Terms, machine: Machine, approvals: seq<Approval>, received: int)

  /** A move whose loss is an error: what a refresh would read then is rolled back with it. */
  function MoveWith(held: State, to: State, lease: LeaseWrite): Write { DoTransition(held, to, None, lease, held, 0, false) }

  function Move(held: State, to: State): Write { MoveWith(held, to, Keep) }

  function Release(held: State, to: State): Write { MoveWith(held, to, Clear) }

  /** Creation with an allow: authorized, then the approval branch or straight to READY. */
  function CreatedAllowed(terms: Terms): Invocation {
    Invocation(terms, Commit(CREATED, [Move(Requested, Authorized),
                                       Move(Authorized, if terms.approvalRequired then AwaitingApproval else Ready)]), [], 0)
  }

  /** Creation with a denial: the refusal is the record. */
  function CreatedDenied(terms: Terms): Invocation {
    Invocation(terms, Commit(CREATED, [Move(Requested, Rejected)]), [], 0)
  }

  // ---- Approval ----

  /** The subjects whose approval is on record. */
  function Approvers(approvals: seq<Approval>): set<string> {
    set a | a in approvals && a.granted :: a.approver
  }

  /** A decision as the approval service takes it. `held` is the state it read, `counted` the approvers its count saw
      besides its own row, `selfAllowed` the server's setting. */
  datatype Decision = Decision(
    held: State, approver: string, roles: set<string>, selfAllowed: bool, stated: string, granted: bool,
    counted: set<string>, now: Time)

  /** The checks before anything is written. */
  predicate MayDecide(i: Invocation, d: Decision) {
    && d.held.AwaitingApproval?
    && d.stated == i.terms.digest
    && i.terms.approverRoles * Held(d.roles) != {}
    && (d.approver == i.terms.requester ==> d.selfAllowed && i.terms.selfApprovalPermitted)
  }

  function ApprovalOf(i: Invocation, d: Decision): Approval {
    Approval(d.granted, i.terms.digest, d.approver, d.approver == i.terms.requester, d.now + i.terms.ttlSeconds)
  }

  /** The CHECKs of the row, and the index that takes one approval per subject. */
  predicate ApprovalInserts(i: Invocation, a: Approval, now: Time) {
    && a.expires > now && (a.approver != i.terms.requester || a.selfApproval)
    && (a.granted ==> a.approver !in Approvers(i.approvals))
  }

  /** Distinct approvers as this decision counts them: committed rows it saw, and its own. */
  function Counted(i: Invocation, d: Decision): set<string> { (d.counted * Approvers(i.approvals)) + {d.approver} }

  function Decide(i: Invocation, d: Decision): Invocation {
    var a := ApprovalOf(i, d);
    if !MayDecide(i, d) || !ApprovalInserts(i, a, d.now) then i
    else if !d.granted then
      match Transaction(i.machine, [Move(d.held, Denied)])
      case None => i
      case Some(m) => i.(machine := m, approvals := i.approvals + [a])
    else if |Counted(i, d)| < i.terms.minApprovals then
      i.(approvals := i.approvals + [a], received := |Counted(i, d)|)
    else
      match Transaction(i.machine, [Move(d.held, Approved), Move(Approved, Ready)])
      case None => i
      case Some(m) => i.(machine := m, approvals := i.approvals + [a], received := i.terms.minApprovals)
  }

  // ---- Execution ----

  datatype Failure = ApprovalMissing | EnvelopeMismatch | ApprovalExpired

  /** approval_failure: why the approvals on record are not enough, or None. */
  function ApprovalFailure(terms: Terms, approvals: seq<Approval>, now: Time): Option<Failure> {
    var granted := Granted(approvals);
    if !terms.approvalRequired then None
    else if granted == [] then Some(ApprovalMissing)
    else if exists a :: a in granted && a.digest != terms.digest then Some(EnvelopeMismatch)
    else if exists a :: a in granted && a.expires <= now then Some(ApprovalExpired)
    else if |Approvers(granted)| < terms.minApprovals then Some(ApprovalMissing)
    else None
  }

  predicate IsGrant(a: Approval) { a.granted }

  function Granted(approvals: seq<Approval>): seq<Approval> { Filter(IsGrant, approvals) }

  /** What the adapter comes to; a result that is returned may still have to be validated, under a lease of its own. */
  datatype Outcome = AdapterFailed | AdapterTimedOut | Returned(validationLease: Lease, confirmed: bool)

  function ExecutionWrites(terms: Terms, o: Outcome): seq<Write> {
    match o
    case AdapterFailed => [Release(Executing, Failed)]
    case AdapterTimedOut => [Release(Executing, TimedOut)]
    case Returned(lease, confirmed) =>
      if !terms.validationRequired then [Release(Executing, Executed), Move(Executed, Succeeded)]
      else
        [Release(Executing, Executed), MoveWith(Executed, Validating, Hold(lease)),
         Release(Validating, if confirmed then Succeeded else ValidationFailed)]
  }

  /** A dispatch after the claim: what the worker's gate read of the row, of code, of the registration row and of the
      approvals, of which it sees the first `approvalsRead`; what came of the adapter; and whether its transaction commits.
      It does not when it raises or is cancelled at its deadline. All of it may be out of date when it writes. */
  datatype Dispatch = Dispatch(
    leaseId: string, observed: State, now: Time, bound: Option<Contract.ToolDefinition>, lifecycle: ToolLifecycle,
    approvalsRead: nat, outcome: Outcome, commits: bool)

  /** The approvals the gate read. */
  function ReadBy(i: Invocation, d: Dispatch): seq<Approval> {
    if d.approvalsRead < |i.approvals| then i.approvals[..d.approvalsRead] else i.approvals
  }

  /** Gates 1 to 4 of the final execution gate: the tool as code and table have it now, the envelope recomputed. */
  predicate FinalGate(terms: Terms, bound: Option<Contract.ToolDefinition>, lifecycle: ToolLifecycle) {
    if bound.None? then false
    else if lifecycle.Retired? || lifecycle.Disabled? then false
    else if Contract.IsProhibited(bound.value) then false
    else terms.recompute(bound.value) == terms.digest
  }

  /** All five gates. */
  function GateOf(i: Invocation, d: Dispatch): GateRecord {
    GateRecord(FinalGate(i.terms, d.bound, d.lifecycle) && ApprovalFailure(i.terms, ReadBy(i, d), d.now).None?,
               |i.machine.events| + 1)
  }

  function GateWrites(i: Invocation, d: Dispatch): seq<Write> {
    [DoNote(d.observed, 0), DoRecordGate(d.leaseId, d.now, GateOf(i, d))]
  }

  /** The dispatch owns the row and its gate allows: the adapter is asked to act. */
  predicate Launches(i: Invocation, d: Dispatch) {
    Owns(i.machine.row, d.leaseId, d.now) && GateOf(i, d).allowed
  }

  /** The gate is evaluated and noted; only its owner goes on to refuse or to act. */
  function DispatchWrites(i: Invocation, d: Dispatch): seq<Write> {
    if !Owns(i.machine.row, d.leaseId, d.now) then GateWrites(i, d)
    else if !Launches(i, d) then GateWrites(i, d) + [Release(Executing, Expired)]
    else GateWrites(i, d) + ExecutionWrites(i.terms, d.outcome)
  }

  // ---- Calls and runs ----

  datatype Call =
    | DoDecide(decision: Decision)
    | DoClaimFor(lease: Lease)
    | DoDispatch(dispatch: Dispatch)
    | DoReap(held: State, heldLease: Lease, refreshed: State)
    | DoSweep(held: State, refreshed: State)
    | DoCancel(held: State)
    | DoReconcile(read: State)

  /** A dispatch that is rolled back writes nothing. Reaping names the exact lease that was judged expired; sweeping and
      reaping stand down when they lose, leaving the state they refreshed; reconciling notes what it read. */
  function WritesOf(i: Invocation, c: Call): seq<Write> {
    match c
    case DoDecide(_) => []
    case DoClaimFor(lease) => [M.DoClaim(lease, 0)]
    case DoDispatch(d) => if d.commits then DispatchWrites(i, d) else []
    case DoReap(held, lease, refreshed) =>
      if held.Executing? then [DoTransition(held, ExecutionIndeterminate, Some(lease), Clear, refreshed, 0, true)]
      else if held.Validating? then [DoTransition(held, ValidationFailed, Some(lease), Clear, refreshed, 0, true)]
      else []
    case DoSweep(held, refreshed) =>
      if i.terms.approvalRequired && (held.AwaitingApproval? || held.Ready?)
      then [DoTransition(held, Expired, None, Keep, refreshed, 0, true)]
      else []
    case DoCancel(held) => if held.AwaitingApproval? || held.Ready? then [Move(held, Cancelled)] else []
    case DoReconcile(read) => if read.ExecutionIndeterminate? then [DoNote(read, 0)] else []
  }

  function Serve(i: Invocation, c: Call): Invocation {
    match c
    case DoDecide(d) => Decide(i, d)
    case _ => i.(machine := Commit(i.machine, WritesOf(i, c)))
  }

  function Lifetime(i: Invocation, cs: seq<Call>): Invocation {
    if cs == [] then i else Serve(Lifetime(i, cs[..|cs| - 1]), cs[|cs| - 1])
  }

  // ---- What a transaction's writes can do ----

  /** The state a write moves to, if it moves. */
  predicate Targets(w: Write, s: State) {
    match w
    case DoTransition(_, to, _, _, _, _, _) => to == s
    case DoClaim(_, _) => s.Executing?
    case _ => false
  }

  lemma WriteReaches(m: Machine, w: Write, s: State)
    requires Inv(m) && !Apply(m, w).Raised? && s in Trail(Apply(m, w).machine.events)
    ensures s in Trail(m.events) || Targets(w, s)
  {
    match w
    case DoTransition(held, to, expected, lease, refreshed, unseen, _) =>
      TransitionKeeps(m, held, to, expected, lease, refreshed, unseen);
    case DoClaim(lease, unseen) => ClaimKeeps(m, lease, unseen);
    case DoNote(observed, unseen) => NoteKeeps(m, observed, unseen);
    case DoRecordGate(leaseId, now, gate) => RecordGateKeeps(m, leaseId, now, gate);
  }

  /** A state is entered only by a write that names it. */
  lemma {:induction false} OnlyByTarget(m: Machine, ws: seq<Write>, s: State)
    requires Inv(m) && s in Trail(Commit(m, ws).events)
    ensures s in Trail(m.events) || exists w :: w in ws && Targets(w, s)
  {
    if ws != [] && Transaction(m, ws).Some? {
      var front, last := ws[..|ws| - 1], ws[|ws| - 1];
      TransactionKeeps(m, front);
      WriteReaches(Commit(m, front), last, s);
      if Targets(last, s) {
        assert last in ws;
      } else {
        OnlyByTarget(m, front, s);
      }
    }
  }

  /** The gate's decision changes only by recording it. */
  lemma {:induction false} OnlyRecordedGates(m: Machine, ws: seq<Write>)
    requires forall w :: w in ws ==> !w.DoRecordGate?
    ensures Commit(m, ws).row.gate == m.row.gate
  {
    if ws != [] && Transaction(m, ws).Some? {
      OnlyRecordedGates(m, ws[..|ws| - 1]);
      assert ws[|ws| - 1] in ws;
    }
  }

  lemma TransactionNext(m: Machine, ws: seq<Write>, w: Write)
    ensures Transaction(m, ws + [w]) == match Transaction(m, ws)
      case None => None
      case Some(before) => if Apply(before, w).Raised? then None else Some(Apply(before, w).machine)
  {
    assert (ws + [w])[..|ws|] == ws;
  }

  lemma SingleWrite(m: Machine, w: Write)
    ensures Transaction(m, [w]) == if Apply(m, w).Raised? then None else Some(Apply(m, w).machine)
  {
    TransactionNext(m, [], w);
    assert [] + [w] == [w] && Transaction(m, []) == Some(m);
  }

  lemma {:induction false} TransactionInTwo(m: Machine, a: seq<Write>, b: seq<Write>)
    requires Transaction(m, a).Some?
    ensures Transaction(m, a + b) == Transaction(Transaction(m, a).value, b)
  {
    if b == [] {
      assert a + b == a;
    } else {
      var front, last := b[..|b| - 1], b[|b| - 1];
      TransactionInTwo(m, a, front);
      assert a + b == (a + front) + [last] && b == front + [last];
      TransactionNext(m, a + front, last);
      TransactionNext(Transaction(m, a).value, front, last);
    }
  }

  /** A transition from the state the row is in succeeds. */
  lemma Wins(m: Machine, held: State, to: State, lease: LeaseWrite)
    requires Inv(m) && m.row.state == held && Legal(held, to)
    requires LeaseChecks(m.row.(state := to, lease := WriteLease(m.row.lease, lease)))
    ensures var r := Transaction(m, [MoveWith(held, to, lease)]);
      && r.Some? && Inv(r.value) && Trail(r.value.events) == Trail(m.events) + [to]
      && r.value.row == m.row.(state := to, lease := WriteLease(m.row.lease, lease))
  {
    var w := MoveWith(held, to, lease);
    SingleWrite(m, w);
    TransitionKeeps(m, held, to, None, lease, held, 0);
    SequenceIsForced(m.(row := m.row.(state := to, lease := WriteLease(m.row.lease, lease))), Some(held), to, 0);
    assert Apply(m, w).Ok?;
  }

  lemma NoteLeaves(m: Machine, observed: State)
    requires Inv(m)
    ensures var r := Transaction(m, [DoNote(observed, 0)]);
      && r.Some? && Inv(r.value) && r.value.row == m.row && Trail(r.value.events) == Trail(m.events)
      && r.value.events == m.events + [Event(|m.events| + 1, Some(observed), observed)]
  {
    SingleWrite(m, DoNote(observed, 0));
    SequenceIsForced(m, Some(observed), observed, 0);
    NoteKeeps(m, observed, 0);
    assert Apply(m, DoNote(observed, 0)) == Ok(Append(m, Some(observed), observed, 0).value);
  }

  lemma RecordLeaves(m: Machine, leaseId: string, now: Time, gate: GateRecord)
    requires Inv(m) && 1 <= gate.event <= |m.events|
    ensures var r := Apply(m, DoRecordGate(leaseId, now, gate));
      !r.Raised? && Inv(r.machine) && r.machine == if Owns(m.row, leaseId, now) then m.(row := m.row.(gate := Some(gate))) else m
  {
    assert m.events[gate.event - 1].sequence == gate.event;
    RecordGateKeeps(m, leaseId, now, gate);
  }

  /** Evaluating the gate always leaves its note; it changes the row only for the lease's owner. */
  lemma GateLeaves(i: Invocation, d: Dispatch)
    requires Inv(i.machine)
    ensures var r := Transaction(i.machine, GateWrites(i, d));
      && r.Some? && Inv(r.value) && Trail(r.value.events) == Trail(i.machine.events)
      && r.value.row == if Owns(i.machine.row, d.leaseId, d.now) then i.machine.row.(gate := Some(GateOf(i, d)))
                        else i.machine.row
  {
    var note, record := DoNote(d.observed, 0), DoRecordGate(d.leaseId, d.now, GateOf(i, d));
    NoteLeaves(i.machine, d.observed);
    var noted := Transaction(i.machine, [note]).value;
    RecordLeaves(noted, d.leaseId, d.now, GateOf(i, d));
    TransactionNext(i.machine, [note], record);
    assert GateWrites(i, d) == [note] + [record];
  }

  // ---- What every life of an invocation keeps ----

  ghost predicate ApprovalsSound(i: Invocation) {
    && (forall a :: a in i.approvals ==>
          a.digest == i.terms.digest && (a.approver == i.terms.requester ==> a.selfApproval && i.terms.selfApprovalPermitted))
    && (forall j, k :: 0 <= j < k < |i.approvals| && i.approvals[j].granted && i.approvals[k].granted ==>
          i.approvals[j].approver != i.approvals[k].approver)
  }

  /** READY behind an approval requirement means that enough different people agreed. */
  ghost predicate Quorum(i: Invocation) {
    i.terms.approvalRequired && Ready in Trail(i.machine.events) ==> |Approvers(i.approvals)| >= i.terms.minApprovals
  }

  /** Executed means that the final gate, evaluated under the lease, allowed it. */
  ghost predicate Gated(i: Invocation) {
    Executed in Trail(i.machine.events) ==> i.machine.row.gate.Some? && i.machine.row.gate.value.allowed
  }

  /** The CHECK on approvals_received. */
  ghost predicate ReceivedFits(i: Invocation) { i.terms.minApprovals >= 1 ==> 0 <= i.received <= i.terms.minApprovals }

  /** A tool that must be validated does not succeed unvalidated. */
  ghost predicate Validated(i: Invocation) {
    i.terms.validationRequired && Succeeded in Trail(i.machine.events) ==> Validating in Trail(i.machine.events)
  }

  ghost predicate Sound(i: Invocation) {
    Inv(i.machine) && ApprovalsSound(i) && Quorum(i) && ReceivedFits(i) && Gated(i) && Validated(i)
  }

  lemma ApprovalKeeps(i: Invocation, d: Decision)
    requires ApprovalsSound(i) && MayDecide(i, d) && ApprovalInserts(i, ApprovalOf(i, d), d.now)
    ensures ApprovalsSound(i.(approvals := i.approvals + [ApprovalOf(i, d)]))
    ensures |Approvers(i.approvals)| <= |Approvers(i.approvals + [ApprovalOf(i, d)])|
    ensures d.granted ==> |Counted(i, d)| <= |Approvers(i.approvals + [ApprovalOf(i, d)])|
  {
    var a := ApprovalOf(i, d);
    var more := i.approvals + [a];
    forall x | x in Approvers(i.approvals) ensures x in Approvers(more) {
      var b :| b in i.approvals && b.granted && b.approver == x;
      assert b in more;
    }
    SubsetSize(Approvers(i.approvals), Approvers(more));
    if d.granted {
      assert a in more;
      SubsetSize(Counted(i, d), Approvers(more));
      forall j | 0 <= j < |i.approvals| && i.approvals[j].granted ensures i.approvals[j].approver != a.approver {
        assert i.approvals[j] in i.approvals;
      }
    }
  }

  lemma NotReadyAgain(m: Machine, ws: seq<Write>)
    requires Inv(m) && forall w :: w in ws ==> !Targets(w, Ready)
    ensures Ready in Trail(Commit(m, ws).events) ==> Ready in Trail(m.events)
  {
    if Ready in Trail(Commit(m, ws).events) { OnlyByTarget(m, ws, Ready); }
  }

  lemma DecisionMoves(i: Invocation, d: Decision, ws: seq<Write>)
    requires Sound(i)
    requires ws == if d.granted then [Move(d.held, Approved), Move(Approved, Ready)] else [Move(d.held, Denied)]
    ensures var m := Commit(i.machine, ws);
      && Inv(m) && m.row.gate == i.machine.row.gate
      && (Executed in Trail(m.events) ==> Executed in Trail(i.machine.events))
      && (Succeeded in Trail(m.events) ==> Succeeded in Trail(i.machine.events))
      && Extends(Trail(i.machine.events), Trail(m.events))
      && (!d.granted && Ready in Trail(m.events) ==> Ready in Trail(i.machine.events))
  {
    TransactionKeeps(i.machine, ws);
    OnlyRecordedGates(i.machine, ws);
    if Executed in Trail(Commit(i.machine, ws).events) { OnlyByTarget(i.machine, ws, Executed); }
    if Succeeded in Trail(Commit(i.machine, ws).events) { OnlyByTarget(i.machine, ws, Succeeded); }
    if !d.granted { NotReadyAgain(i.machine, ws); }
  }

  lemma HeldMeets(roles: set<string>, wanted: set<string>)
    ensures wanted * Held(roles) != {} <==> exists h, r :: RoleValue(h) in roles && r in Implied(h) && RoleValue(r) in wanted
  {
    if name :| name in wanted * Held(roles) {
      var r :| r in EffectiveRoles(roles) && RoleValue(r) == name;
      var h :| h in ALL_ROLES && RoleValue(h) in roles && r in Implied(h);
    }
    if h, r :| RoleValue(h) in roles && r in Implied(h) && RoleValue(r) in wanted {
      assert h in ALL_ROLES && r in EffectiveRoles(roles);
      assert RoleValue(r) in wanted * Held(roles);
    }
  }

  lemma StaleMoveRaises(m: Machine, held: State, to: State)
    requires m.row.state != held
    ensures Transaction(m, [Move(held, to)]) == None
  {
    SingleWrite(m, Move(held, to));
  }

  lemma StaleMovesRaise(m: Machine, held: State, mid: State, last: State)
    requires m.row.state != held
    ensures Transaction(m, [Move(held, mid), Move(mid, last)]) == None
  {
    StaleMoveRaises(m, held, mid);
    TransactionNext(m, [Move(held, mid)], Move(mid, last));
    assert [Move(held, mid)] + [Move(mid, last)] == [Move(held, mid), Move(mid, last)];
  }

  /** Past its checks a decision lands unless the row has moved on from waiting and it would move it. */
  lemma DecisionLands(i: Invocation, d: Decision)
    requires Sound(i) && MayDecide(i, d) && ApprovalInserts(i, ApprovalOf(i, d), d.now)
    ensures Decide(i, d) != i <==>
      i.machine.row.state.AwaitingApproval? || (d.granted && |Counted(i, d)| < i.terms.minApprovals)
    ensures Decide(i, d) != i ==> Decide(i, d).approvals == i.approvals + [ApprovalOf(i, d)]
  {
    assert |i.approvals + [ApprovalOf(i, d)]| != |i.approvals|;
    if i.machine.row.state.AwaitingApproval? {
      Wins(i.machine, AwaitingApproval, Denied, Keep);
      MovesTwice(i.machine, AwaitingApproval, Approved, Ready);
    } else {
      StaleMoveRaises(i.machine, AwaitingApproval, Denied);
      StaleMovesRaise(i.machine, AwaitingApproval, Approved, Ready);
    }
  }

  /** A decision leaves a mark exactly when it was taken on a request that was read as waiting, on the envelope that was
      shown, by someone who effectively holds an approver role of the snapshot, not by the requester unless server and
      snapshot permit it, with a lifetime to live and, an approval, not a second time; and the row still waits, or the
      approval is one of too few and moves nothing. The mark is its row. */
  lemma OnlyAuthorisedDecisionsCount(i: Invocation, d: Decision)
    requires Sound(i)
    ensures Decide(i, d) != i <==>
      && d.held.AwaitingApproval? && d.stated == i.terms.digest
      && (exists h, r :: RoleValue(h) in d.roles && r in Implied(h) && RoleValue(r) in i.terms.approverRoles)
      && (d.approver == i.terms.requester ==> d.selfAllowed && i.terms.selfApprovalPermitted)
      && i.terms.ttlSeconds > 0
      && (d.granted ==> forall a :: a in i.approvals && a.granted ==> a.approver != d.approver)
      && (|| i.machine.row.state.AwaitingApproval?
          || (d.granted && |(d.counted * Approvers(i.approvals)) + {d.approver}| < i.terms.minApprovals))
    ensures Decide(i, d) != i ==>
      Decide(i, d).approvals == i.approvals + [Approval(d.granted, i.terms.digest, d.approver,
                                                        d.approver == i.terms.requester, d.now + i.terms.ttlSeconds)]
  {
    HeldMeets(d.roles, i.terms.approverRoles);
    assert d.approver in Approvers(i.approvals) <==> exists a :: a in i.approvals && a.granted && a.approver == d.approver;
    if MayDecide(i, d) && ApprovalInserts(i, ApprovalOf(i, d), d.now) { DecisionLands(i, d); }
  }

  /** What a decision that counts does to a waiting invocation: a denial ends it DENIED; an approval readies it exactly when
      the approvers it saw and its own make enough, and otherwise leaves it waiting. */
  lemma DecisionAnswersExactly(i: Invocation, d: Decision)
    requires Sound(i) && i.machine.row.state.AwaitingApproval? && Decide(i, d) != i
    ensures var n := Decide(i, d); var count := |(d.counted * Approvers(i.approvals)) + {d.approver}|;
      && (n.machine.row.state.Denied? <==> !d.granted)
      && (n.machine.row.state.Ready? <==> d.granted && count >= i.terms.minApprovals)
      && (n.machine.row.state.AwaitingApproval? <==> d.granted && count < i.terms.minApprovals)
      && n.machine.row == i.machine.row.(state := n.machine.row.state)
      && n.received == (if !d.granted then i.received else if count < i.terms.minApprovals then count else i.terms.minApprovals)
  {
    Wins(i.machine, AwaitingApproval, Denied, Keep);
    MovesTwice(i.machine, AwaitingApproval, Approved, Ready);
  }

  lemma DecidedMachine(i: Invocation, d: Decision)
    requires Sound(i)
    ensures var m, n := i.machine, Decide(i, d).machine;
      && Inv(n) && n.row.gate == m.row.gate && Extends(Trail(m.events), Trail(n.events))
      && (Executed in Trail(n.events) ==> Executed in Trail(m.events))
      && (Succeeded in Trail(n.events) ==> Succeeded in Trail(m.events))
      && (Ready in Trail(n.events) && Ready !in Trail(m.events) ==>
            d.granted && |Counted(i, d)| >= i.terms.minApprovals && Decide(i, d).approvals == i.approvals + [ApprovalOf(i, d)])
  {
    var ws := if d.granted then [Move(d.held, Approved), Move(Approved, Ready)] else [Move(d.held, Denied)];
    DecisionMoves(i, d, ws);
    assert Extends(Trail(i.machine.events), Trail(i.machine.events));
    assert Decide(i, d).machine == i.machine || Decide(i, d).machine == Commit(i.machine, ws);
  }

  lemma DecidedApprovals(i: Invocation, d: Decision)
    requires ApprovalsSound(i) && ReceivedFits(i)
    ensures ApprovalsSound(Decide(i, d)) && ReceivedFits(Decide(i, d)) && Decide(i, d).terms == i.terms
    ensures |Approvers(i.approvals)| <= |Approvers(Decide(i, d).approvals)|
    ensures d.granted && Decide(i, d).approvals == i.approvals + [ApprovalOf(i, d)] ==>
      |Counted(i, d)| <= |Approvers(Decide(i, d).approvals)|
  {
    var more := i.approvals + [ApprovalOf(i, d)];
    assert |more| != |i.approvals|;
    if MayDecide(i, d) && ApprovalInserts(i, ApprovalOf(i, d), d.now) { ApprovalKeeps(i, d); }
  }

  lemma DecideKeeps(i: Invocation, d: Decision)
    requires Sound(i)
    ensures Sound(Decide(i, d))
  {
    DecidedMachine(i, d);
    DecidedApprovals(i, d);
  }

  lemma ExecutingHasNotExecuted(m: Machine)
    requires Inv(m) && m.row.state.Executing?
    ensures Executed !in Trail(m.events)
  {
    var path := Trail(m.events);
    if Executed in path {
      var k :| 0 <= k < |path| && path[k].Executed?;
      PathClimbs(path, k, |path| - 1);
    }
  }

  lemma DispatchGates(i: Invocation, d: Dispatch)
    requires Sound(i)
    ensures Gated(Serve(i, DoDispatch(d)))
  {
    var m, ws := i.machine, WritesOf(i, DoDispatch(d));
    GateLeaves(i, d);
    if d.commits && Transaction(m, ws).Some? && Executed in Trail(Commit(m, ws).events) && Owns(m.row, d.leaseId, d.now) {
      ExecutingHasNotExecuted(m);
      OnlyByTarget(m, ws, Executed);
      assert Launches(i, d);
      TransactionInTwo(m, GateWrites(i, d), ExecutionWrites(i.terms, d.outcome));
      OnlyRecordedGates(Transaction(m, GateWrites(i, d)).value, ExecutionWrites(i.terms, d.outcome));
    }
  }

  lemma ValidationFinishes(g: Machine, e: Machine, lease: Lease, to: State)
    requires Inv(e) && e.row.state.Executed? && Transaction(g, [Release(Executing, Executed)]) == Some(e)
    requires to.Succeeded? || to.ValidationFailed?
    ensures var r := Transaction(g, [Release(Executing, Executed),
                                     MoveWith(Executed, Validating, Hold(lease)),
                                     Release(Validating, to)]);
      r.Some? && r.value.row.state == to && Trail(r.value.events) == Trail(e.events) + [Validating] + [to]
  {
    var first, second, third :=
      Release(Executing, Executed), MoveWith(Executed, Validating, Hold(lease)), Release(Validating, to);
    Wins(e, Executed, Validating, Hold(lease));
    var v := Transaction(e, [second]).value;
    Wins(v, Validating, to, Clear);
    TransactionInTwo(g, [first], [second]);
    assert [first] + [second] == [first, second];
    TransactionInTwo(g, [first, second], [third]);
    assert [first, second] + [third] == [first, second, third];
  }

  /** A launch that must be validated passes through VALIDATING before it succeeds. */
  lemma LaunchValidates(i: Invocation, d: Dispatch)
    requires Inv(i.machine) && Launches(i, d) && i.terms.validationRequired && d.outcome.Returned?
    ensures Validating in Trail(Commit(i.machine, DispatchWrites(i, d)).events)
  {
    var first, to := Release(Executing, Executed), if d.outcome.confirmed then Succeeded else ValidationFailed;
    GateLeaves(i, d);
    var g := Transaction(i.machine, GateWrites(i, d)).value;
    Wins(g, Executing, Executed, Clear);
    var e := Transaction(g, [first]).value;
    ValidationFinishes(g, e, d.outcome.validationLease, to);
    TransactionInTwo(i.machine, GateWrites(i, d), ExecutionWrites(i.terms, d.outcome));
    var path := Trail(e.events) + [Validating] + [to];
    assert path[|Trail(e.events)|] == Validating;
  }

  lemma DispatchValidates(i: Invocation, d: Dispatch)
    requires Sound(i)
    ensures Validated(Serve(i, DoDispatch(d)))
  {
    var m, ws := i.machine, WritesOf(i, DoDispatch(d));
    TransactionKeeps(m, ws);
    if i.terms.validationRequired && Succeeded in Trail(Commit(m, ws).events) {
      OnlyByTarget(m, ws, Succeeded);
      if w :| w in ws && Targets(w, Succeeded) { LaunchValidates(i, d); }
    }
  }

  /** The approvals read are enough at the final gate exactly when there are some, enough different people gave them,
      and not one of them is of another envelope or has run out; one stale approval among many refuses. A changed envelope
      is the reason before a lifetime that ended, that one before too few. */
  lemma ApprovalSufficesExactly(terms: Terms, approvals: seq<Approval>, now: Time)
    requires terms.approvalRequired
    ensures ApprovalFailure(terms, approvals, now).None? <==>
      && (exists a :: a in approvals && a.granted)
      && (forall a :: a in approvals && a.granted ==> a.digest == terms.digest && a.expires > now)
      && |Approvers(approvals)| >= terms.minApprovals
    ensures ApprovalFailure(terms, approvals, now) == Some(EnvelopeMismatch) <==>
      exists a :: a in approvals && a.granted && a.digest != terms.digest
    ensures ApprovalFailure(terms, approvals, now) == Some(ApprovalExpired) <==>
      && (forall a :: a in approvals && a.granted ==> a.digest == terms.digest)
      && exists a :: a in approvals && a.granted && a.expires <= now
  {
    FilterMembers(IsGrant, approvals);
    var granted := Granted(approvals);
    assert forall a :: a in granted <==> a in approvals && a.granted;
    assert Approvers(granted) == Approvers(approvals);
    if granted != [] { assert granted[0] in granted; }
  }

  lemma QuietWritesKeep(i: Invocation, c: Call)
    requires Sound(i) && !c.DoDecide? && !c.DoDispatch?
    ensures Gated(Serve(i, c)) && Validated(Serve(i, c))
  {
    var ws := WritesOf(i, c);
    TransactionKeeps(i.machine, ws);
    OnlyRecordedGates(i.machine, ws);
    if Executed in Trail(Commit(i.machine, ws).events) { OnlyByTarget(i.machine, ws, Executed); }
    if Succeeded in Trail(Commit(i.machine, ws).events) { OnlyByTarget(i.machine, ws, Succeeded); }
  }

  lemma ServeKeeps(i: Invocation, c: Call)
    requires Sound(i)
    ensures Sound(Serve(i, c))
  {
    if c.DoDecide? {
      DecideKeeps(i, c.decision);
    } else {
      TransactionKeeps(i.machine, WritesOf(i, c));
      NotReadyAgain(i.machine, WritesOf(i, c));
      if c.DoDispatch? {
        DispatchGates(i, c.dispatch);
        DispatchValidates(i, c.dispatch);
      } else {
        QuietWritesKeep(i, c);
      }
    }
  }

  /** Two moves in one transaction, between states no worker holds a lease in. */
  lemma MovesTwice(m: Machine, held: State, mid: State, last: State)
    requires Inv(m) && m.row.state == held && Legal(held, mid) && Legal(mid, last)
    requires !Leased(held) && !Leased(mid) && !Leased(last)
    ensures var r := Transaction(m, [Move(held, mid), Move(mid, last)]);
      r.Some? && Inv(r.value) && r.value.row == m.row.(state := last) && Trail(r.value.events) == Trail(m.events) + [mid] + [last]
  {
    var first, second := Move(held, mid), Move(mid, last);
    Wins(m, held, mid, Keep);
    Wins(Transaction(m, [first]).value, mid, last, Keep);
    TransactionInTwo(m, [first], [second]);
    assert [first] + [second] == [first, second];
  }

  lemma AllowedWritesWin(next: State)
    requires next.AwaitingApproval? || next.Ready?
    ensures var r := Transaction(CREATED, [Move(Requested, Authorized), Move(Authorized, next)]);
      r.Some? && Inv(r.value) && r.value.row.state == next && Trail(r.value.events) == [Requested, Authorized, next]
  {
    CreatedIsSound();
    MovesTwice(CREATED, Requested, Authorized, next);
    assert [Requested] + [Authorized] + [next] == [Requested, Authorized, next];
  }

  lemma CreationIsSound(terms: Terms)
    ensures Sound(CreatedAllowed(terms))
    ensures CreatedAllowed(terms).machine.row.state == if terms.approvalRequired then AwaitingApproval else Ready
  {
    AllowedWritesWin(if terms.approvalRequired then AwaitingApproval else Ready);
  }

  /** A refused request is on record, and finished. */
  lemma {:induction false} DenialIsFinal(terms: Terms, cs: seq<Call>)
    ensures var i := Lifetime(CreatedDenied(terms), cs);
      Sound(i) && i.machine.row.state.Rejected? && Trail(i.machine.events) == [Requested, Rejected]
  {
    if cs == [] {
      CreatedIsSound();
      Wins(CREATED, Requested, Rejected, Keep);
    } else {
      DenialIsFinal(terms, cs[..|cs| - 1]);
      var i := Lifetime(CreatedDenied(terms), cs[..|cs| - 1]);
      ServeKeeps(i, cs[|cs| - 1]);
      FinishedStays(i, cs[|cs| - 1]);
    }
  }

  lemma {:induction false} LifetimeIsSound(i: Invocation, cs: seq<Call>)
    requires Sound(i)
    ensures Sound(Lifetime(i, cs)) && Lifetime(i, cs).terms == i.terms
  {
    if cs != [] {
      LifetimeIsSound(i, cs[..|cs| - 1]);
      ServeKeeps(Lifetime(i, cs[..|cs| - 1]), cs[|cs| - 1]);
    }
  }

  // ---- How a dispatch ends ----

  lemma UnvalidatedFinishes(g: Machine)
    requires Inv(g) && g.row.state.Executing?
    ensures var r := Transaction(g, [Release(Executing, Executed), Move(Executed, Succeeded)]);
      r.Some? && r.value.row.state.Succeeded?
  {
    var first, second := Release(Executing, Executed), Move(Executed, Succeeded);
    Wins(g, Executing, Executed, Clear);
    var e := Transaction(g, [first]).value;
    Wins(e, Executed, Succeeded, Keep);
    TransactionInTwo(g, [first], [second]);
    assert [first] + [second] == [first, second];
  }

  /** What a state says of the adapter: it failed, it timed out, or it returned and the result stands or does not. */
  ghost predicate Tells(s: State, o: Outcome, mustValidate: bool) {
    && (s.Failed? <==> o.AdapterFailed?)
    && (s.TimedOut? <==> o.AdapterTimedOut?)
    && (s.Succeeded? <==> o.Returned? && (mustValidate ==> o.confirmed))
    && (s.ValidationFailed? <==> o.Returned? && mustValidate && !o.confirmed)
  }

  lemma ExecutionFinishes(g: Machine, terms: Terms, o: Outcome)
    requires Inv(g) && g.row.state.Executing?
    ensures var r := Transaction(g, ExecutionWrites(terms, o)); r.Some? && Tells(r.value.row.state, o, terms.validationRequired)
  {
    match o
    case AdapterFailed => Wins(g, Executing, Failed, Clear);
    case AdapterTimedOut => Wins(g, Executing, TimedOut, Clear);
    case Returned(lease, confirmed) =>
      if terms.validationRequired {
        Wins(g, Executing, Executed, Clear);
        var e := Transaction(g, [Release(Executing, Executed)]).value;
        ValidationFinishes(g, e, lease, if confirmed then Succeeded else ValidationFailed);
      } else {
        UnvalidatedFinishes(g);
      }
  }

  /** A dispatch that launches and commits ends the invocation in its own transaction, and the state it ends in says what
      came of the adapter and, where the result must be validated, of the probe. */
  lemma LaunchFinishes(i: Invocation, d: Dispatch)
    requires Inv(i.machine) && Launches(i, d) && d.commits
    ensures var s := Serve(i, DoDispatch(d)).machine.row.state; var mustValidate := i.terms.validationRequired;
      && (s.Failed? <==> d.outcome.AdapterFailed?)
      && (s.TimedOut? <==> d.outcome.AdapterTimedOut?)
      && (s.Succeeded? <==> d.outcome.Returned? && (!mustValidate || d.outcome.confirmed))
      && (s.ValidationFailed? <==> d.outcome.Returned? && mustValidate && !d.outcome.confirmed)
      && (s.Failed? || s.TimedOut? || s.Succeeded? || s.ValidationFailed?)
  {
    GateLeaves(i, d);
    var g := Transaction(i.machine, GateWrites(i, d)).value;
    ExecutionFinishes(g, i.terms, d.outcome);
    TransactionInTwo(i.machine, GateWrites(i, d), ExecutionWrites(i.terms, d.outcome));
  }

  /** A worker that holds the row and whose gate refuses ends the invocation EXPIRED, without its lease and with the refusal
      recorded. */
  lemma RefusalExpires(i: Invocation, d: Dispatch)
    requires Inv(i.machine) && Owns(i.machine.row, d.leaseId, d.now) && !Launches(i, d) && d.commits
    ensures var r := Serve(i, DoDispatch(d)).machine.row;
      r.state.Expired? && r.lease == None && r.gate.Some? && !r.gate.value.allowed && r.attempts == i.machine.row.attempts
  {
    GateLeaves(i, d);
    var g := Transaction(i.machine, GateWrites(i, d)).value;
    Wins(g, Executing, Expired, Clear);
    TransactionInTwo(i.machine, GateWrites(i, d), [Release(Executing, Expired)]);
  }

  lemma Settles(m: Machine, w: Write)
    requires w.DoTransition? && !w.catches
    ensures Transaction(m, [w]).Some? ==> Transaction(m, [w]).value.row.state == w.to
  {
    SingleWrite(m, w);
  }

  lemma DecisionSettles(i: Invocation, d: Decision)
    ensures Transaction(i.machine, [Move(d.held, Denied)]).Some? ==>
      Transaction(i.machine, [Move(d.held, Denied)]).value.row.state.Denied?
    ensures var r := Transaction(i.machine, [Move(d.held, Approved), Move(Approved, Ready)]);
      r.Some? ==> r.value.row.state.Ready?
  {
    Settles(i.machine, Move(d.held, Denied));
    var first, second := Move(d.held, Approved), Move(Approved, Ready);
    assert [first, second][..1] == [first] && [first] + [second] == [first, second];
    if Transaction(i.machine, [first]).Some? {
      TransactionInTwo(i.machine, [first], [second]);
      Settles(Transaction(i.machine, [first]).value, second);
    }
  }

  lemma FinishedStays(i: Invocation, c: Call)
    requires Inv(i.machine) && Terminal(i.machine.row.state)
    ensures Serve(i, c).machine.row == i.machine.row && Trail(Serve(i, c).machine.events) == Trail(i.machine.events)
  {
    if c.DoDecide? {
      FinishedIsFinal(i.machine, [Move(c.decision.held, Denied)]);
      FinishedIsFinal(i.machine, [Move(c.decision.held, Approved), Move(Approved, Ready)]);
    } else {
      FinishedIsFinal(i.machine, WritesOf(i, c));
    }
  }

  /** A worker whose lease was reaped, has run out or was never its own writes nothing but the note that it was there. */
  lemma WithoutTheLeaseNothingHappens(i: Invocation, d: Dispatch)
    requires Inv(i.machine) && !Owns(i.machine.row, d.leaseId, d.now)
    ensures var n := Serve(i, DoDispatch(d));
      n.machine.row == i.machine.row && Trail(n.machine.events) == Trail(i.machine.events) && n.approvals == i.approvals
  {
    GateLeaves(i, d);
  }

  /** The reaper relabels nothing that moved on: it closes the row only under the exact lease it judged, and a row that
      left EXECUTING or VALIDATING, or was claimed anew, keeps its outcome. */
  lemma ReaperMustLose(i: Invocation, held: State, lease: Lease, refreshed: State)
    requires Inv(i.machine)
    ensures var n := Serve(i, DoReap(held, lease, refreshed));
      n.machine.row != i.machine.row ==> i.machine.row.state == held && i.machine.row.lease == Some(lease)
  {
    var ws := WritesOf(i, DoReap(held, lease, refreshed));
    if ws != [] {
      SingleWrite(i.machine, ws[0]);
      WriteKeeps(i.machine, ws[0]);
    }
  }

  lemma TwoCalls(i: Invocation, c: Call, d: Call)
    ensures Lifetime(i, [c, d]) == Serve(Serve(i, c), d)
  {
    assert [c, d][..1] == [c] && [c][..0] == [] && Lifetime(i, []) == i;
    assert Lifetime(i, [c]) == Serve(i, c);
  }
}
