/** From a request to its execution: what the policy decided, what approvers agreed to, and what the final gate rechecks. */
module ChangeControl {
  import opened Base
  import opened CanonicalJson
  import opened ToolVocabulary
  import opened Contract
  import D = Declaration
  import E = Envelope
  import P = Policy
  import M = InvocationMachine
  import I = InvocationService
  import U = Launches
  import A = InvocationAnswers

  /** A request's own part: its arguments and its target. */
  datatype Request = Request(input: map<string, Json>, target: E.Target)

  /** The digest an approval of this request is bound to. */
  function DigestFor(h: string -> string, d: ToolDefinition, r: Request): string {
    E.EnvelopeDigest(h, E.BuildEnvelope(h, d, r.input, E.BuildTargetBlock(r.target)))
  }

  /** What was asked for: the canonical input of the decision, for the target. */
  function Asked(c: P.Context, target: E.Target): Request { Request(P.Evaluate(c).canonicalInput, target) }

  /** The snapshot an allowed request is persisted with. `stored` is the request as its columns give it back, from which
      the final gate recomputes the digest. */
  function TermsOf(h: string -> string, c: P.Context, target: E.Target, requester: string, stored: Request): I.Terms
    requires P.Evaluate(c).allowed && c.tool.Some?
  {
    var decision := P.Evaluate(c);
    var p := decision.approvalPolicy;
    I.Terms(p.approvalRequired, p.minApprovals, p.approverRoles, p.selfApprovalPermitted, p.ttlSeconds,
            decision.validationRequired, DigestFor(h, c.tool.value.definition, Asked(c, target)), requester,
            (d: ToolDefinition) => DigestFor(h, d, stored))
  }

  /** The declaration, the arguments and the target are, in everything an approver agreed to, those of the request. */
  ghost predicate StillAsAgreed(d: ToolDefinition, stored: Request, c: P.Context, target: E.Target)
    requires c.tool.Some?
  {
    E.SameAgreement(d, stored.input, stored.target, c.tool.value.definition, P.Evaluate(c).canonicalInput, target)
  }

  /** What was authorised may run exactly while its tool is bound, active and not prohibited, and both the declaration and
      the request as stored still are, in everything an approver agreed to, what they were. */
  lemma FinalGateExactly(h: string -> string, c: P.Context, target: E.Target, requester: string, stored: Request,
                         bound: Option<ToolDefinition>, lifecycle: ToolLifecycle)
    requires CollisionFree(h) && P.Evaluate(c).allowed && c.tool.Some?
    ensures I.FinalGate(TermsOf(h, c, target, requester, stored), bound, lifecycle) <==>
        && bound.Some? && lifecycle.Active? && !IsProhibited(bound.value)
        && StillAsAgreed(bound.value, stored, c, target)
  {
    if bound.Some? {
      E.EnvelopeBinding(h, bound.value, stored.input, stored.target,
                        c.tool.value.definition, P.Evaluate(c).canonicalInput, target);
    }
  }

  /** An approval speaks for one request only: two requests have the same digest exactly when the tools' contracts and
      execution policies, the inputs and the targets are all the same. */
  lemma ApprovalsDoNotCarryOver(h: string -> string, c: P.Context, target: E.Target, requester: string, stored: Request,
                                d: P.Context, other: E.Target, another: string, kept: Request)
    requires CollisionFree(h) && P.Evaluate(c).allowed && P.Evaluate(d).allowed && c.tool.Some? && d.tool.Some?
    ensures TermsOf(h, c, target, requester, stored).digest == TermsOf(h, d, other, another, kept).digest <==>
      E.SameAgreement(c.tool.value.definition, P.Evaluate(c).canonicalInput, target,
                      d.tool.value.definition, P.Evaluate(d).canonicalInput, other)
  {
    E.EnvelopeBinding(h, c.tool.value.definition, P.Evaluate(c).canonicalInput, target,
                      d.tool.value.definition, P.Evaluate(d).canonicalInput, other);
  }

  /** What held of what the gate read before an adapter was asked to act for a change: the tool was bound, active and not
      prohibited, its declaration and the request were still what was agreed to, and the declared number of people had
      approved, every approval read being for this very request, current, and not the requester's own unless the
      declaration permits it. */
  ghost predicate AgreedAt(h: string -> string, c: P.Context, target: E.Target, requester: string, stored: Request,
                           i: I.Invocation, d: I.Dispatch)
    requires c.tool.Some?
  {
    var was, read := c.tool.value.definition, I.ReadBy(i, d);
    && d.bound.Some? && d.lifecycle.Active? && !IsProhibited(d.bound.value)
    && StillAsAgreed(d.bound.value, stored, c, target)
    && |I.Approvers(read)| >= was.approvalPolicy.minApprovals >= 1
    && (forall a :: a in read && a.granted ==>
          && a.digest == DigestFor(h, was, Asked(c, target)) && a.expires > d.now
          && (a.approver == requester ==> was.approvalPolicy.selfApprovalPermitted))
  }

  ghost predicate LaunchesAgreed(h: string -> string, c: P.Context, target: E.Target, requester: string, stored: Request,
                                 start: I.Invocation, calls: seq<I.Call>)
    requires c.tool.Some?
  {
    forall k :: 0 <= k < |calls| && U.LaunchAt(start, calls, k) ==>
      AgreedAt(h, c, target, requester, stored, I.Lifetime(start, calls[..k]), calls[k].dispatch)
  }

  /** The whole of change control: whatever happens to an invocation of a registered change tool, and however stale what the
      workers read, no adapter is ever asked to act for it but when its gate found it agreed to and still as agreed;
      and whatever was executed was launched so, by a dispatch that committed. */
  lemma {:induction false} ChangesRunOnlyAgreed(env: D.Environment, h: string -> string, c: P.Context, target: E.Target,
                                                requester: string, stored: Request, calls: seq<I.Call>)
    requires CollisionFree(h) && P.Registered(env, c) && c.tool.Some? && P.Evaluate(c).allowed
    requires RequiresApproval(c.tool.value.definition.permissionClass)
    ensures var start := I.CreatedAllowed(TermsOf(h, c, target, requester, stored));
      && LaunchesAgreed(h, c, target, requester, stored, start, calls)
      && (M.Executed in M.Trail(I.Lifetime(start, calls).machine.events) ==>
            exists k :: 0 <= k < |calls| && U.LaunchAt(start, calls, k) && calls[k].dispatch.commits)
  {
    var terms := TermsOf(h, c, target, requester, stored);
    U.NothingExecutesUnapproved(terms, calls);
    forall k | 0 <= k < |calls| && U.LaunchAt(I.CreatedAllowed(terms), calls, k)
      ensures AgreedAt(h, c, target, requester, stored, I.Lifetime(I.CreatedAllowed(terms), calls[..k]), calls[k].dispatch)
    {
      U.LifeIsControlled(terms, calls[..k]);
      LaunchWasAgreed(env, h, c, target, requester, stored,
                      I.Lifetime(I.CreatedAllowed(terms), calls[..k]), calls[k].dispatch);
    }
  }

  /** And it never leaves READY for execution without at least one approval, as many as its declaration asked for, all by
      different people, all of this very request, and none by the requester unless the declaration permits it. */
  lemma {:induction false} ChangesLeaveReadyApproved(env: D.Environment, h: string -> string, c: P.Context,
                                                     target: E.Target, requester: string, stored: Request,
                                                     calls: seq<I.Call>)
    requires P.Registered(env, c) && c.tool.Some? && P.Evaluate(c).allowed
    requires RequiresApproval(c.tool.value.definition.permissionClass)
    ensures var d := c.tool.value.definition;
      var i := I.Lifetime(I.CreatedAllowed(TermsOf(h, c, target, requester, stored)), calls);
      M.Executing in M.Trail(i.machine.events) ==>
        && |I.Approvers(i.approvals)| >= d.approvalPolicy.minApprovals >= 1
        && (forall a :: a in i.approvals ==>
              && a.digest == DigestFor(h, d, Asked(c, target))
              && (a.approver == requester ==> d.approvalPolicy.selfApprovalPermitted))
  {
    ChangeTerms(env, h, c, target, requester, stored);
    U.LifeIsControlled(TermsOf(h, c, target, requester, stored), calls);
  }

  /** The terms of a registered change require approval, with the declaration's own numbers. */
  lemma ChangeTerms(env: D.Environment, h: string -> string, c: P.Context, target: E.Target,
                    requester: string, stored: Request)
    requires P.Registered(env, c) && c.tool.Some? && P.Evaluate(c).allowed
    requires RequiresApproval(c.tool.value.definition.permissionClass)
    ensures var terms, p := TermsOf(h, c, target, requester, stored), c.tool.value.definition.approvalPolicy;
      && terms.approvalRequired && terms.minApprovals == p.minApprovals >= 1
      && terms.selfApprovalPermitted == p.selfApprovalPermitted && terms.requester == requester
      && terms.approverRoles == p.approverRoles && terms.ttlSeconds == p.ttlSeconds && terms.validationRequired
  {
    P.DecisionsAreComplete(c);
    P.DecisionFitsTheRow(env, c, None);
    D.AcceptedExactly(env, c.tool.value.definition);
  }

  /** Each approval of a change was given, for as long as its declaration says, on this very request and by someone who
      effectively held one of the approver roles it declares. */
  lemma {:induction false} ChangesApprovedByDeclaredRoles(env: D.Environment, h: string -> string, c: P.Context,
                                                          target: E.Target, requester: string, stored: Request,
                                                          calls: seq<I.Call>, j: nat)
    returns (k: nat)
    requires P.Registered(env, c) && c.tool.Some? && P.Evaluate(c).allowed
    requires RequiresApproval(c.tool.value.definition.permissionClass)
    requires j < |I.Lifetime(I.CreatedAllowed(TermsOf(h, c, target, requester, stored)), calls).approvals|
    ensures var a := I.Lifetime(I.CreatedAllowed(TermsOf(h, c, target, requester, stored)), calls).approvals[j];
      var p := c.tool.value.definition.approvalPolicy;
      && k < |calls| && calls[k].DoDecide?
      && var d := calls[k].decision;
         && a.approver == d.approver && a.granted == d.granted && a.expires == d.now + p.ttlSeconds
         && d.stated == a.digest == DigestFor(h, c.tool.value.definition, Asked(c, target))
         && exists held, r :: RoleValue(held) in d.roles && r in Implied(held) && RoleValue(r) in p.approverRoles
  {
    ChangeTerms(env, h, c, target, requester, stored);
    k := A.ApprovalsWereDecided(TermsOf(h, c, target, requester, stored), calls, j);
  }

  /** A change that succeeded was carried out by a launch that committed and was confirmed. */
  lemma {:induction false} ChangesSucceedConfirmed(env: D.Environment, h: string -> string, c: P.Context,
                                                   target: E.Target, requester: string, stored: Request,
                                                   calls: seq<I.Call>)
    requires P.Registered(env, c) && c.tool.Some? && P.Evaluate(c).allowed
    requires RequiresApproval(c.tool.value.definition.permissionClass)
    ensures var start := I.CreatedAllowed(TermsOf(h, c, target, requester, stored));
      I.Lifetime(start, calls).machine.row.state.Succeeded? <==>
        exists k :: 0 <= k < |calls| && A.ConfirmedAt(start, calls, k)
  {
    ChangeTerms(env, h, c, target, requester, stored);
    A.SucceedsConfirmed(TermsOf(h, c, target, requester, stored), calls);
  }

  lemma LaunchWasAgreed(env: D.Environment, h: string -> string, c: P.Context, target: E.Target,
                        requester: string, stored: Request, i: I.Invocation, d: I.Dispatch)
    requires CollisionFree(h) && P.Registered(env, c) && c.tool.Some? && P.Evaluate(c).allowed
    requires RequiresApproval(c.tool.value.definition.permissionClass)
    requires i.terms == TermsOf(h, c, target, requester, stored) && U.Vouched(i, d)
    requires forall a :: a in i.approvals ==>
      a.digest == i.terms.digest && (a.approver == requester ==> i.terms.selfApprovalPermitted)
    ensures AgreedAt(h, c, target, requester, stored, i, d)
  {
    ChangeTerms(env, h, c, target, requester, stored);
    FinalGateExactly(h, c, target, requester, stored, d.bound, d.lifecycle);
  }
}
