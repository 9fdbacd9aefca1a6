/** The policy engine: eight gates tried in order, and an answer even when a gate cannot be tried. */
module Policy {
  import opened Base
  import opened CanonicalJson
  import opened ToolVocabulary
  import opened Contract
  import opened Declaration
  import S = DeclaredSchemas
  import R = Redaction

  /** What a call into a declaration gives: a value, or an exception. */
  datatype Evaluated<T> = Value(value: T) | Raised

  /** A declaration as the engine calls it. Its methods may raise; validation may also refuse the input. */
  datatype BoundTool = BoundTool(
    definition: ToolDefinition,
    contractHash: Evaluated<string>,
    executionParameters: Evaluated<map<string, Json>>,
    validate: map<string, Json> -> Evaluated<Option<map<string, Json>>>)

  datatype TargetFacts = TargetFacts(
    kind: TargetKind, found: bool, assetId: Option<string>, assetType: string, lifecycleState: string,
    externalRef: map<string, Json>)

  datatype Context = Context(
    roles: set<string>, tool: Option<BoundTool>, lifecycle: ToolLifecycle, rawInput: map<string, Json>,
    target: TargetFacts, environment: string, requestTime: int)

  datatype Reason =
    | Allowed | CapabilityNotBound | ToolRetired | ToolDisabled | ProhibitedCapability | SchemaInvalid
    | TargetInvalid | TargetRetired | TargetOutOfScope | RoleInsufficient | EnvironmentRestricted | InternalError

  datatype Decision = Decision(
    allowed: bool, reason: Reason, permissionClass: PermissionClass, approvalPolicy: ApprovalPolicy,
    validationRequired: bool, requiredRoles: set<string>, executionParameters: map<string, Json>, prohibited: bool,
    contractHash: string, evaluatedAt: int, canonicalInput: map<string, Json>)

  // ---- The engine ----

  function UnboundDenial(reason: Reason, at: int): Decision {
    Decision(false, reason, Prohibited, DEFAULT_APPROVAL_POLICY, true, {}, map[], true, "", at, map[])
  }

  /** A denial that still records the tool's policy. Building it calls into the declaration, so it may raise. */
  function Deny(c: Context, reason: Reason): Evaluated<Decision> {
    if c.tool.None? then Value(UnboundDenial(reason, c.requestTime))
    else
      var t := c.tool.value;
      var d := t.definition;
      if t.executionParameters.Raised? || t.contractHash.Raised? then Raised
      else
        Value(Decision(false, reason, d.permissionClass, d.approvalPolicy, d.validationRequired, d.requiredRoles,
                       t.executionParameters.value, IsProhibited(d), t.contractHash.value, c.requestTime, map[]))
  }

  /** Gates 1 to 4 end with a denial or with the canonical input. */
  datatype Prerequisites = Stopped(decision: Decision) | Passed(canonical: map<string, Json>)

  function Stop(d: Evaluated<Decision>): Evaluated<Prerequisites> {
    match d case Value(decision) => Value(Stopped(decision)) case Raised => Raised
  }

  function GatesOneToFour(c: Context): Evaluated<Prerequisites> {
    if c.tool.None? then Stop(Deny(c, CapabilityNotBound))
    else if c.lifecycle.Retired? then Stop(Deny(c, ToolRetired))
    else if c.lifecycle.Disabled? then Stop(Deny(c, ToolDisabled))
    else if IsProhibited(c.tool.value.definition) then Stop(Deny(c, ProhibitedCapability))
    else
      match c.tool.value.validate(c.rawInput)
      case Raised => Raised
      case Value(None) => Stop(Deny(c, SchemaInvalid))
      case Value(Some(canonical)) => Value(Passed(canonical))
  }

  function CheckTarget(d: ToolDefinition, t: TargetFacts): Option<Reason> {
    if t.kind != d.targetType then Some(TargetInvalid)
    else if d.targetType.NoTarget? then None
    else if d.targetType.ExternalRef? then (if t.externalRef != map[] then None else Some(TargetInvalid))
    else if !t.found || t.assetId.None? then Some(TargetInvalid)
    else if t.lifecycleState != "" && t.lifecycleState != "ACTIVE" then Some(TargetRetired)
    else if t.assetType !in d.targetAssetTypes then Some(TargetOutOfScope)
    else None
  }

  function EvaluateGates(c: Context): Evaluated<Decision> {
    match GatesOneToFour(c)
    case Raised => Raised
    case Value(Stopped(denial)) => Value(denial)
    case Value(Passed(canonical)) =>
      if c.tool.None? then Deny(c, CapabilityNotBound)
      else
        var t := c.tool.value;
        var d := t.definition;
        var targetReason := CheckTarget(d, c.target);
        if targetReason.Some? then Deny(c, targetReason.value)
        else if !(d.requiredRoles <= Held(c.roles)) then Deny(c, RoleInsufficient)
        else if d.approvalPolicy.allowedEnvironments != {} && c.environment !in d.approvalPolicy.allowedEnvironments
        then Deny(c, EnvironmentRestricted)
        else if t.executionParameters.Raised? || t.contractHash.Raised? then Raised
        else
          Value(Decision(true, Allowed, d.permissionClass, d.approvalPolicy, d.validationRequired, d.requiredRoles,
                         t.executionParameters.value, false, t.contractHash.value, c.requestTime, canonical))
  }

  /** The last resort: when even the denial cannot be built, the unbound one can. */
  function OnException(c: Context): Decision {
    match Deny(c, InternalError)
    case Value(denial) => denial
    case Raised => UnboundDenial(InternalError, c.requestTime)
  }

  /** ToolPolicyEngine.evaluate_prerequisites. */
  function EvaluatePrerequisites(c: Context): Option<Decision> {
    match GatesOneToFour(c)
    case Raised => Some(OnException(c))
    case Value(Stopped(denial)) => Some(denial)
    case Value(Passed(_)) => None
  }

  /** ToolPolicyEngine.evaluate. */
  function Evaluate(c: Context): Decision {
    match EvaluateGates(c) case Raised => OnException(c) case Value(decision) => decision
  }

  // ---- The specification: seven gates, each judged on its own ----

  datatype Verdict = Passes | Refuses(reason: Reason) | Breaks

  /** Gate 5, by what the request names: nothing, for a tool that acts on nothing; a reference that says something; or an
      asset that is there, whose state is unknown or active, and whose type the tool declares. */
  function TargetVerdict(d: ToolDefinition, t: TargetFacts): Verdict {
    match t.kind
    case NoTarget => if d.targetType.NoTarget? then Passes else Refuses(TargetInvalid)
    case ExternalRef => if d.targetType.ExternalRef? && t.externalRef.Keys != {} then Passes else Refuses(TargetInvalid)
    case Asset =>
      if !d.targetType.Asset? || !t.found || t.assetId == None then Refuses(TargetInvalid)
      else if t.lifecycleState in {"", "ACTIVE"} then
        if t.assetType in d.targetAssetTypes then Passes else Refuses(TargetOutOfScope)
      else Refuses(TargetRetired)
  }

  /** The principal has a role that stands for the one named. */
  ghost predicate StandsFor(roles: set<string>, name: string) {
    exists h, r :: RoleValue(h) in roles && r in Implied(h) && RoleValue(r) == name
  }

  /** What gate n says of a request, without regard to the others. */
  ghost function Gate(n: nat, c: Context): Verdict {
    if c.tool.None? then (if n == 1 then Refuses(CapabilityNotBound) else Passes)
    else
      var t := c.tool.value;
      var p := t.definition.approvalPolicy;
      match n
      case 2 =>
        (match c.lifecycle case Active => Passes case Disabled => Refuses(ToolDisabled) case Retired => Refuses(ToolRetired))
      case 3 =>
        if t.definition.prohibited || exists tag :: tag in t.definition.capabilityTags && tag in PROHIBITED_CAPABILITIES
        then Refuses(ProhibitedCapability) else Passes
      case 4 =>
        (match t.validate(c.rawInput)
         case Raised => Breaks case Value(None) => Refuses(SchemaInvalid) case Value(Some(_)) => Passes)
      case 5 => TargetVerdict(t.definition, c.target)
      case 6 =>
        if forall name :: name in t.definition.requiredRoles ==> StandsFor(c.roles, name) then Passes
        else Refuses(RoleInsufficient)
      case 7 =>
        if p.allowedEnvironments == {} || c.environment in p.allowedEnvironments then Passes else Refuses(EnvironmentRestricted)
      case _ => Passes
  }

  /** Gate n is the first that does not pass. */
  ghost predicate FirstStop(n: nat, c: Context) {
    1 <= n <= 7 && !Gate(n, c).Passes? && forall k :: 1 <= k < n ==> Gate(k, c).Passes?
  }

  ghost predicate AllPass(c: Context) { forall k :: 1 <= k <= 7 ==> Gate(k, c).Passes? }

  /** The declaration's policy can be copied onto the record. */
  predicate CanSnapshot(c: Context) {
    c.tool.None? || (c.tool.value.executionParameters.Value? && c.tool.value.contractHash.Value?)
  }

  /** The decision copies the declaration's policy. */
  ghost predicate CopiesPolicy(d: Decision, t: BoundTool) {
    && d.permissionClass == t.definition.permissionClass && d.approvalPolicy == t.definition.approvalPolicy
    && d.validationRequired == t.definition.validationRequired && d.requiredRoles == t.definition.requiredRoles
    && Value(d.executionParameters) == t.executionParameters && Value(d.contractHash) == t.contractHash
    && d.prohibited == IsProhibited(t.definition)
  }

  lemma TargetVerdictExactly(d: ToolDefinition, t: TargetFacts)
    ensures TargetVerdict(d, t) == match CheckTarget(d, t) case None => Passes case Some(reason) => Refuses(reason)
  {
  }

  lemma ProhibitedExactly(d: ToolDefinition)
    ensures IsProhibited(d) <==> d.prohibited || exists tag :: tag in d.capabilityTags && tag in PROHIBITED_CAPABILITIES
  {
    DisjointExactly(d.capabilityTags, PROHIBITED_CAPABILITIES);
  }

  lemma StandsForExactly(roles: set<string>, name: string)
    ensures StandsFor(roles, name) <==> name in Held(roles)
  {
    if h, r :| RoleValue(h) in roles && r in Implied(h) && RoleValue(r) == name { HeldExactly(roles, r); }
    if r :| r in EffectiveRoles(roles) && RoleValue(r) == name { HeldExactly(roles, r); }
  }

  /** The engine's checks are those of the specification. */
  lemma EngineGates(c: Context)
    requires c.tool.Some?
    ensures IsProhibited(c.tool.value.definition) <==> Gate(3, c).Refuses?
    ensures CheckTarget(c.tool.value.definition, c.target)
         == match Gate(5, c) case Refuses(reason) => Some(reason) case _ => None
    ensures c.tool.value.definition.requiredRoles <= Held(c.roles) <==> Gate(6, c).Passes?
  {
    ProhibitedExactly(c.tool.value.definition);
    TargetVerdictExactly(c.tool.value.definition, c.target);
    forall name ensures StandsFor(c.roles, name) <==> name in Held(c.roles) { StandsForExactly(c.roles, name); }
  }

  lemma AllPassByGate(c: Context)
    ensures AllPass(c) <==>
      && Gate(1, c).Passes? && Gate(2, c).Passes? && Gate(3, c).Passes? && Gate(4, c).Passes?
      && Gate(5, c).Passes? && Gate(6, c).Passes? && Gate(7, c).Passes?
  {
    if Gate(1, c).Passes? && Gate(2, c).Passes? && Gate(3, c).Passes? && Gate(4, c).Passes?
       && Gate(5, c).Passes? && Gate(6, c).Passes? && Gate(7, c).Passes? {
      forall k | 1 <= k <= 7 ensures Gate(k, c).Passes? {
        assert k == 1 || k == 2 || k == 3 || k == 4 || k == 5 || k == 6 || k == 7;
      }
    }
  }

  /** The engine answers with the first gate that does not pass, and allows only what every gate passes. */
  lemma FirstFailingGateDecides(c: Context, n: nat)
    ensures Evaluate(c).allowed <==> AllPass(c) && CanSnapshot(c)
    ensures FirstStop(n, c) && Gate(n, c).Refuses? && CanSnapshot(c) ==> Evaluate(c).reason == Gate(n, c).reason
    ensures FirstStop(n, c) && Gate(n, c).Breaks? ==> Evaluate(c).reason == InternalError
  {
    AllPassByGate(c);
    if c.tool.Some? { EngineGates(c); }
    if FirstStop(n, c) {
      assert n == 1 || n == 2 || n == 3 || n == 4 || n == 5 || n == 6 || n == 7;
      assert 1 < n ==> Gate(1, c).Passes?;
      assert 2 < n ==> Gate(2, c).Passes?;
      assert 3 < n ==> Gate(3, c).Passes?;
      assert 4 < n ==> Gate(4, c).Passes?;
      assert 5 < n ==> Gate(5, c).Passes?;
      assert 6 < n ==> Gate(6, c).Passes?;
    }
  }

  /** A decision as it should be recorded for the bound tool. */
  ghost predicate WellRecorded(d: Decision, c: Context)
    requires c.tool.Some?
  {
    && CopiesPolicy(d, c.tool.value) && d.evaluatedAt == c.requestTime
    && (d.allowed <==> d.reason == Allowed) && (!d.allowed ==> d.canonicalInput == map[])
  }

  lemma DenialIsWellRecorded(c: Context, reason: Reason)
    requires c.tool.Some? && CanSnapshot(c) && reason != Allowed
    ensures Deny(c, reason).Value? && WellRecorded(Deny(c, reason).value, c)
  {
  }

  lemma PrerequisitesAreWellRecorded(c: Context)
    requires c.tool.Some? && CanSnapshot(c)
    ensures GatesOneToFour(c).Value? && GatesOneToFour(c).value.Stopped? ==> WellRecorded(GatesOneToFour(c).value.decision, c)
  {
    forall reason | reason != Allowed ensures Deny(c, reason).Value? && WellRecorded(Deny(c, reason).value, c) {
      DenialIsWellRecorded(c, reason);
    }
  }

  lemma BoundDecisionCopies(c: Context)
    requires c.tool.Some? && CanSnapshot(c)
    ensures WellRecorded(Evaluate(c), c)
  {
    PrerequisitesAreWellRecorded(c);
    forall reason | reason != Allowed ensures Deny(c, reason).Value? && WellRecorded(Deny(c, reason).value, c) {
      DenialIsWellRecorded(c, reason);
    }
  }

  lemma BrokenDecisionCloses(c: Context)
    requires !CanSnapshot(c)
    ensures Evaluate(c) == UnboundDenial(InternalError, c.requestTime)
  {
    assert forall reason :: Deny(c, reason).Raised?;
  }

  lemma UnboundDecision(c: Context)
    requires c.tool.None?
    ensures Evaluate(c) == UnboundDenial(CapabilityNotBound, c.requestTime)
  {
  }

  lemma AllowedInputIsCanonical(c: Context)
    requires Evaluate(c).allowed
    ensures c.tool.Some? && CanSnapshot(c) && Value(Some(Evaluate(c).canonicalInput)) == c.tool.value.validate(c.rawInput)
  {
  }

  /** The record is complete whatever the answer: a bound tool's policy is copied whenever it can be read, an unbound
      tool is recorded as prohibited, and an exception, even one in building a denial, is a closed answer. */
  lemma DecisionsAreComplete(c: Context)
    ensures Evaluate(c).allowed <==> Evaluate(c).reason == Allowed
    ensures Evaluate(c).evaluatedAt == c.requestTime
    ensures !Evaluate(c).allowed ==> Evaluate(c).canonicalInput == map[]
    ensures c.tool.Some? && CanSnapshot(c) ==> CopiesPolicy(Evaluate(c), c.tool.value)
    ensures c.tool.Some? && !CanSnapshot(c) ==> Evaluate(c) == UnboundDenial(InternalError, c.requestTime)
    ensures c.tool.None? ==> Evaluate(c) == UnboundDenial(CapabilityNotBound, c.requestTime)
    ensures Evaluate(c).allowed ==>
      c.tool.Some? && Value(Some(Evaluate(c).canonicalInput)) == c.tool.value.validate(c.rawInput)
  {
    if c.tool.None? {
      UnboundDecision(c);
    } else if CanSnapshot(c) {
      BoundDecisionCopies(c);
    } else {
      BrokenDecisionCloses(c);
    }
    if Evaluate(c).allowed { AllowedInputIsCanonical(c); }
  }

  // ---- Two phases, and what a denial may depend on ----

  /** How an invocation is decided: gates 1 to 4 before the target is looked up, then every gate. */
  function TwoPhase(c: Context, placeholder: TargetFacts): Decision {
    match EvaluatePrerequisites(c.(target := placeholder))
    case Some(denial) => denial
    case None => Evaluate(c)
  }

  /** Whatever stands in for the target before it is looked up, the answer is the one-phase answer. */
  lemma TwoPhaseIsOnePhase(c: Context, placeholder: TargetFacts)
    ensures TwoPhase(c, placeholder) == Evaluate(c)
  {
    PrerequisitesIgnoreTheCaller(c, c.(target := placeholder));
  }

  ghost predicate SameRequest(c: Context, d: Context) {
    c.tool == d.tool && c.lifecycle == d.lifecycle && c.rawInput == d.rawInput && c.requestTime == d.requestTime
  }

  /** A denial by gates 1 to 4 says nothing about who asked, for what target, or where. */
  lemma PrerequisitesIgnoreTheCaller(c: Context, d: Context)
    requires SameRequest(c, d)
    ensures EvaluatePrerequisites(c) == EvaluatePrerequisites(d)
    ensures EvaluatePrerequisites(c).Some? ==> Evaluate(c) == Evaluate(d) == EvaluatePrerequisites(c).value
    ensures EvaluatePrerequisites(c).None? <==>
      Gate(1, c).Passes? && Gate(2, c).Passes? && Gate(3, c).Passes? && Gate(4, c).Passes?
  {
    if c.tool.Some? { EngineGates(c); }
  }

  // ---- Roles ----

  predicate IsRoleName(name: string) { exists r :: r in ALL_ROLES && RoleValue(r) == name }

  lemma HeldExactly(names: set<string>, r: Role)
    ensures RoleValue(r) in Held(names) <==> exists h :: RoleValue(h) in names && r in Implied(h)
  {
    if RoleValue(r) in Held(names) {
      var q :| q in EffectiveRoles(names) && RoleValue(q) == RoleValue(r);
      RoleNamesAreDistinct(q, r);
    }
    if h :| RoleValue(h) in names && r in Implied(h) {
      assert h in ALL_ROLES;
      assert r in EffectiveRoles(names);
    }
  }

  lemma HeldKeepsKnown(names: set<string>, name: string)
    requires name in names && IsRoleName(name)
    ensures name in Held(names)
  {
    var r :| r in ALL_ROLES && RoleValue(r) == name;
    assert r in Implied(r);
    HeldExactly(names, r);
  }

  lemma HeldIsMonotone(names: set<string>, more: set<string>)
    requires names <= more
    ensures Held(names) <= Held(more)
  {
    assert EffectiveRoles(names) <= EffectiveRoles(more);
  }

  /** Expanding roles is a closure: it keeps every known name, is monotone, and expanding twice adds nothing. */
  lemma HeldIsAClosure(names: set<string>, more: set<string>)
    ensures forall name :: name in names && IsRoleName(name) ==> name in Held(names)
    ensures names <= more ==> Held(names) <= Held(more)
    ensures Held(Held(names)) == Held(names)
  {
    forall name | name in names && IsRoleName(name) ensures name in Held(names) { HeldKeepsKnown(names, name); }
    if names <= more { HeldIsMonotone(names, more); }
    forall name ensures name in Held(Held(names)) <==> name in Held(names) { HeldTwiceByName(names, name); }
  }

  lemma HeldTwiceByName(names: set<string>, name: string)
    ensures name in Held(Held(names)) <==> name in Held(names)
  {
    if q: Role :| RoleValue(q) == name { HeldTwice(names, q); }
  }

  lemma HeldTwice(names: set<string>, r: Role)
    ensures RoleValue(r) in Held(Held(names)) <==> RoleValue(r) in Held(names)
  {
    HeldExactly(Held(names), r);
    HeldExactly(names, r);
    if h :| RoleValue(h) in Held(names) && r in Implied(h) {
      HeldExactly(names, h);
      var g :| RoleValue(g) in names && h in Implied(g);
      assert r in Implied(g);
    }
    if RoleValue(r) in Held(names) { assert r in Implied(r); }
  }

  /** Roles only ever help: a request allowed to a principal is allowed, with the same decision, to one with more. */
  lemma AddingRolesKeepsAllow(c: Context, more: set<string>)
    requires Evaluate(c).allowed && c.roles <= more
    ensures Evaluate(c.(roles := more)) == Evaluate(c)
  {
    HeldIsMonotone(c.roles, more);
    assert c.tool.value.definition.requiredRoles <= Held(c.roles);
  }

  /** effective_roles: a set grown name by name, unknown names skipped. */
  method ExpandRoles(names: set<string>) returns (expanded: set<Role>)
    ensures expanded == EffectiveRoles(names)
  {
    expanded := {};
    var rest := names;
    while rest != {}
      invariant rest <= names
      invariant expanded == EffectiveRoles(names - rest)
      decreases rest
    {
      var name :| name in rest;
      ghost var seen := names - rest;
      rest := rest - {name};
      assert names - rest == seen + {name};
      if role :| role in ALL_ROLES && RoleValue(role) == name {
        ExpandOne(seen, role);
        expanded := expanded + Implied(role);
      } else {
        ExpandNone(seen, name);
      }
    }
    assert names - {} == names;
  }

  lemma ExpandOne(seen: set<string>, role: Role)
    ensures EffectiveRoles(seen + {RoleValue(role)}) == EffectiveRoles(seen) + Implied(role)
  {
    forall h: Role ensures RoleValue(h) == RoleValue(role) <==> h == role { RoleNamesAreDistinct(h, role); }
    assert role in ALL_ROLES;
  }

  lemma ExpandNone(seen: set<string>, name: string)
    requires !IsRoleName(name)
    ensures EffectiveRoles(seen + {name}) == EffectiveRoles(seen)
  {
  }

  // ---- From declaration to database ----

  /** The policy columns of a tool_invocation row. */
  datatype InvocationRow = InvocationRow(
    permissionClass: PermissionClass, approvalRequired: bool, minApprovals: int, distinctApproversRequired: bool,
    ttlSeconds: int, validationRequired: bool, approvalsReceived: int, allowed: bool, idempotencyKey: Option<string>)

  /** The row an invocation starts as. A refused request does not consume its idempotency key. */
  function RowOf(d: Decision, idempotencyKey: Option<string>): InvocationRow {
    InvocationRow(d.permissionClass, d.approvalPolicy.approvalRequired, d.approvalPolicy.minApprovals,
                  d.approvalPolicy.distinctApproversRequired, d.approvalPolicy.ttlSeconds, d.validationRequired, 0,
                  d.allowed, if d.allowed then idempotencyKey else None)
  }

  /** The CHECKs on approval counts, distinct approvers and lifetime. */
  predicate ApprovalChecks(row: InvocationRow) {
    && row.minApprovals >= 1 && 0 <= row.approvalsReceived <= row.minApprovals
    && (row.minApprovals == 1 || row.distinctApproversRequired) && row.ttlSeconds > 0
  }

  /** The CHECKs that hold a change class to approval, validation and a key. */
  predicate ClassChecks(row: InvocationRow) {
    var nonChange := !RequiresApproval(row.permissionClass);
    && (nonChange || row.idempotencyKey.Some? || !row.allowed)
    && (nonChange || row.approvalRequired)
    && (nonChange || row.validationRequired)
  }

  predicate RowChecks(row: InvocationRow) { ApprovalChecks(row) && ClassChecks(row) }

  /** A tool the registry accepted, or a registration row no code binds. */
  ghost predicate Registered(env: Environment, c: Context) {
    c.tool.Some? ==> ValidateDeclaration(env, c.tool.value.definition).None?
  }

  /** The numbers an approval policy is checked for only when it requires approval. */
  predicate SoundNumbers(p: ApprovalPolicy) {
    p.minApprovals >= 1 && (p.minApprovals == 1 || p.distinctApproversRequired) && p.ttlSeconds > 0
  }

  /** Whatever the engine decides, its row meets the database's CHECKs exactly when the policy it copied has sound
      numbers and, for an allowed change, the request carried a key. A policy that requires approval always has them. */
  lemma DecisionFitsTheRow(env: Environment, c: Context, key: Option<string>)
    requires Registered(env, c)
    ensures RowChecks(RowOf(Evaluate(c), key)) <==>
      && (c.tool.Some? && CanSnapshot(c) ==> SoundNumbers(c.tool.value.definition.approvalPolicy))
      && (Evaluate(c).allowed && RequiresApproval(c.tool.value.definition.permissionClass) ==> key.Some?)
    ensures c.tool.Some? && c.tool.value.definition.approvalPolicy.approvalRequired ==>
      SoundNumbers(c.tool.value.definition.approvalPolicy)
    ensures c.tool.Some? && RequiresApproval(c.tool.value.definition.permissionClass) ==>
      c.tool.value.definition.approvalPolicy.approvalRequired
  {
    DecisionsAreComplete(c);
    if c.tool.Some? { AcceptedExactly(env, c.tool.value.definition); }
  }

  /** The methods a declaration really has, raising or not. */
  ghost predicate Genuine(t: BoundTool, h: string -> string) {
    && (t.executionParameters.Value? ==> t.executionParameters.value == ExecutionParameters(t.definition))
    && (t.contractHash.Value? ==> t.contractHash.value == ContractHash(h, t.definition))
  }

  /** A read-only tool that asks for no approval, with a policy that would be no policy if it did. */
  function UncheckedTool(adapter: string): ToolDefinition {
    ToolDefinition(
      R.Join(["a", "b", "c"]), R.Join(["0", "0"]), Class0Information, Null, Null, adapter, {RoleValue(Viewer)}, NoTarget, {},
      {}, false, DEFAULT_APPROVAL_POLICY.(minApprovals := 0), false, IntToken(0), IntToken(0), NaturallyIdempotent, true,
      RetryPolicy(1, IntToken(0), {}), Public, Active, false)
  }

  lemma UncheckedToolIsNamed(env: Environment, adapter: string)
    requires env.digit('0')
    ensures IsWellNamed(env, UncheckedTool(adapter))
  {
    var name, version := ["a", "b", "c"], ["0", "0"];
    assert NameSegments(name) && VersionSegments(env.digit, version);
  }

  lemma UncheckedToolRegisters(env: Environment, adapter: string)
    requires env.digit('0') && adapter in env.adapters
    ensures ValidateDeclaration(env, UncheckedTool(adapter)).None? && !SoundNumbers(UncheckedTool(adapter).approvalPolicy)
  {
    UncheckedToolIsNamed(env, adapter);
    var d := UncheckedTool(adapter);
    assert S.GetDict(Null, "$defs") == map[] && S.GetDict(Null, "properties") == map[];
    assert NoGenericSurface(env, d);
    assert d.capabilityTags !! PROHIBITED_CAPABILITIES;
    AcceptedExactly(env, d);
  }

  /** A request for the tool by someone who may. */
  function UncheckedRequest(h: string -> string, adapter: string): Context {
    var d := UncheckedTool(adapter);
    Context({RoleValue(Viewer)},
            Some(BoundTool(d, Value(ContractHash(h, d)), Value(ExecutionParameters(d)), input => Value(Some(input)))),
            Active, map[], TargetFacts(NoTarget, false, None, "", "", map[]), "", 0)
  }

  /** What is enough to be allowed for a tool without a target, open to every environment. */
  lemma EnoughToAllow(c: Context, t: BoundTool)
    requires c.tool == Some(t) && c.lifecycle.Active? && !IsProhibited(t.definition)
    requires t.validate(c.rawInput) == Value(Some(c.rawInput)) && t.executionParameters.Value? && t.contractHash.Value?
    requires t.definition.targetType.NoTarget? && c.target.kind.NoTarget?
    requires t.definition.requiredRoles <= Held(c.roles) && t.definition.approvalPolicy.allowedEnvironments == {}
    ensures Evaluate(c).allowed
  {
  }

  lemma ViewerIsHeld()
    ensures {RoleValue(Viewer)} <= Held({RoleValue(Viewer)})
  {
    assert Viewer in ALL_ROLES;
    HeldKeepsKnown({RoleValue(Viewer)}, RoleValue(Viewer));
  }

  lemma UncheckedRequestIsAllowed(h: string -> string, adapter: string)
    ensures Evaluate(UncheckedRequest(h, adapter)).allowed
  {
    var c := UncheckedRequest(h, adapter);
    ViewerIsHeld();
    assert !IsProhibited(c.tool.value.definition) by {
      assert c.tool.value.definition.capabilityTags == {};
    }
    EnoughToAllow(c, c.tool.value);
  }

  /** The database refuses the decision's row, whatever key it brings. */
  ghost predicate NeverFits(d: Decision) { forall key :: !RowChecks(RowOf(d, key)) }

  /** An allowed request of a registered tool is refused by the database, whatever key it brings, exactly when the tool's
      numbers are unsound. */
  lemma AllowedButRefusedExactly(env: Environment, c: Context)
    requires Registered(env, c) && Evaluate(c).allowed
    ensures c.tool.Some? && (NeverFits(Evaluate(c)) <==> !SoundNumbers(c.tool.value.definition.approvalPolicy))
  {
    AllowedInputIsCanonical(c);
    forall key: Option<string>
      ensures !SoundNumbers(c.tool.value.definition.approvalPolicy) ==> !RowChecks(RowOf(Evaluate(c), key))
    {
      DecisionFitsTheRow(env, c, key);
    }
    DecisionFitsTheRow(env, c, Some(""));
  }

  ghost predicate AllowedButRefused(env: Environment, h: string -> string, c: Context) {
    && Registered(env, c) && c.tool.Some? && Genuine(c.tool.value, h) && Evaluate(c).allowed && NeverFits(Evaluate(c))
  }

  /** The numbers of a policy that does not require approval are not looked at when it is declared: wherever an adapter is
      registered there is a tool that registers and is allowed, and whose invocation the database still refuses. */
  lemma UncheckedNumbersAreRefused(env: Environment, h: string -> string)
    requires env.digit('0') && env.adapters != {}
    ensures exists c :: AllowedButRefused(env, h, c)
  {
    var adapter :| adapter in env.adapters;
    UncheckedToolRegisters(env, adapter);
    UncheckedRequestIsAllowed(h, adapter);
    AllowedButRefusedExactly(env, UncheckedRequest(h, adapter));
    assert AllowedButRefused(env, h, UncheckedRequest(h, adapter));
  }

  /** A change tool, or none at all: every decision fits, once an allowed change brings its key. */
  lemma ChangesAndUnboundToolsFit(env: Environment, c: Context, key: Option<string>)
    requires Registered(env, c)
    requires c.tool.None? || RequiresApproval(c.tool.value.definition.permissionClass)
    requires Evaluate(c).allowed ==> key.Some?
    ensures RowChecks(RowOf(Evaluate(c), key))
  {
    DecisionFitsTheRow(env, c, key);
  }

  /** A request is allowed exactly when its tool is bound, active and not prohibited, whatever escape its declaration used to
      register; its input validates; its target is what the tool acts on: nothing, a reference that says something, or an
      asset that exists, is active as far as is known and is of a declared type; the principal's roles stand for every one
      required; the environment is open to it; and its policy can be copied onto the record. */
  lemma AllowedExactly(c: Context)
    ensures Evaluate(c).allowed <==>
      && c.tool.Some? && c.lifecycle.Active?
      && var t, d, target := c.tool.value, c.tool.value.definition, c.target;
         && !d.prohibited && (forall tag :: tag in d.capabilityTags ==> tag !in PROHIBITED_CAPABILITIES)
         && (exists canonical :: t.validate(c.rawInput) == Value(Some(canonical)))
         && target.kind == d.targetType
         && (target.kind.ExternalRef? ==> target.externalRef != map[])
         && (target.kind.Asset? ==>
               && target.found && target.assetId.Some? && target.lifecycleState in {"", "ACTIVE"}
               && target.assetType in d.targetAssetTypes)
         && (forall name :: name in d.requiredRoles ==> StandsFor(c.roles, name))
         && (d.approvalPolicy.allowedEnvironments == {} || c.environment in d.approvalPolicy.allowedEnvironments)
         && t.executionParameters.Value? && t.contractHash.Value?
  {
    FirstFailingGateDecides(c, 0);
    AllPassByGate(c);
    if c.tool.Some? && c.tool.value.validate(c.rawInput).Value? && c.tool.value.validate(c.rawInput).value.Some? {
      assert c.tool.value.validate(c.rawInput) == Value(Some(c.tool.value.validate(c.rawInput).value.value));
    }
  }

  /** What an allow means for a registered tool, beside what every allow needs: the principal effectively holds the minimum
      roles of its class, and it acts on nothing exactly when it only informs. */
  lemma AllowMeans(env: Environment, c: Context)
    requires Registered(env, c) && Evaluate(c).allowed
    ensures c.tool.Some? && MinimumRoles(c.tool.value.definition.permissionClass) <= EffectiveRoles(c.roles)
    ensures c.tool.value.definition.permissionClass.Class0Information? <==> c.target.kind.NoTarget?
  {
    AllowNeedsMinimumRoles(env, c);
    AllowNeedsTarget(c);
    AcceptedExactly(env, c.tool.value.definition);
  }

  lemma AllowNeedsTarget(c: Context)
    requires Evaluate(c).allowed
    ensures c.tool.Some? && CheckTarget(c.tool.value.definition, c.target).None?
  {
  }

  lemma AllowNeedsMinimumRoles(env: Environment, c: Context)
    requires Registered(env, c) && Evaluate(c).allowed
    ensures c.tool.Some? && MinimumRoles(c.tool.value.definition.permissionClass) <= EffectiveRoles(c.roles)
    ensures c.tool.value.definition.capabilityTags !! PROHIBITED_CAPABILITIES
  {
    var d := c.tool.value.definition;
    AcceptedExactly(env, d);
    assert d.requiredRoles <= Held(c.roles);
    forall r | r in MinimumRoles(d.permissionClass) ensures r in EffectiveRoles(c.roles) {
      assert RoleValue(r) in Held(c.roles);
      var q :| q in EffectiveRoles(c.roles) && RoleValue(q) == RoleValue(r);
      RoleNamesAreDistinct(q, r);
    }
  }

  /** A non-idempotent tool is recorded, allowed or denied, with exactly one attempt. */
  lemma NonIdempotentGetsOneAttempt(env: Environment, c: Context, h: string -> string)
    requires Registered(env, c) && c.tool.Some? && Genuine(c.tool.value, h) && CanSnapshot(c)
    requires c.tool.value.definition.idempotency.NonIdempotent?
    ensures var parameters := Evaluate(c).executionParameters;
      "max_attempts" in parameters && parameters["max_attempts"] == IntJson(1)
  {
    BoundDecisionCopies(c);
    NonIdempotentRecordsOneAttempt(env, c.tool.value.definition);
  }
}
