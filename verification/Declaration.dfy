/** The import-time rules of a tool declaration and the registry that applies them. */
module Declaration {
  import opened Base
  import opened CanonicalJson
  import opened ToolVocabulary
  import opened Contract
  import S = DeclaredSchemas
  import R = Redaction
  import M = ToolModels
  import W = ToolSchemas

  /** What the rules ask of their surroundings: the field names they forbid (`DeclaredSchemas.ForbiddenField`), what a regular
      expression takes for a digit, and the adapters that are registered. */
  datatype Environment = Environment(forbidden: string -> bool, digit: char -> bool, adapters: set<string>)

  datatype Rejection =
    | MalformedIdentity
    | ApprovalUndeclared | ValidationUndeclared | RolesBelowMinimum | TargetDisagreesWithClass | NoAssetTypes
    | NoApproverRoles | ApproversOutsideAuthority | TooFewApprovals | ApproversNotDistinct | NonPositiveTtl
    | ProhibitedCategory
    | NonIdempotentRetries | NoAttempt | UnsupportedRetryCategory | RetriesOnNonIdempotentAdapter
    | ForbiddenInputField | OpenSchema
    | UnboundAdapter

  // ---- Names and versions ----

  /** str.split('.'), with what was read of the current segment. */
  function Segments(s: string, current: string): (r: seq<string>)
    ensures r != []
  {
    if s == "" then [current]
    else if s[0] == '.' then [current] + Segments(s[1..], "")
    else Segments(s[1..], current + [s[0]])
  }

  predicate NameStart(c: char) { 'a' <= c <= 'z' }

  predicate NameChar(c: char) { NameStart(c) || '0' <= c <= '9' || c == '_' }

  predicate IsNamePart(s: string) { s != "" && NameStart(s[0]) && forall i :: 0 <= i < |s| ==> NameChar(s[i]) }

  /** A dot is no digit. */
  predicate IsNumber(digit: char -> bool, s: string) {
    s != "" && forall i :: 0 <= i < |s| ==> s[i] != '.' && digit(s[i])
  }

  /** The dollar sign of a pattern also matches before a newline that ends the text. */
  function Body(s: string): string { if s != "" && s[|s| - 1] == '\n' then s[..|s| - 1] else s }

  predicate NameSegments(parts: seq<string>) { 3 <= |parts| <= 5 && forall i :: 0 <= i < |parts| ==> IsNamePart(parts[i]) }

  predicate VersionSegments(digit: char -> bool, parts: seq<string>) {
    |parts| == 2 && IsNumber(digit, parts[0]) && IsNumber(digit, parts[1])
  }

  /** TOOL_NAME_PATTERN. */
  predicate MatchesName(s: string) { NameSegments(Segments(s, "")) || NameSegments(Segments(Body(s), "")) }

  /** TOOL_VERSION_PATTERN. */
  predicate MatchesVersion(digit: char -> bool, s: string) {
    VersionSegments(digit, Segments(s, "")) || VersionSegments(digit, Segments(Body(s), ""))
  }

  lemma {:induction false} SegmentsJoin(s: string, current: string)
    requires '.' !in current
    ensures R.Join(Segments(s, current)) == current + s
    ensures forall part :: part in Segments(s, current) ==> '.' !in part
  {
    if s == "" {
      assert current + s == current;
    } else if s[0] == '.' {
      SegmentsJoin(s[1..], "");
      var rest := Segments(s[1..], "");
      assert ([current] + rest)[1..] == rest;
      assert current + "." + s[1..] == current + s;
    } else {
      SegmentsJoin(s[1..], current + [s[0]]);
      assert current + [s[0]] + s[1..] == current + s;
    }
  }

  lemma {:induction false} SegmentsAfter(part: string, rest: string, current: string)
    requires '.' !in part
    ensures Segments(part + rest, current) == Segments(rest, current + part)
  {
    if part == "" {
      assert part + rest == rest && current + part == current;
    } else {
      assert (part + rest)[1..] == part[1..] + rest;
      SegmentsAfter(part[1..], rest, current + [part[0]]);
      assert current + [part[0]] + part[1..] == current + part;
    }
  }

  /** Splitting undoes joining. */
  lemma {:induction false} JoinedSegments(parts: seq<string>)
    requires parts != [] && forall i :: 0 <= i < |parts| ==> '.' !in parts[i]
    ensures Segments(R.Join(parts), "") == parts
  {
    if |parts| == 1 {
      SegmentsAfter(parts[0], "", "");
      assert parts[0] + "" == parts[0] && "" + parts[0] == parts[0];
    } else {
      var rest := R.Join(parts[1..]);
      SegmentsAfter(parts[0], "." + rest, "");
      assert "" + parts[0] == parts[0] && parts[0] + ("." + rest) == parts[0] + "." + rest;
      assert ("." + rest)[1..] == rest;
      JoinedSegments(parts[1..]);
      assert [parts[0]] + parts[1..] == parts;
    }
  }

  /** A tool's name: three to five lower-case words joined by dots. */
  ghost predicate DottedName(s: string) { exists parts: seq<string> :: NameSegments(parts) && R.Join(parts) == s }

  /** A tool's version: two numbers joined by a dot. */
  ghost predicate DottedVersion(digit: char -> bool, s: string) {
    exists parts: seq<string> :: VersionSegments(digit, parts) && R.Join(parts) == s
  }

  lemma DottedNameExactly(s: string)
    ensures DottedName(s) <==> NameSegments(Segments(s, ""))
  {
    SegmentsJoin(s, "");
    assert "" + s == s;
    if parts: seq<string> :| NameSegments(parts) && R.Join(parts) == s { JoinedSegments(parts); }
  }

  lemma DottedVersionExactly(digit: char -> bool, s: string)
    ensures DottedVersion(digit, s) <==> VersionSegments(digit, Segments(s, ""))
  {
    SegmentsJoin(s, "");
    assert "" + s == s;
    if parts: seq<string> :| VersionSegments(digit, parts) && R.Join(parts) == s {
      assert forall i | 0 <= i < |parts| :: IsNumber(digit, parts[i]);
      JoinedSegments(parts);
    }
  }

  // ---- The rules ----

  function CheckIdentity(env: Environment, d: ToolDefinition): Option<Rejection> {
    if MatchesName(d.toolName) && MatchesVersion(env.digit, d.toolVersion) then None else Some(MalformedIdentity)
  }

  /** What a rule group answers: the first rejection, or None. */
  function CheckClassAgreement(d: ToolDefinition): Option<Rejection> {
    if RequiresApproval(d.permissionClass) && !d.approvalPolicy.approvalRequired then Some(ApprovalUndeclared)
    else if RequiresApproval(d.permissionClass) && !d.validationRequired then Some(ValidationUndeclared)
    else if RoleNames(MinimumRoles(d.permissionClass)) - d.requiredRoles != {} then Some(RolesBelowMinimum)
    else if d.permissionClass.Class0Information? != d.targetType.NoTarget? then Some(TargetDisagreesWithClass)
    else if d.targetType.Asset? && d.targetAssetTypes == {} then Some(NoAssetTypes)
    else None
  }

  function CheckApprovalPolicy(d: ToolDefinition): Option<Rejection> {
    var p := d.approvalPolicy;
    if !p.approvalRequired then None
    else if p.approverRoles == {} then Some(NoApproverRoles)
    else if p.approverRoles - APPROVAL_AUTHORITY != {} then Some(ApproversOutsideAuthority)
    else if p.minApprovals < 1 then Some(TooFewApprovals)
    else if p.minApprovals > 1 && !p.distinctApproversRequired then Some(ApproversNotDistinct)
    else if p.ttlSeconds <= 0 then Some(NonPositiveTtl)
    else None
  }

  function CheckProhibition(d: ToolDefinition): Option<Rejection> {
    if d.capabilityTags * PROHIBITED_CAPABILITIES == {} || d.allowRegistrationForTesting then None
    else Some(ProhibitedCategory)
  }

  function CheckIdempotency(d: ToolDefinition): Option<Rejection> {
    var attempts := d.retryPolicy.maxAttempts;
    if d.idempotency.NonIdempotent? && attempts != 1 then Some(NonIdempotentRetries)
    else if attempts < 1 then Some(NoAttempt)
    else if d.retryPolicy.retryOn - RETRYABLE != {} then Some(UnsupportedRetryCategory)
    else if attempts > 1 && !d.adapterIdempotent then Some(RetriesOnNonIdempotentAdapter)
    else None
  }

  function CheckInputSchema(env: Environment, d: ToolDefinition): Option<Rejection> {
    if !S.FieldsAreClean(env.forbidden, d.inputSchema) then Some(ForbiddenInputField)
    else if !S.Closed(d.inputSchema) || !S.Closed(d.outputSchema) then Some(OpenSchema)
    else None
  }

  /** validate_declaration: the rule groups in order, the first rejection wins. */
  function ValidateDeclaration(env: Environment, d: ToolDefinition): Option<Rejection> {
    if CheckIdentity(env, d).Some? then CheckIdentity(env, d)
    else if CheckClassAgreement(d).Some? then CheckClassAgreement(d)
    else if CheckApprovalPolicy(d).Some? then CheckApprovalPolicy(d)
    else if CheckProhibition(d).Some? then CheckProhibition(d)
    else if CheckIdempotency(d).Some? then CheckIdempotency(d)
    else if CheckInputSchema(env, d).Some? then CheckInputSchema(env, d)
    else if d.adapterId !in env.adapters then Some(UnboundAdapter)
    else None
  }

  // ---- What an accepted declaration promises, rule by rule ----

  /** A change is approved by enough distinct people, validated afterwards, and asked for by an operator. */
  ghost predicate ChangeIsControlled(d: ToolDefinition) {
    RequiresApproval(d.permissionClass) ==>
      d.approvalPolicy.approvalRequired && d.validationRequired && RoleValue(Operator) in d.requiredRoles
  }

  ghost predicate ApprovalIsMeaningful(p: ApprovalPolicy) {
    p.approvalRequired ==>
      && p.approverRoles != {} && p.approverRoles <= APPROVAL_AUTHORITY
      && p.minApprovals >= 1 && (p.minApprovals == 1 || p.distinctApproversRequired) && p.ttlSeconds > 0
  }

  ghost predicate RetriesAreSafe(d: ToolDefinition) {
    && d.retryPolicy.maxAttempts >= 1 && d.retryPolicy.retryOn <= RETRYABLE
    && (d.retryPolicy.maxAttempts == 1 || (d.adapterIdempotent && !d.idempotency.NonIdempotent?))
  }

  ghost predicate ScopeIsDeclared(d: ToolDefinition) {
    && (d.permissionClass.Class0Information? <==> d.targetType.NoTarget?)
    && (d.targetType.Asset? ==> d.targetAssetTypes != {})
  }

  ghost predicate HoldsMinimumRoles(d: ToolDefinition) {
    forall r :: r in MinimumRoles(d.permissionClass) ==> RoleValue(r) in d.requiredRoles
  }

  /** Its name and version have the declared shape, a newline at the end aside. */
  ghost predicate IsWellNamed(env: Environment, d: ToolDefinition) {
    && (DottedName(d.toolName) || DottedName(Body(d.toolName)))
    && (DottedVersion(env.digit, d.toolVersion) || DottedVersion(env.digit, Body(d.toolVersion)))
  }

  /** No field of a walked block has a forbidden name, and no walked block of either model is open. */
  ghost predicate NoGenericSurface(env: Environment, d: ToolDefinition) {
    && (forall b, name :: b in S.Blocks(d.inputSchema) && name in S.GetDict(b, "properties") ==> !env.forbidden(name))
    && (forall b :: b in S.Blocks(d.inputSchema) + S.Blocks(d.outputSchema) && S.Get(b, "type") == Some(Text("object")) ==>
          S.Get(b, "additionalProperties") == Some(Bool(false)))
  }

  ghost predicate MeetsTheRules(env: Environment, d: ToolDefinition) {
    && IsWellNamed(env, d) && NoGenericSurface(env, d) && d.adapterId in env.adapters
    && ChangeIsControlled(d)
    && HoldsMinimumRoles(d)
    && ScopeIsDeclared(d)
    && ApprovalIsMeaningful(d.approvalPolicy)
    && (d.capabilityTags !! PROHIBITED_CAPABILITIES || d.allowRegistrationForTesting)
    && RetriesAreSafe(d)
  }

  lemma NothingMissing(a: set<string>, b: set<string>)
    ensures a - b == {} <==> a <= b
  {
    forall x | x in a ensures x in b || x in a - b {
    }
  }

  lemma NothingShared(a: set<string>, b: set<string>)
    ensures a * b == {} <==> a !! b
  {
    forall x | x in a && x in b ensures x in a * b {
    }
    if a !! b { assert a * b <= {}; }
  }

  lemma MinimumRolesByName(d: ToolDefinition)
    ensures RoleNames(MinimumRoles(d.permissionClass)) - d.requiredRoles == {} <==> HoldsMinimumRoles(d)
  {
    var names := RoleNames(MinimumRoles(d.permissionClass));
    NothingMissing(names, d.requiredRoles);
    forall r | r in MinimumRoles(d.permissionClass) ensures RoleValue(r) in names {
    }
    forall name | name in names && HoldsMinimumRoles(d) ensures name in d.requiredRoles {
      var r :| r in MinimumRoles(d.permissionClass) && RoleValue(r) == name;
    }
  }

  lemma ClassAgreementExactly(d: ToolDefinition)
    ensures CheckClassAgreement(d).None? <==> ChangeIsControlled(d) && HoldsMinimumRoles(d) && ScopeIsDeclared(d)
  {
    MinimumRolesByName(d);
    assert RequiresApproval(d.permissionClass) ==> Operator in MinimumRoles(d.permissionClass);
  }

  lemma ApprovalPolicyExactly(d: ToolDefinition)
    ensures CheckApprovalPolicy(d).None? <==> ApprovalIsMeaningful(d.approvalPolicy)
  {
    NothingMissing(d.approvalPolicy.approverRoles, APPROVAL_AUTHORITY);
  }

  lemma ProhibitionExactly(d: ToolDefinition)
    ensures CheckProhibition(d).None? <==> d.capabilityTags !! PROHIBITED_CAPABILITIES || d.allowRegistrationForTesting
  {
    NothingShared(d.capabilityTags, PROHIBITED_CAPABILITIES);
  }

  lemma IdempotencyExactly(d: ToolDefinition)
    ensures CheckIdempotency(d).None? <==> RetriesAreSafe(d)
  {
    NothingMissing(d.retryPolicy.retryOn, RETRYABLE);
  }

  lemma IdentityExactly(env: Environment, d: ToolDefinition)
    ensures CheckIdentity(env, d).None? <==> IsWellNamed(env, d)
  {
    DottedNameExactly(d.toolName);
    DottedNameExactly(Body(d.toolName));
    DottedVersionExactly(env.digit, d.toolVersion);
    DottedVersionExactly(env.digit, Body(d.toolVersion));
  }

  lemma FieldsExactly(forbidden: string -> bool, schema: Json)
    ensures S.FieldsAreClean(forbidden, schema) <==>
      forall b, name :: b in S.Blocks(schema) && name in S.GetDict(b, "properties") ==> !forbidden(name)
  {
    if S.FieldsAreClean(forbidden, schema) {
      forall b, name | b in S.Blocks(schema) && name in S.GetDict(b, "properties") ensures !forbidden(name) {
        assert name in S.FieldNames(schema);
      }
    }
  }

  lemma InputSchemaExactly(env: Environment, d: ToolDefinition)
    ensures CheckInputSchema(env, d).None? <==> NoGenericSurface(env, d)
  {
    FieldsExactly(env.forbidden, d.inputSchema);
  }

  /** Import accepts a declaration exactly when it meets every rule, whatever the order they are tried in. */
  lemma AcceptedExactly(env: Environment, d: ToolDefinition)
    ensures ValidateDeclaration(env, d).None? <==> MeetsTheRules(env, d)
  {
    IdentityExactly(env, d);
    InputSchemaExactly(env, d);
    ClassAgreementExactly(d);
    ApprovalPolicyExactly(d);
    ProhibitionExactly(d);
    IdempotencyExactly(d);
  }

  lemma AcceptedSchemaPasses(env: Environment, d: ToolDefinition)
    requires ValidateDeclaration(env, d).None?
    ensures S.FieldsAreClean(env.forbidden, d.inputSchema) && S.Closed(d.inputSchema)
  {
  }

  lemma AcceptedModelsAreSafe(env: Environment, d: ToolDefinition, models: M.Models, sensitive: string -> bool)
    requires ValidateDeclaration(env, d).None? && M.WellFormed(models) && d.inputSchema == W.Schema(models)
    requires S.Covers(env.forbidden, sensitive)
    ensures W.SafeToKeep(models, sensitive) <==> M.KeepsToFields(models, sensitive)
  {
    AcceptedSchemaPasses(env, d);
    W.SafeToKeepExactly(models, sensitive, env.forbidden);
  }

  lemma AcceptedNamesArePlain(lower: string -> string, env: Environment, d: ToolDefinition)
    requires env.forbidden == S.ForbiddenField(lower) && ValidateDeclaration(env, d).None?
    ensures S.PlainNames(lower, d.inputSchema)
  {
    S.RulesForbid(lower);
    AcceptedSchemaPasses(env, d);
    S.CleanNames(lower, env.forbidden, d.inputSchema);
  }

  /** ACOP has no generic execution surface as far as the rules see: no field they walk names a secret, a place or a
      command. And the canonical input of an accepted tool is safe to keep, whatever the caller sends, exactly when its
      models keep to their fields: no written field is a dict that can have entries or of a free type, no attribute named
      as a secret hides behind an alias or a computed field, and what only computed fields lead to is as good. */
  lemma AcceptedInputIsSafeToKeep(lower: string -> string, sensitive: string -> bool, env: Environment, d: ToolDefinition,
                                  models: M.Models, secret: string)
    requires sensitive == R.IsSensitiveKey(lower) && env.forbidden == S.ForbiddenField(lower) && sensitive(secret)
    requires ValidateDeclaration(env, d).None? && M.WellFormed(models) && d.inputSchema == W.Schema(models)
    ensures S.PlainNames(lower, d.inputSchema)
    ensures W.SafeToKeep(models, sensitive) <==> M.KeepsToFields(models, sensitive)
  {
    AcceptedNamesArePlain(lower, env, d);
    S.RulesCover(lower, sensitive, secret);
    AcceptedModelsAreSafe(env, d, models, sensitive);
  }

  /** A non-idempotent tool is recorded with exactly one attempt. */
  lemma NonIdempotentRecordsOneAttempt(env: Environment, d: ToolDefinition)
    requires ValidateDeclaration(env, d).None? && d.idempotency.NonIdempotent?
    ensures "max_attempts" in ExecutionParameters(d) && ExecutionParameters(d)["max_attempts"] == IntJson(1)
  {
    assert d.retryPolicy.maxAttempts == 1;
    AttemptsAreRecorded(d);
  }
}
