/** The tool declaration, its snapshots and digests, and the rules a declaration must pass at import. */
module Contract {
  import opened CanonicalJson
  import opened ToolVocabulary

  datatype RetryPolicy = RetryPolicy(maxAttempts: int, backoffSeconds: NumToken, retryOn: set<string>)

  datatype ApprovalPolicy = ApprovalPolicy(
    approvalRequired: bool,
    minApprovals: int,
    approverRoles: set<string>,
    distinctApproversRequired: bool,
    ttlSeconds: int,
    allowedEnvironments: set<string>,
    selfApprovalPermitted: bool)

  /** The dataclass defaults, which the policy engine records for an unbound capability. */
  const DEFAULT_APPROVAL_POLICY := ApprovalPolicy(false, 1, APPROVAL_AUTHORITY, false, 3600, {}, false)

  /** A tool declaration. Schemas are the JSON Schema documents of its two models. */
  datatype ToolDefinition = ToolDefinition(
    toolName: string,
    toolVersion: string,
    permissionClass: PermissionClass,
    inputSchema: Json,
    outputSchema: Json,
    adapterId: string,
    requiredRoles: set<string>,
    targetType: TargetKind,
    targetAssetTypes: set<string>,
    capabilityTags: set<string>,
    prohibited: bool,
    approvalPolicy: ApprovalPolicy,
    validationRequired: bool,
    validationDelaySeconds: NumToken,
    timeoutSeconds: NumToken,
    idempotency: IdempotencyKind,
    adapterIdempotent: bool,
    retryPolicy: RetryPolicy,
    sensitivity: Sensitivity,
    lifecycleDefault: ToolLifecycle,
    allowRegistrationForTesting: bool)

  /** Prohibited by its declaration or by one of its tags. */
  predicate IsProhibited(d: ToolDefinition) { d.prohibited || d.capabilityTags * PROHIBITED_CAPABILITIES != {} }

  // ---- Snapshots: the JSON objects the digests are taken over ----

  function IntJson(n: int): Json { Number(IntToken(n)) }

  function ApprovalSnapshot(p: ApprovalPolicy): map<string, Json> {
    map["approval_required" := Bool(p.approvalRequired),
        "min_approvals" := IntJson(p.minApprovals),
        "approver_roles" := SortedList(p.approverRoles),
        "distinct_approvers_required" := Bool(p.distinctApproversRequired),
        "ttl_seconds" := IntJson(p.ttlSeconds),
        "allowed_environments" := SortedList(p.allowedEnvironments),
        "self_approval_permitted" := Bool(p.selfApprovalPermitted)]
  }

  function ExecutionParameters(d: ToolDefinition): map<string, Json> {
    map["timeout_seconds" := Number(d.timeoutSeconds),
        "idempotency" := Text(IdempotencyValue(d.idempotency)),
        "adapter_idempotent" := Bool(d.adapterIdempotent),
        "max_attempts" := IntJson(d.retryPolicy.maxAttempts),
        "backoff_seconds" := Number(d.retryPolicy.backoffSeconds),
        "retry_on" := SortedList(d.retryPolicy.retryOn),
        "validation_required" := Bool(d.validationRequired),
        "validation_delay_seconds" := Number(d.validationDelaySeconds)]
  }

  lemma AttemptsAreRecorded(d: ToolDefinition)
    ensures "max_attempts" in ExecutionParameters(d)
    ensures ExecutionParameters(d)["max_attempts"] == IntJson(d.retryPolicy.maxAttempts)
  {
  }

  /** What the contract hash covers: everything that changes what an approval means. */
  function ContractMaterial(d: ToolDefinition): map<string, Json> {
    ScopeMaterial(d) + PolicyMaterial(d)
  }

  /** Identity, class, roles, target and prohibition. */
  function ScopeMaterial(d: ToolDefinition): map<string, Json> {
    map["tool_name" := Text(d.toolName),
        "tool_version" := Text(d.toolVersion),
        "permission_class" := Text(ClassValue(d.permissionClass)),
        "adapter_id" := Text(d.adapterId),
        "required_roles" := SortedList(d.requiredRoles),
        "target_type" := Text(KindValue(d.targetType)),
        "target_asset_types" := SortedList(d.targetAssetTypes),
        "capability_tags" := SortedList(d.capabilityTags),
        "prohibited" := Bool(d.prohibited)]
  }

  /** Approval, validation, execution and the two schemas. */
  function PolicyMaterial(d: ToolDefinition): map<string, Json> {
    map["approval_policy" := Object(ApprovalSnapshot(d.approvalPolicy)),
        "validation_required" := Bool(d.validationRequired),
        "timeout_seconds" := Number(d.timeoutSeconds),
        "idempotency" := Text(IdempotencyValue(d.idempotency)),
        "adapter_idempotent" := Bool(d.adapterIdempotent),
        "retry_max_attempts" := IntJson(d.retryPolicy.maxAttempts),
        "sensitivity" := Text(SensitivityValue(d.sensitivity)),
        "input_schema" := d.inputSchema,
        "output_schema" := d.outputSchema]
  }

  function ContractHash(h: string -> string, d: ToolDefinition): string {
    DigestOf(h, Object(ContractMaterial(d)))
  }

  // ---- What a snapshot binds ----

  lemma EnumValuesAreDistinct(c1: PermissionClass, c2: PermissionClass, k1: TargetKind, k2: TargetKind,
                              i1: IdempotencyKind, i2: IdempotencyKind, s1: Sensitivity, s2: Sensitivity)
    ensures ClassValue(c1) == ClassValue(c2) <==> c1 == c2
    ensures KindValue(k1) == KindValue(k2) <==> k1 == k2
    ensures IdempotencyValue(i1) == IdempotencyValue(i2) <==> i1 == i2
    ensures SensitivityValue(s1) == SensitivityValue(s2) <==> s1 == s2
  {
    assert forall c :: |ClassValue(c)| == match c
      case Class0Information => 19 case Class1ReadOnly => 17 case Class2LowRiskChange => 23
      case Class3HighRiskChange => 24 case Prohibited => 10;
    assert forall k :: |KindValue(k)| == match k case NoTarget => 4 case Asset => 5 case ExternalRef => 12;
    assert forall i :: |IdempotencyValue(i)| == match i
      case NaturallyIdempotent => 20 case Keyed => 5 case NonIdempotent => 14;
    assert forall s :: |SensitivityValue(s)| == match s case Public => 6 case Internal => 8 case Confidential => 12;
  }

  lemma IntBinds(a: int, b: int)
    ensures IntJson(a) == IntJson(b) <==> a == b
  {
    if IntToken(a) == IntToken(b) { IntTokenInjective(a, b); }
  }

  /** A fingerprint cheap enough to tell the keys of one literal apart: length and first letter. */
  function KeyCode(s: string): int {
    if s == [] then 0 else 256 * |s| + s[0] as int
  }

  lemma KeysDiffer()
    ensures KeyCode("tool_name") == 2420 && KeyCode("tool_version") == 3188 && KeyCode("permission_class") == 4208
    ensures KeyCode("adapter_id") == 2657 && KeyCode("required_roles") == 3698 && KeyCode("target_type") == 2932
    ensures KeyCode("target_asset_types") == 4724 && KeyCode("capability_tags") == 3939 && KeyCode("prohibited") == 2672
    ensures KeyCode("approval_policy") == 3937 && KeyCode("validation_required") == 4982
    ensures KeyCode("timeout_seconds") == 3956 && KeyCode("idempotency") == 2921 && KeyCode("adapter_idempotent") == 4705
    ensures KeyCode("retry_max_attempts") == 4722 && KeyCode("sensitivity") == 2931
    ensures KeyCode("input_schema") == 3177 && KeyCode("output_schema") == 3439
  {
  }

  lemma ApprovalKeysDiffer()
    ensures KeyCode("approval_required") == 4449 && KeyCode("min_approvals") == 3437 && KeyCode("approver_roles") == 3681
    ensures KeyCode("distinct_approvers_required") == 7012 && KeyCode("ttl_seconds") == 2932
    ensures KeyCode("allowed_environments") == 5217
    ensures KeyCode("self_approval_permitted") == 6003
  {
  }

  lemma ExecutionKeysDiffer()
    ensures KeyCode("timeout_seconds") == 3956 && KeyCode("idempotency") == 2921 && KeyCode("adapter_idempotent") == 4705
    ensures KeyCode("max_attempts") == 3181 && KeyCode("backoff_seconds") == 3938 && KeyCode("retry_on") == 2162
    ensures KeyCode("validation_required") == 4982 && KeyCode("validation_delay_seconds") == 6262
  {
  }

  lemma ApprovalSnapshotBinds(p: ApprovalPolicy, q: ApprovalPolicy)
    ensures ApprovalSnapshot(p) == ApprovalSnapshot(q) <==> p == q
  {
    if ApprovalSnapshot(p) == ApprovalSnapshot(q) {
      ApprovalSnapshotFields(p, q);
      IntBinds(p.minApprovals, q.minApprovals);
      IntBinds(p.ttlSeconds, q.ttlSeconds);
      SortedListIsInjective(p.approverRoles, q.approverRoles);
      SortedListIsInjective(p.allowedEnvironments, q.allowedEnvironments);
    }
  }

  lemma ApprovalSnapshotFields(p: ApprovalPolicy, q: ApprovalPolicy)
    requires ApprovalSnapshot(p) == ApprovalSnapshot(q)
    ensures p.approvalRequired == q.approvalRequired && IntJson(p.minApprovals) == IntJson(q.minApprovals)
    ensures SortedList(p.approverRoles) == SortedList(q.approverRoles)
    ensures p.distinctApproversRequired == q.distinctApproversRequired && IntJson(p.ttlSeconds) == IntJson(q.ttlSeconds)
    ensures SortedList(p.allowedEnvironments) == SortedList(q.allowedEnvironments)
    ensures p.selfApprovalPermitted == q.selfApprovalPermitted
  {
    var m, n := ApprovalSnapshot(p), ApprovalSnapshot(q);
    ApprovalKeysDiffer();
    assert m["approval_required"] == n["approval_required"] && m["min_approvals"] == n["min_approvals"];
    assert m["approver_roles"] == n["approver_roles"] && m["ttl_seconds"] == n["ttl_seconds"];
    assert m["distinct_approvers_required"] == n["distinct_approvers_required"];
    assert m["allowed_environments"] == n["allowed_environments"];
    assert m["self_approval_permitted"] == n["self_approval_permitted"];
  }

  /** The execution policy two declarations ask for is the same. */
  ghost predicate SameExecution(a: ToolDefinition, b: ToolDefinition) {
    && a.timeoutSeconds == b.timeoutSeconds && a.idempotency == b.idempotency
    && a.adapterIdempotent == b.adapterIdempotent && a.retryPolicy == b.retryPolicy
    && a.validationRequired == b.validationRequired
    && a.validationDelaySeconds == b.validationDelaySeconds
  }

  lemma ExecutionParametersBind(a: ToolDefinition, b: ToolDefinition)
    ensures ExecutionParameters(a) == ExecutionParameters(b) <==> SameExecution(a, b)
  {
    if ExecutionParameters(a) == ExecutionParameters(b) {
      ExecutionFields(a, b);
      EnumValuesAreDistinct(Prohibited, Prohibited, NoTarget, NoTarget, a.idempotency, b.idempotency, Public, Public);
      IntBinds(a.retryPolicy.maxAttempts, b.retryPolicy.maxAttempts);
      SortedListIsInjective(a.retryPolicy.retryOn, b.retryPolicy.retryOn);
    }
  }

  lemma ExecutionFields(a: ToolDefinition, b: ToolDefinition)
    requires ExecutionParameters(a) == ExecutionParameters(b)
    ensures a.timeoutSeconds == b.timeoutSeconds && IdempotencyValue(a.idempotency) == IdempotencyValue(b.idempotency)
    ensures a.adapterIdempotent == b.adapterIdempotent
    ensures IntJson(a.retryPolicy.maxAttempts) == IntJson(b.retryPolicy.maxAttempts)
    ensures a.retryPolicy.backoffSeconds == b.retryPolicy.backoffSeconds
    ensures SortedList(a.retryPolicy.retryOn) == SortedList(b.retryPolicy.retryOn)
    ensures a.validationRequired == b.validationRequired && a.validationDelaySeconds == b.validationDelaySeconds
  {
    var m, n := ExecutionParameters(a), ExecutionParameters(b);
    ExecutionKeysDiffer();
    assert m["timeout_seconds"] == n["timeout_seconds"] && m["idempotency"] == n["idempotency"];
    assert m["adapter_idempotent"] == n["adapter_idempotent"] && m["max_attempts"] == n["max_attempts"];
    assert m["backoff_seconds"] == n["backoff_seconds"] && m["retry_on"] == n["retry_on"];
    assert m["validation_required"] == n["validation_required"];
    assert m["validation_delay_seconds"] == n["validation_delay_seconds"];
  }

  /** The declarations agree on everything the contract hash is taken over. */
  ghost predicate SameContract(a: ToolDefinition, b: ToolDefinition) {
    && a.toolName == b.toolName && a.toolVersion == b.toolVersion
    && a.permissionClass == b.permissionClass && a.adapterId == b.adapterId
    && a.requiredRoles == b.requiredRoles && a.targetType == b.targetType
    && a.targetAssetTypes == b.targetAssetTypes && a.capabilityTags == b.capabilityTags
    && a.prohibited == b.prohibited && a.approvalPolicy == b.approvalPolicy
    && a.validationRequired == b.validationRequired && a.timeoutSeconds == b.timeoutSeconds
    && a.idempotency == b.idempotency && a.adapterIdempotent == b.adapterIdempotent
    && a.retryPolicy.maxAttempts == b.retryPolicy.maxAttempts && a.sensitivity == b.sensitivity
    && a.inputSchema == b.inputSchema && a.outputSchema == b.outputSchema
  }

  lemma ScopeFields(a: ToolDefinition, b: ToolDefinition)
    requires ScopeMaterial(a) == ScopeMaterial(b)
    ensures a.toolName == b.toolName && a.toolVersion == b.toolVersion && a.adapterId == b.adapterId
    ensures ClassValue(a.permissionClass) == ClassValue(b.permissionClass)
    ensures KindValue(a.targetType) == KindValue(b.targetType)
    ensures SortedList(a.requiredRoles) == SortedList(b.requiredRoles)
    ensures SortedList(a.targetAssetTypes) == SortedList(b.targetAssetTypes)
    ensures SortedList(a.capabilityTags) == SortedList(b.capabilityTags)
    ensures a.prohibited == b.prohibited
  {
    var m, n := ScopeMaterial(a), ScopeMaterial(b);
    KeysDiffer();
    assert m["tool_name"] == n["tool_name"] && m["tool_version"] == n["tool_version"];
    assert m["adapter_id"] == n["adapter_id"] && m["permission_class"] == n["permission_class"];
    assert m["required_roles"] == n["required_roles"] && m["target_type"] == n["target_type"];
    assert m["target_asset_types"] == n["target_asset_types"] && m["capability_tags"] == n["capability_tags"];
    assert m["prohibited"] == n["prohibited"];
  }

  lemma PolicyFields(a: ToolDefinition, b: ToolDefinition)
    requires PolicyMaterial(a) == PolicyMaterial(b)
    ensures ApprovalSnapshot(a.approvalPolicy) == ApprovalSnapshot(b.approvalPolicy)
    ensures a.validationRequired == b.validationRequired && a.timeoutSeconds == b.timeoutSeconds
    ensures IdempotencyValue(a.idempotency) == IdempotencyValue(b.idempotency)
    ensures a.adapterIdempotent == b.adapterIdempotent
    ensures IntJson(a.retryPolicy.maxAttempts) == IntJson(b.retryPolicy.maxAttempts)
    ensures SensitivityValue(a.sensitivity) == SensitivityValue(b.sensitivity)
    ensures a.inputSchema == b.inputSchema && a.outputSchema == b.outputSchema
  {
    var m, n := PolicyMaterial(a), PolicyMaterial(b);
    KeysDiffer();
    assert m["approval_policy"] == n["approval_policy"];
    assert m["validation_required"] == n["validation_required"] && m["timeout_seconds"] == n["timeout_seconds"];
    assert m["idempotency"] == n["idempotency"] && m["adapter_idempotent"] == n["adapter_idempotent"];
    assert m["retry_max_attempts"] == n["retry_max_attempts"] && m["sensitivity"] == n["sensitivity"];
    assert m["input_schema"] == n["input_schema"] && m["output_schema"] == n["output_schema"];
  }

  const SCOPE_KEYS: set<string> := {"tool_name", "tool_version", "permission_class", "adapter_id", "required_roles",
                                    "target_type", "target_asset_types", "capability_tags", "prohibited"}
  const POLICY_KEYS: set<string> := {"approval_policy", "validation_required", "timeout_seconds", "idempotency",
                                     "adapter_idempotent", "retry_max_attempts", "sensitivity", "input_schema",
                                     "output_schema"}

  lemma MaterialKeys(d: ToolDefinition)
    ensures ScopeMaterial(d).Keys == SCOPE_KEYS && PolicyMaterial(d).Keys == POLICY_KEYS
  {
  }

  lemma MaterialKeysAreDisjoint()
    ensures SCOPE_KEYS !! POLICY_KEYS
  {
    KeysDiffer();
  }

  lemma MergedHalves(s1: map<string, Json>, p1: map<string, Json>, s2: map<string, Json>, p2: map<string, Json>)
    requires s1.Keys == s2.Keys && p1.Keys == p2.Keys && s1.Keys !! p1.Keys
    ensures s1 + p1 == s2 + p2 <==> s1 == s2 && p1 == p2
  {
    if s1 + p1 == s2 + p2 {
      forall k | k in s1 ensures s1[k] == s2[k] {
        assert (s1 + p1)[k] == (s2 + p2)[k];
      }
      forall k | k in p1 ensures p1[k] == p2[k] {
        assert (s1 + p1)[k] == (s2 + p2)[k];
      }
    }
  }

  lemma ScopeMaterialBinds(a: ToolDefinition, b: ToolDefinition)
    ensures ScopeMaterial(a) == ScopeMaterial(b) <==>
      && a.toolName == b.toolName && a.toolVersion == b.toolVersion
      && a.permissionClass == b.permissionClass && a.adapterId == b.adapterId
      && a.requiredRoles == b.requiredRoles && a.targetType == b.targetType
      && a.targetAssetTypes == b.targetAssetTypes && a.capabilityTags == b.capabilityTags
      && a.prohibited == b.prohibited
  {
    if ScopeMaterial(a) == ScopeMaterial(b) {
      ScopeFields(a, b);
      EnumValuesAreDistinct(a.permissionClass, b.permissionClass, a.targetType, b.targetType, Keyed, Keyed, Public, Public);
      SortedListIsInjective(a.requiredRoles, b.requiredRoles);
      SortedListIsInjective(a.targetAssetTypes, b.targetAssetTypes);
      SortedListIsInjective(a.capabilityTags, b.capabilityTags);
    }
  }

  lemma PolicyMaterialBinds(a: ToolDefinition, b: ToolDefinition)
    ensures PolicyMaterial(a) == PolicyMaterial(b) <==>
      && a.approvalPolicy == b.approvalPolicy
      && a.validationRequired == b.validationRequired && a.timeoutSeconds == b.timeoutSeconds
      && a.idempotency == b.idempotency && a.adapterIdempotent == b.adapterIdempotent
      && a.retryPolicy.maxAttempts == b.retryPolicy.maxAttempts && a.sensitivity == b.sensitivity
      && a.inputSchema == b.inputSchema && a.outputSchema == b.outputSchema
  {
    if PolicyMaterial(a) == PolicyMaterial(b) {
      PolicyFields(a, b);
      EnumValuesAreDistinct(Prohibited, Prohibited, NoTarget, NoTarget,
                            a.idempotency, b.idempotency, a.sensitivity, b.sensitivity);
      IntBinds(a.retryPolicy.maxAttempts, b.retryPolicy.maxAttempts);
      ApprovalSnapshotBinds(a.approvalPolicy, b.approvalPolicy);
    }
  }

  lemma ContractMaterialBinds(a: ToolDefinition, b: ToolDefinition)
    ensures ContractMaterial(a) == ContractMaterial(b) <==> SameContract(a, b)
  {
    MaterialKeys(a);
    MaterialKeys(b);
    MaterialKeysAreDisjoint();
    MergedHalves(ScopeMaterial(a), PolicyMaterial(a), ScopeMaterial(b), PolicyMaterial(b));
    ScopeMaterialBinds(a, b);
    PolicyMaterialBinds(a, b);
  }

  /** Under a collision-free hash, two contract hashes are equal exactly when the contracts agree. */
  lemma ContractHashBinds(h: string -> string, a: ToolDefinition, b: ToolDefinition)
    requires CollisionFree(h)
    ensures ContractHash(h, a) == ContractHash(h, b) <==> SameContract(a, b)
  {
    DigestBinds(h, Object(ContractMaterial(a)), Object(ContractMaterial(b)));
    ContractMaterialBinds(a, b);
  }
}
