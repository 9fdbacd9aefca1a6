/** The execution envelope: what an approver agreed to, and why its digest proves it. */
module Envelope {
  import opened Base
  import opened CanonicalJson
  import opened ToolVocabulary
  import opened Contract

  type JsonObject = map<string, Json>

  /** The resolved target of an invocation. */
  datatype Target = Target(kind: TargetKind, assetId: Option<string>, targetRef: Option<JsonObject>)

  /** The target as the envelope sees it: an empty reference is written as none. */
  function BuildTargetBlock(t: Target): JsonObject {
    map["kind" := Text(KindValue(t.kind)),
        "asset_id" := if t.assetId.Some? then Text(t.assetId.value) else Null,
        "target_ref" := if t.targetRef.Some? && t.targetRef.value != map[] then Object(t.targetRef.value) else Null]
  }

  function ToolIdentity(h: string -> string, d: ToolDefinition): JsonObject {
    map["name" := Text(d.toolName),
        "version" := Text(d.toolVersion),
        "contract_hash" := Text(ContractHash(h, d))]
  }

  function BuildEnvelope(h: string -> string, d: ToolDefinition, input: JsonObject, target: JsonObject): JsonObject {
    EnvelopeOf(Object(ToolIdentity(h, d)), Text(ClassValue(d.permissionClass)), Object(target), Object(input),
               Object(ExecutionParameters(d)), Object(ApprovalSnapshot(d.approvalPolicy)))
  }

  function EnvelopeOf(tool: Json, permissionClass: Json, target: Json, input: Json, execution: Json, approval: Json)
    : JsonObject
  {
    map["tool" := tool,
        "permission_class" := permissionClass,
        "target" := target,
        "input" := input,
        "execution" := execution,
        "approval" := approval]
  }

  function EnvelopeDigest(h: string -> string, envelope: JsonObject): string { DigestOf(h, Object(envelope)) }

  /** The reference a target names: absent and empty are the same. */
  function NamedReference(t: Target): Option<JsonObject> {
    if t.targetRef == Some(map[]) then None else t.targetRef
  }

  lemma TargetBlockBinds(s: Target, t: Target)
    ensures BuildTargetBlock(s) == BuildTargetBlock(t)
       <==> s.kind == t.kind && s.assetId == t.assetId && NamedReference(s) == NamedReference(t)
  {
    var m, n := BuildTargetBlock(s), BuildTargetBlock(t);
    EnumValuesAreDistinct(Prohibited, Prohibited, s.kind, t.kind, Keyed, Keyed, Public, Public);
    if m == n {
      assert m["kind"] == n["kind"] && m["asset_id"] == n["asset_id"] && m["target_ref"] == n["target_ref"];
    }
  }

  lemma ToolIdentityBinds(h: string -> string, a: ToolDefinition, b: ToolDefinition)
    requires CollisionFree(h)
    ensures ToolIdentity(h, a) == ToolIdentity(h, b) <==> SameContract(a, b)
  {
    var m, n := ToolIdentity(h, a), ToolIdentity(h, b);
    ContractHashBinds(h, a, b);
    if m == n {
      assert m["contract_hash"] == n["contract_hash"];
    }
  }

  lemma EnvelopeFieldsBind(t1: Json, c1: Json, g1: Json, i1: Json, e1: Json, a1: Json,
                           t2: Json, c2: Json, g2: Json, i2: Json, e2: Json, a2: Json)
    ensures EnvelopeOf(t1, c1, g1, i1, e1, a1) == EnvelopeOf(t2, c2, g2, i2, e2, a2)
       <==> t1 == t2 && c1 == c2 && g1 == g2 && i1 == i2 && e1 == e2 && a1 == a2
  {
    var m, n := EnvelopeOf(t1, c1, g1, i1, e1, a1), EnvelopeOf(t2, c2, g2, i2, e2, a2);
    if m == n {
      assert m["tool"] == n["tool"] && m["permission_class"] == n["permission_class"];
      assert m["target"] == n["target"] && m["input"] == n["input"];
      assert m["execution"] == n["execution"] && m["approval"] == n["approval"];
    }
  }

  lemma EnvelopePartsBind(t1: JsonObject, c1: string, g1: JsonObject, i1: JsonObject, e1: JsonObject, a1: JsonObject,
                          t2: JsonObject, c2: string, g2: JsonObject, i2: JsonObject, e2: JsonObject, a2: JsonObject)
    ensures EnvelopeOf(Object(t1), Text(c1), Object(g1), Object(i1), Object(e1), Object(a1))
         == EnvelopeOf(Object(t2), Text(c2), Object(g2), Object(i2), Object(e2), Object(a2))
       <==> t1 == t2 && c1 == c2 && g1 == g2 && i1 == i2 && e1 == e2 && a1 == a2
  {
    EnvelopeFieldsBind(Object(t1), Text(c1), Object(g1), Object(i1), Object(e1), Object(a1),
                       Object(t2), Text(c2), Object(g2), Object(i2), Object(e2), Object(a2));
  }

  lemma EnvelopeBlocksBind(h: string -> string,
                           a: ToolDefinition, inputA: JsonObject, blockA: JsonObject,
                           b: ToolDefinition, inputB: JsonObject, blockB: JsonObject)
    ensures BuildEnvelope(h, a, inputA, blockA) == BuildEnvelope(h, b, inputB, blockB)
       <==> && ToolIdentity(h, a) == ToolIdentity(h, b) && ClassValue(a.permissionClass) == ClassValue(b.permissionClass)
            && blockA == blockB && inputA == inputB
            && ExecutionParameters(a) == ExecutionParameters(b)
            && ApprovalSnapshot(a.approvalPolicy) == ApprovalSnapshot(b.approvalPolicy)
  {
    EnvelopePartsBind(
      ToolIdentity(h, a), ClassValue(a.permissionClass), blockA, inputA,
      ExecutionParameters(a), ApprovalSnapshot(a.approvalPolicy),
      ToolIdentity(h, b), ClassValue(b.permissionClass), blockB, inputB,
      ExecutionParameters(b), ApprovalSnapshot(b.approvalPolicy));
  }

  /** Everything an approver agreed to: the contract, the execution policy, the arguments and the target. */
  ghost predicate SameAgreement(a: ToolDefinition, inputA: JsonObject, targetA: Target,
                                b: ToolDefinition, inputB: JsonObject, targetB: Target)
  {
    && SameContract(a, b) && SameExecution(a, b)
    && inputA == inputB
    && targetA.kind == targetB.kind && targetA.assetId == targetB.assetId
    && NamedReference(targetA) == NamedReference(targetB)
  }

  lemma EnvelopeBinds(h: string -> string,
                      a: ToolDefinition, inputA: JsonObject, targetA: Target,
                      b: ToolDefinition, inputB: JsonObject, targetB: Target)
    requires CollisionFree(h)
    ensures BuildEnvelope(h, a, inputA, BuildTargetBlock(targetA)) == BuildEnvelope(h, b, inputB, BuildTargetBlock(targetB))
       <==> SameAgreement(a, inputA, targetA, b, inputB, targetB)
  {
    EnvelopeBlocksBind(h, a, inputA, BuildTargetBlock(targetA), b, inputB, BuildTargetBlock(targetB));
    ToolIdentityBinds(h, a, b);
    TargetBlockBinds(targetA, targetB);
    ExecutionParametersBind(a, b);
    ApprovalSnapshotBinds(a.approvalPolicy, b.approvalPolicy);
  }

  /** An approval's digest matches at the final gate exactly when nothing an approver agreed to has changed. */
  lemma EnvelopeBinding(h: string -> string,
                        a: ToolDefinition, inputA: JsonObject, targetA: Target,
                        b: ToolDefinition, inputB: JsonObject, targetB: Target)
    requires CollisionFree(h)
    ensures EnvelopeDigest(h, BuildEnvelope(h, a, inputA, BuildTargetBlock(targetA)))
         == EnvelopeDigest(h, BuildEnvelope(h, b, inputB, BuildTargetBlock(targetB)))
       <==> SameAgreement(a, inputA, targetA, b, inputB, targetB)
  {
    DigestBinds(h, Object(BuildEnvelope(h, a, inputA, BuildTargetBlock(targetA))),
                   Object(BuildEnvelope(h, b, inputB, BuildTargetBlock(targetB))));
    EnvelopeBinds(h, a, inputA, targetA, b, inputB, targetB);
  }
}
