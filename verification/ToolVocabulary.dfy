/** Tool-framework vocabulary: permission classes, roles, targets and the code registries policy reads. */
module ToolVocabulary {
  datatype PermissionClass = Class0Information | Class1ReadOnly | Class2LowRiskChange | Class3HighRiskChange | Prohibited

  function ClassValue(c: PermissionClass): string {
    match c
    case Class0Information => "CLASS_0_INFORMATION"
    case Class1ReadOnly => "CLASS_1_READ_ONLY"
    case Class2LowRiskChange => "CLASS_2_LOW_RISK_CHANGE"
    case Class3HighRiskChange => "CLASS_3_HIGH_RISK_CHANGE"
    case Prohibited => "PROHIBITED"
  }

  /** The change classes: approval, validation and an idempotency key are required of them. */
  predicate RequiresApproval(c: PermissionClass) { c.Class2LowRiskChange? || c.Class3HighRiskChange? }

  datatype TargetKind = NoTarget | Asset | ExternalRef

  function KindValue(k: TargetKind): string {
    match k
    case NoTarget => "NONE"
    case Asset => "ASSET"
    case ExternalRef => "EXTERNAL_REF"
  }

  datatype ToolLifecycle = Active | Disabled | Retired

  datatype IdempotencyKind = NaturallyIdempotent | Keyed | NonIdempotent

  function IdempotencyValue(k: IdempotencyKind): string {
    match k
    case NaturallyIdempotent => "NATURALLY_IDEMPOTENT"
    case Keyed => "KEYED"
    case NonIdempotent => "NON_IDEMPOTENT"
  }

  datatype Sensitivity = Public | Internal | Confidential

  function SensitivityValue(s: Sensitivity): string {
    match s
    case Public => "PUBLIC"
    case Internal => "INTERNAL"
    case Confidential => "CONFIDENTIAL"
  }

  // ---- Roles ----

  datatype Role = Admin | Approver | Operator | Viewer

  function RoleValue(r: Role): string {
    match r
    case Admin => "admin"
    case Approver => "approver"
    case Operator => "operator"
    case Viewer => "viewer"
  }

  const ALL_ROLES: set<Role> := {Admin, Approver, Operator, Viewer}

  lemma RoleNamesAreDistinct(a: Role, b: Role)
    ensures RoleValue(a) == RoleValue(b) <==> a == b
  {
    assert |RoleValue(Approver)| == |RoleValue(Operator)| && RoleValue(Approver)[0] != RoleValue(Operator)[0];
    assert |RoleValue(Admin)| == 5 && |RoleValue(Viewer)| == 6;
  }

  /** Roles that satisfy a requirement on their own authority. */
  function Implied(r: Role): set<Role> {
    match r
    case Admin => {Admin, Approver, Operator, Viewer}
    case Approver => {Approver, Viewer}
    case Operator => {Operator, Viewer}
    case Viewer => {Viewer}
  }

  function MinimumRoles(c: PermissionClass): set<Role> {
    match c
    case Class0Information => {Viewer}
    case Class1ReadOnly => {Viewer}
    case Class2LowRiskChange => {Operator}
    case Class3HighRiskChange => {Operator}
    case Prohibited => {Admin}
  }

  function RoleNames(rs: set<Role>): set<string> { set r | r in rs :: RoleValue(r) }

  /** A principal's roles expanded: unknown names are dropped. */
  function EffectiveRoles(names: set<string>): set<Role> {
    set held, r | held in ALL_ROLES && RoleValue(held) in names && r in Implied(held) :: r
  }

  /** The names a principal holds once its roles are expanded. */
  function Held(names: set<string>): set<string> { RoleNames(EffectiveRoles(names)) }

  const PROHIBITED_CAPABILITIES: set<string> := {
    "arbitrary.shell", "arbitrary.ssh", "arbitrary.cli", "arbitrary.powershell", "arbitrary.sql",
    "arbitrary.winrm", "storage.format", "vm.delete", "container.delete", "audit.disable",
    "logging.disable", "monitoring.disable", "authn.bypass", "authz.bypass", "firewall.unrestricted",
    "routing.unrestricted", "secrets.read", "secrets.export", "model.generated.command"
  }

  const APPROVAL_AUTHORITY: set<string> := {"approver", "admin"}

  const RETRYABLE: set<string> := {"ADAPTER_UNAVAILABLE", "TARGET_UNAVAILABLE"}
}
