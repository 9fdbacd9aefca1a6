/** CMDB vocabulary and the trust rules facts and relationships share. */
module CmdbVocabulary {
  datatype SourceType = LiveDiscovery | ConfigFile | Prometheus | ManualEntry | Documentation | AiInference | Import

  datatype StatementClass = FactStatement | Observation | Inference | Recommendation

  datatype Status = Discovered | Observed | Verified | Approved | Stale | Conflicting | Unverified

  datatype FactKind = ObservedState | DesiredState

  datatype Action = Verify | Approve | Revoke

  datatype LifecycleState = Planned | Active | Inactive | Retired | Merged

  /** The lifecycle states the wire schema lets a caller write. */
  type OpenState = l: LifecycleState | !l.Retired? && !l.Merged? witness Active

  /** Confidence as the wire schema admits it. */
  type Confidence = c: real | 0.0 <= c <= 1.0

  function StatementClassFor(source: SourceType): StatementClass {
    match source
    case LiveDiscovery => Observation
    case ConfigFile => Observation
    case Prometheus => Observation
    case ManualEntry => FactStatement
    case Documentation => FactStatement
    case Import => FactStatement
    case AiInference => Inference
  }

  function DefaultStatusFor(source: SourceType): Status {
    match source
    case LiveDiscovery => Discovered
    case ConfigFile => Discovered
    case Prometheus => Observed
    case ManualEntry => Unverified
    case Documentation => Unverified
    case Import => Unverified
    case AiInference => Unverified
  }

  /** The class and the status claims of a source start with: what is discovered live, read from configuration or measured is
      observed, what people enter, document or import is stated, and what a model says is inferred; only the first three
      start out as more than unverified. */
  ghost predicate StartsAs(source: SourceType, c: StatementClass, status: Status) {
    var discovers := source.LiveDiscovery? || source.ConfigFile?;
    && (c.Observation? <==> discovers || source.Prometheus?)
    && (c.Inference? <==> source.AiInference?)
    && (c.FactStatement? <==> source.ManualEntry? || source.Documentation? || source.Import?)
    && (status.Discovered? <==> discovers)
    && (status.Observed? <==> source.Prometheus?)
    && (status.Unverified? <==> !discovers && !source.Prometheus?)
  }

  predicate IsAuthoritative(s: Status) { s.Verified? || s.Approved? }

  predicate MayBecomeAuthoritative(c: StatementClass, source: SourceType) {
    !c.Inference? && !source.AiInference?
  }
}
