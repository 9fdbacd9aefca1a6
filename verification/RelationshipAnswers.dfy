/** What asserting and closing an edge write, column by column. */
module RelationshipAnswers {
  import opened Base
  import opened CmdbVocabulary
  import opened Relationships

  /** Only a connection reads the same from both ends. */
  ghost predicate ReadsBothWays(t: RelType) { t.ConnectedTo? }

  /** The ends an edge is stored with: as presented, or swapped so that a two-way edge starts at the lesser id. */
  ghost function Ends(c: Claim): (AssetId, AssetId) {
    if ReadsBothWays(c.relType) && c.target < c.source then (c.target, c.source) else (c.source, c.target)
  }

  /** A live row of the edge as this source claims it, whatever its qualifier. */
  ghost predicate LiveFor(e: Edge, c: Claim) {
    && e.validTo == None && e.relType == c.relType && e.sourceId == c.sourceId
    && e.source == Ends(c).0 && e.target == Ends(c).1
  }

  /** An absent qualifier and an empty one are the same. */
  ghost predicate SameQualifier(a: Option<string>, b: Option<string>) {
    a == b || ((a == None || a == Some("")) && (b == None || b == Some("")))
  }

  /** The row is the claim's: its type, ends, qualifier and source, the class and status the source's claims start with, from
      now on. */
  ghost predicate RecordsClaim(e: Edge, c: Claim, now: Time) {
    && e.relType == c.relType && e.source == Ends(c).0 && e.target == Ends(c).1
    && (e.symmetric <==> ReadsBothWays(c.relType)) && e.qualifier == c.qualifier
    && e.sourceType == c.sourceType && e.sourceId == c.sourceId && e.confidence == c.confidence
    && StartsAs(c.sourceType, e.statementClass, e.status)
    && e.validFrom == now && e.validTo == None && e.lastSeen == now
  }

  ghost predicate OthersStay(before: seq<Edge>, after: seq<Edge>, except: Option<nat>) {
    |before| <= |after| && forall i :: 0 <= i < |before| && except != Some(i) ==> after[i] == before[i]
  }

  lemma StoredAs(c: Claim)
    ensures Canonical(c) == c.(source := Ends(c).0, target := Ends(c).1)
    ensures MustSwap(c) <==> Ends(c) != (c.source, c.target)
  {
  }

  /** An assertion is refused exactly for an edge from an asset to itself, an asset that is not there, or a pair of asset
      types its type does not join; no constraint ever refuses it. */
  lemma AssertRefusedExactly(s: State, t: Time, c: Claim, now: Time)
    requires Inv(s, t) && t <= now
    ensures AssertEdge(s, c, now) == Refused(SelfEdge) <==> c.source == c.target
    ensures AssertEdge(s, c, now) == Refused(NotFound) <==>
      c.source != c.target && !(c.source in s.assets && c.target in s.assets)
    ensures AssertEdge(s, c, now) == Refused(NotPermitted) <==>
      && c.source != c.target && c.source in s.assets && c.target in s.assets
      && !(s.assets[c.source].assetType in SpecOf(c.relType).sources && s.assets[c.target].assetType in SpecOf(c.relType).targets)
    ensures AssertEdge(s, c, now).Committed? <==>
      && c.source != c.target && c.source in s.assets && c.target in s.assets
      && s.assets[c.source].assetType in SpecOf(c.relType).sources && s.assets[c.target].assetType in SpecOf(c.relType).targets
  {
    AssertNeverTrips(s, t, c, now);
    BothSidesAreConstrained(c.relType);
  }

  lemma BothSidesAreConstrained(t: RelType)
    ensures SpecOf(t).sources != {} && SpecOf(t).targets != {}
  {
    match t
    case HasInterface => assert Device in SpecOf(t).sources && NetworkInterface in SpecOf(t).targets;
    case ConnectedTo => assert Device in SpecOf(t).sources && Device in SpecOf(t).targets;
    case MemberOf => assert Host in SpecOf(t).sources && Vlan in SpecOf(t).targets;
    case RunsOn => assert Vm in SpecOf(t).sources && Host in SpecOf(t).targets;
    case DependsOn => assert Service in SpecOf(t).sources && Service in SpecOf(t).targets;
    case IpAssignedTo => assert IpAddress in SpecOf(t).sources && NetworkInterface in SpecOf(t).targets;
    case UsesStorage => assert Vm in SpecOf(t).sources && StorageDevice in SpecOf(t).targets;
  }

  /** What an accepted assertion leaves: the live row sighted again when it has the same qualifier; otherwise a new row that
      records the claim, after closing the live row with another qualifier if there was one. */
  lemma AssertRecordsTheEdge(s: State, c: Claim, now: Time)
    requires AssertEdge(s, c, now).Committed?
    ensures var r := AssertEdge(s, c, now); var n := r.next;
      && n.assets == s.assets
      && match r.report
         case TouchedEdge(id, swapped) =>
           && (swapped <==> Ends(c) != (c.source, c.target)) && |n.edges| == |s.edges| && OthersStay(s.edges, n.edges, Some(id))
           && id < |s.edges| && LiveFor(s.edges[id], c) && SameQualifier(s.edges[id].qualifier, c.qualifier)
           && n.edges[id] == s.edges[id].(lastSeen := now, confidence := c.confidence)
         case CreatedEdge(id, swapped) =>
           && (swapped <==> Ends(c) != (c.source, c.target)) && id == |s.edges| && |n.edges| == id + 1
           && RecordsClaim(n.edges[id], c, now) && OthersStay(s.edges, n.edges, n.edges[id].supersedes)
           && (match n.edges[id].supersedes
               case None => forall i :: 0 <= i < |s.edges| ==> !LiveFor(s.edges[i], c)
               case Some(previous) =>
                 && previous < id && LiveFor(s.edges[previous], c) && !SameQualifier(s.edges[previous].qualifier, c.qualifier)
                 && n.edges[previous] == s.edges[previous].(validTo := Some(now)))
         case _ => false
  {
    StoredAs(c);
    var stored := Canonical(c);
    var live := LiveEdge(s.edges, stored);
    forall i | 0 <= i < |s.edges| ensures LiveFor(s.edges[i], c) <==> IsLiveClaim(s.edges[i], stored) { }
    forall a, b ensures SameQualifier(a, b) <==> Coalesce(a) == Coalesce(b) { }
  }

  /** Closing an edge: what is not there or already closed is refused, and a live row only ends. */
  lemma RetireAnswersExactly(s: State, t: Time, id: nat, now: Time)
    requires Inv(s, t) && t <= now
    ensures RetireEdge(s, id, now) ==
      if id >= |s.edges| then Refused(NotFound)
      else if s.edges[id].validTo != None then Refused(AlreadyClosed)
      else Committed(s.(edges := s.edges[id := s.edges[id].(validTo := Some(now))]), ClosedEdge(id))
  {
    RetireEdgeNeverTrips(s, t, id, now);
  }
}
