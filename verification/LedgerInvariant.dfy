/**
 What every reachable ledger satisfies, and which steps can never trip a database constraint.
 The main results are SafetyOverRuns and the exact refusal conditions of each step.
 */
module LedgerInvariant {
  import opened Base
  import opened CmdbVocabulary
  import opened Ledger

  // ---- The invariant ----

  /** Rows of a lineage follow one another: each is closed before the next begins. */
  ghost predicate Ordered(facts: seq<Fact>) {
    forall i, j :: 0 <= i < j < |facts| && SameLineage(facts[i], facts[j]) ==>
      facts[i].validTo.Some? && facts[i].validTo.value <= facts[j].validFrom
  }

  ghost predicate TimelyRow(f: Fact, t: Time) {
    f.validFrom <= t && (f.validTo.Some? ==> f.validFrom <= f.validTo.value <= t)
  }

  /** No row mentions an instant the clock has not reached. */
  ghost predicate Timely(facts: seq<Fact>, t: Time) {
    forall i :: 0 <= i < |facts| ==> TimelyRow(facts[i], t)
  }

  /** Row i's pointer names the row of its lineage just before it, which ends where row i begins. */
  ghost predicate LinkedRow(facts: seq<Fact>, i: nat)
    requires i < |facts|
  {
    facts[i].supersedes.Some? ==>
      var p := facts[i].supersedes.value;
      && p < i && SameLineage(facts[p], facts[i]) && facts[p].validTo == Some(facts[i].validFrom)
      && forall k :: p < k < i ==> !SameLineage(facts[k], facts[i])
  }

  ghost predicate Linked(facts: seq<Fact>) {
    && (forall i :: 0 <= i < |facts| ==> LinkedRow(facts, i))
    && (forall i, j :: 0 <= i < j < |facts| && facts[i].supersedes.Some? ==> facts[i].supersedes != facts[j].supersedes)
  }

  ghost predicate IsSuperseded(facts: seq<Fact>, i: nat) {
    exists j :: i < j < |facts| && facts[j].supersedes == Some(i)
  }

  /** A row is closed by its successor or, failing one, by its asset's retirement. */
  ghost predicate ClosedForAReason(s: State) {
    forall i :: 0 <= i < |s.facts| && !Live(s.facts[i]) && !IsSuperseded(s.facts, i) ==>
      s.facts[i].asset in s.assets && s.assets[s.facts[i].asset].retiredAt == s.facts[i].validTo
  }

  /** Provenance is derived: a class follows from its source, and a desired state is entered by hand. */
  ghost predicate DerivedProvenance(facts: seq<Fact>) {
    forall i :: 0 <= i < |facts| ==>
      && facts[i].statementClass == StatementClassFor(facts[i].sourceType)
      && (facts[i].kind.DesiredState? ==> facts[i].sourceType.ManualEntry?)
  }

  ghost predicate Inv(s: State, t: Time) {
    && Constraints(s)
    && Ordered(s.facts)
    && Timely(s.facts, t)
    && Linked(s.facts)
    && ClosedForAReason(s)
    && DerivedProvenance(s.facts)
  }

  // ---- Constraints from the invariant ----

  ghost predicate RowsPass(s: State) {
    forall i :: 0 <= i < |s.facts| ==> RowChecks(s.facts[i]) && KeysHold(s.facts[i], s.assets)
  }

  ghost predicate AssetsPass(s: State) {
    forall a :: a in s.assets ==> (s.assets[a].lifecycle.Retired? <==> s.assets[a].retiredAt.Some?)
  }

  ghost predicate OneAuthority(facts: seq<Fact>) {
    forall i, j :: 0 <= i < j < |facts| && SameClaim(facts[i], facts[j]) ==>
      !(HoldsAuthority(facts[i]) && HoldsAuthority(facts[j]))
  }

  lemma OrderedMeetsConstraints(s: State)
    requires RowsPass(s) && AssetsPass(s) && Ordered(s.facts) && OneAuthority(s.facts)
    ensures Constraints(s)
  {
    forall i, j | 0 <= i < j < |s.facts| ensures PairChecks(s.facts[i], s.facts[j]) {
      assert SameLineage(s.facts[i], s.facts[j]) ==> s.facts[i].validTo.Some?;
    }
  }

  lemma ConstraintsGiveParts(s: State)
    requires Constraints(s)
    ensures RowsPass(s) && AssetsPass(s) && OneAuthority(s.facts)
  {
    forall i, j | 0 <= i < j < |s.facts| && SameClaim(s.facts[i], s.facts[j])
      ensures !(HoldsAuthority(s.facts[i]) && HoldsAuthority(s.facts[j]))
    {
      assert PairChecks(s.facts[i], s.facts[j]);
    }
  }

  lemma SupersededStays(facts: seq<Fact>, after: seq<Fact>, i: nat)
    requires |facts| <= |after| && forall j :: 0 <= j < |facts| ==> after[j].supersedes == facts[j].supersedes
    ensures IsSuperseded(facts, i) ==> IsSuperseded(after, i)
  {
    if IsSuperseded(facts, i) {
      var j :| i < j < |facts| && facts[j].supersedes == Some(i);
      assert after[j].supersedes == Some(i);
    }
  }

  // ---- Relabelling one row: touches and trust transitions ----

  /** Everything but trust, confidence and last_seen_at. */
  ghost predicate SameShape(f: Fact, g: Fact) {
    && SameLineage(f, g) && f.statementClass == g.statementClass && f.sourceType == g.sourceType
    && f.value == g.value && f.supersedes == g.supersedes && f.validFrom == g.validFrom && f.validTo == g.validTo
  }

  lemma RelabelOrder(facts: seq<Fact>, t: Time, i: nat, g: Fact)
    requires Ordered(facts) && Timely(facts, t) && DerivedProvenance(facts) && i < |facts| && SameShape(facts[i], g)
    ensures Ordered(facts[i := g]) && Timely(facts[i := g], t) && DerivedProvenance(facts[i := g])
  {
    var after := facts[i := g];
    assert forall k | 0 <= k < |after| :: SameShape(facts[k], after[k]);
    forall k | 0 <= k < |after| ensures TimelyRow(after[k], t) { assert TimelyRow(facts[k], t); }
  }

  lemma RelabelLinked(facts: seq<Fact>, i: nat, g: Fact)
    requires Linked(facts) && i < |facts| && SameShape(facts[i], g)
    ensures Linked(facts[i := g])
  {
    var after := facts[i := g];
    assert forall k | 0 <= k < |after| :: SameShape(facts[k], after[k]);
    forall k | 0 <= k < |after| ensures LinkedRow(after, k) {
      assert LinkedRow(facts, k);
    }
  }

  lemma RelabelReasons(s: State, i: nat, g: Fact)
    requires ClosedForAReason(s) && i < |s.facts| && SameShape(s.facts[i], g)
    ensures ClosedForAReason(s.(facts := s.facts[i := g]))
  {
    var after := s.facts[i := g];
    assert forall k | 0 <= k < |after| :: SameShape(s.facts[k], after[k]);
    forall k | 0 <= k < |after| && !Live(after[k]) && !IsSuperseded(after, k)
      ensures after[k].asset in s.assets && s.assets[after[k].asset].retiredAt == after[k].validTo
    {
      SupersededStays(s.facts, after, k);
    }
  }

  lemma RelabelKeeps(s: State, t: Time, i: nat, g: Fact)
    requires Inv(s, t) && i < |s.facts| && SameShape(s.facts[i], g)
    ensures Ordered(s.facts[i := g]) && Timely(s.facts[i := g], t) && Linked(s.facts[i := g])
    ensures ClosedForAReason(s.(facts := s.facts[i := g])) && DerivedProvenance(s.facts[i := g])
  {
    RelabelOrder(s.facts, t, i, g);
    RelabelLinked(s.facts, i, g);
    RelabelReasons(s, i, g);
  }

  /** Relabelling one row meets every constraint when the row does and no other live row holds its authority. */
  lemma RelabelMeetsConstraints(s: State, t: Time, i: nat, g: Fact, attestations: seq<Attestation>)
    requires Inv(s, t) && i < |s.facts| && SameShape(s.facts[i], g) && RowChecks(g)
    requires HoldsAuthority(g) ==> HoldsAuthority(s.facts[i]) || !HasRival(s.facts, i)
    ensures Constraints(s.(facts := s.facts[i := g], attestations := attestations))
    ensures Inv(s.(facts := s.facts[i := g], attestations := attestations), t)
  {
    var n := s.(facts := s.facts[i := g], attestations := attestations);
    RelabelKeeps(s, t, i, g);
    ConstraintsGiveParts(s);
    forall a, b | 0 <= a < b < |n.facts| && SameClaim(n.facts[a], n.facts[b])
      ensures !(HoldsAuthority(n.facts[a]) && HoldsAuthority(n.facts[b]))
    {
      assert SameClaim(s.facts[a], s.facts[b]);
    }
    OrderedMeetsConstraints(n);
    assert ClosedForAReason(n);
  }

  // ---- Closing a lineage's live row and appending its successor ----

  /** What LiveClaim found for the lineage of `fact`. */
  ghost predicate FoundLive(facts: seq<Fact>, live: Option<nat>, fact: Fact) {
    && (live.Some? ==> live.value < |facts| && SameLineage(facts[live.value], fact) && Live(facts[live.value]))
    && (live.None? ==> forall i :: 0 <= i < |facts| && SameLineage(facts[i], fact) ==> !Live(facts[i]))
  }

  /** Under the invariant a live row is the last of its lineage and every other one is closed. */
  lemma LiveIsLast(facts: seq<Fact>, live: Option<nat>, fact: Fact)
    requires Ordered(facts) && FoundLive(facts, live, fact)
    ensures forall i :: 0 <= i < |facts| && SameLineage(facts[i], fact) && live != Some(i) ==> !Live(facts[i])
    ensures live.Some? ==> forall i :: live.value < i < |facts| ==> !SameLineage(facts[i], fact)
  {
    if live.Some? {
      forall i | live.value < i < |facts| ensures !SameLineage(facts[i], fact) {
        assert SameLineage(facts[i], fact) ==> SameLineage(facts[live.value], facts[i]);
      }
      forall i | 0 <= i < live.value && SameLineage(facts[i], fact) ensures !Live(facts[i]) {
        assert SameLineage(facts[i], facts[live.value]);
      }
    }
  }

  lemma CloseLiveKeeps(facts: seq<Fact>, live: Option<nat>, fact: Fact, t: Time, now: Time)
    requires Ordered(facts) && Timely(facts, t) && t <= now && FoundLive(facts, live, fact)
    ensures Ordered(CloseLive(facts, live, now)) && Timely(CloseLive(facts, live, now), now)
    ensures forall i :: 0 <= i < |facts| && SameLineage(facts[i], fact) ==> !Live(CloseLive(facts, live, now)[i])
    ensures forall i :: 0 <= i < |facts| && live != Some(i) ==> CloseLive(facts, live, now)[i] == facts[i]
  {
    LiveIsLast(facts, live, fact);
    var closed := CloseLive(facts, live, now);
    forall i, j | 0 <= i < j < |closed| && SameLineage(closed[i], closed[j])
      ensures closed[i].validTo.Some? && closed[i].validTo.value <= closed[j].validFrom
    {
      assert SameLineage(facts[i], facts[j]);
    }
  }

  lemma AppendOrdered(facts: seq<Fact>, live: Option<nat>, fact: Fact, t: Time, now: Time)
    requires Ordered(facts) && Timely(facts, t) && t <= now && FoundLive(facts, live, fact)
    requires fact.validFrom == now && Live(fact)
    ensures Ordered(CloseLive(facts, live, now) + [fact]) && Timely(CloseLive(facts, live, now) + [fact], now)
  {
    CloseLiveKeeps(facts, live, fact, t, now);
    var closed := CloseLive(facts, live, now);
    var after := closed + [fact];
    forall i, j | 0 <= i < j < |after| && SameLineage(after[i], after[j])
      ensures after[i].validTo.Some? && after[i].validTo.value <= after[j].validFrom
    {
      if j == |closed| {
        assert SameLineage(facts[i], fact);
        assert TimelyRow(closed[i], now);
      }
    }
  }

  lemma AppendLinked(facts: seq<Fact>, live: Option<nat>, fact: Fact, t: Time, now: Time)
    requires Ordered(facts) && Timely(facts, t) && t <= now && Linked(facts) && FoundLive(facts, live, fact)
    requires fact.validFrom == now && Live(fact) && fact.supersedes == live
    ensures Linked(CloseLive(facts, live, now) + [fact])
  {
    LiveIsLast(facts, live, fact);
    var after := CloseLive(facts, live, now) + [fact];
    forall i | 0 <= i < |facts| ensures facts[i].supersedes.Some? ==> facts[i].supersedes != live {
      assert LinkedRow(facts, i);
    }
    forall i | 0 <= i < |after| ensures LinkedRow(after, i) {
      if i < |facts| { assert LinkedRow(facts, i); }
    }
    forall i, j | 0 <= i < j < |after| && after[i].supersedes.Some?
      ensures after[i].supersedes != after[j].supersedes
    {
      if j < |facts| { assert facts[i].supersedes != facts[j].supersedes; }
    }
  }

  lemma AppendClosedForAReason(s: State, n: State, live: Option<nat>, fact: Fact, now: Time)
    requires ClosedForAReason(s) && FoundLive(s.facts, live, fact) && fact.supersedes == live && Live(fact)
    requires n.facts == CloseLive(s.facts, live, now) + [fact]
    requires forall a :: a in s.assets ==> a in n.assets && n.assets[a].retiredAt == s.assets[a].retiredAt
    ensures ClosedForAReason(n)
  {
    var last := |s.facts|;
    forall i | 0 <= i < |n.facts| && !Live(n.facts[i]) && !IsSuperseded(n.facts, i)
      ensures n.facts[i].asset in n.assets && n.assets[n.facts[i].asset].retiredAt == n.facts[i].validTo
    {
      assert n.facts[last].supersedes == live;
      assert live != Some(i);
      assert n.facts[i] == s.facts[i];
      SupersededStays(s.facts, n.facts, i);
    }
  }

  /** Another live claim of a different source holds authority where `fact` would. */
  ghost predicate AuthorityTaken(facts: seq<Fact>, fact: Fact) {
    exists i :: 0 <= i < |facts| && SameClaim(facts[i], fact) && facts[i].sourceId != fact.sourceId && HoldsAuthority(facts[i])
  }

  /** The state between the two flushes meets every constraint. */
  lemma ClosedMeetsConstraints(s: State, t: Time, live: Option<nat>, fact: Fact, now: Time)
    requires Inv(s, t) && t <= now && FoundLive(s.facts, live, fact)
    ensures Constraints(s.(facts := CloseLive(s.facts, live, now)))
  {
    var n := s.(facts := CloseLive(s.facts, live, now));
    CloseLiveKeeps(s.facts, live, fact, t, now);
    ConstraintsGiveParts(s);
    forall i, j | 0 <= i < j < |n.facts| && SameClaim(n.facts[i], n.facts[j])
      ensures !(HoldsAuthority(n.facts[i]) && HoldsAuthority(n.facts[j]))
    {
      assert SameClaim(s.facts[i], s.facts[j]);
    }
    OrderedMeetsConstraints(n);
  }

  /** What the constraints ask of a lineage's new row: its CHECKs, its foreign keys, and that no other source's claim holds
      the authority it brings. */
  ghost predicate Acceptable(s: State, fact: Fact) {
    && RowChecks(fact) && RefersTo(fact.value, s.assets)
    && !(IsAuthoritative(fact.status) && AuthorityTaken(s.facts, fact))
  }

  ghost predicate Successor(s: State, n: State, live: Option<nat>, fact: Fact, now: Time) {
    && FoundLive(s.facts, live, fact)
    && fact.validFrom == now && Live(fact) && fact.supersedes == live && fact.asset in n.assets
    && n.facts == CloseLive(s.facts, live, now) + [fact]
    && AssetsPass(n) && n.assets.Keys == s.assets.Keys
  }

  lemma AppendTrips(s: State, n: State, live: Option<nat>, fact: Fact, now: Time)
    requires Successor(s, n, live, fact, now)
    requires !Acceptable(s, fact)
    ensures !Constraints(n)
  {
    var last := |s.facts|;
    if !RowChecks(fact) || !RefersTo(fact.value, s.assets) {
      assert n.facts[last] == fact;
    } else {
      var i :| 0 <= i < |s.facts| && SameClaim(s.facts[i], fact) && s.facts[i].sourceId != fact.sourceId
               && HoldsAuthority(s.facts[i]);
      assert n.facts[i] == s.facts[i];
      assert !PairChecks(n.facts[i], n.facts[last]);
    }
  }

  lemma OneAuthorityStays(s: State, n: State, live: Option<nat>, fact: Fact, now: Time)
    requires Successor(s, n, live, fact, now) && OneAuthority(s.facts)
    requires forall i :: 0 <= i < |s.facts| && SameLineage(s.facts[i], fact) ==> !Live(CloseLive(s.facts, live, now)[i])
    requires !(IsAuthoritative(fact.status) && AuthorityTaken(s.facts, fact))
    ensures OneAuthority(n.facts)
  {
    var last := |s.facts|;
    forall i, j | 0 <= i < j < |n.facts| && SameClaim(n.facts[i], n.facts[j])
      ensures !(HoldsAuthority(n.facts[i]) && HoldsAuthority(n.facts[j]))
    {
      assert SameClaim(s.facts[i], if j == last then fact else s.facts[j]);
      assert j == last && SameLineage(s.facts[i], fact) ==> !Live(n.facts[i]);
    }
  }

  lemma AppendPasses(s: State, t: Time, n: State, live: Option<nat>, fact: Fact, now: Time)
    requires Inv(s, t) && t <= now && Successor(s, n, live, fact, now)
    requires Acceptable(s, fact)
    ensures Constraints(n)
  {
    AppendOrdered(s.facts, live, fact, t, now);
    CloseLiveKeeps(s.facts, live, fact, t, now);
    ConstraintsGiveParts(s);
    OneAuthorityStays(s, n, live, fact, now);
    assert RowsPass(n);
    OrderedMeetsConstraints(n);
  }

  /** The successor's insert meets every constraint exactly when the row is acceptable. */
  lemma AppendMeetsConstraints(s: State, t: Time, n: State, live: Option<nat>, fact: Fact, now: Time)
    requires Inv(s, t) && t <= now && Successor(s, n, live, fact, now)
    ensures Constraints(n) <==> Acceptable(s, fact)
  {
    if Acceptable(s, fact) {
      AppendPasses(s, t, n, live, fact, now);
    } else {
      AppendTrips(s, n, live, fact, now);
    }
  }

  // ---- The steps, one by one: when the database refuses, and what a commit keeps ----

  lemma InvLater(s: State, t: Time, now: Time)
    requires Inv(s, t) && t <= now
    ensures Inv(s, now)
  {
    forall i | 0 <= i < |s.facts| ensures TimelyRow(s.facts[i], now) {
      assert TimelyRow(s.facts[i], t);
    }
  }

  lemma LiveClaimFinds(facts: seq<Fact>, fact: Fact)
    ensures FoundLive(facts, LiveClaim(facts, fact.asset, fact.predicateName, fact.kind, fact.sourceId), fact)
  {
    var live := LiveClaim(facts, fact.asset, fact.predicateName, fact.kind, fact.sourceId);
    if live.None? {
      forall i | 0 <= i < |facts| && SameLineage(facts[i], fact) ensures !Live(facts[i]) {
        assert !IsLiveClaim(facts[i], fact.asset, fact.predicateName, fact.kind, fact.sourceId);
      }
    }
  }

  /** Appending a successor keeps the invariant once it meets the constraints. */
  lemma AppendKeepsInv(s: State, t: Time, n: State, live: Option<nat>, fact: Fact, now: Time)
    requires Inv(s, t) && t <= now && FoundLive(s.facts, live, fact)
    requires fact.validFrom == now && Live(fact) && fact.supersedes == live
    requires n.facts == CloseLive(s.facts, live, now) + [fact] && Constraints(n)
    requires forall a :: a in s.assets ==> a in n.assets && n.assets[a].retiredAt == s.assets[a].retiredAt
    requires fact.statementClass == StatementClassFor(fact.sourceType)
    requires fact.kind.DesiredState? ==> fact.sourceType.ManualEntry?
    ensures Inv(n, now)
  {
    AppendOrdered(s.facts, live, fact, t, now);
    AppendLinked(s.facts, live, fact, t, now);
    AppendClosedForAReason(s, n, live, fact, now);
  }

  /** Both flushes of a successor: the first is never refused, the second exactly when the row is not
      acceptable, and what is committed keeps the invariant. */
  lemma SuccessorDecides(s: State, t: Time, n: State, live: Option<nat>, fact: Fact, now: Time)
    requires Inv(s, t) && t <= now && Successor(s, n, live, fact, now)
    requires forall a :: a in s.assets ==> a in n.assets && n.assets[a].retiredAt == s.assets[a].retiredAt
    requires fact.statementClass == StatementClassFor(fact.sourceType)
    requires fact.kind.DesiredState? ==> fact.sourceType.ManualEntry?
    ensures Constraints(s.(facts := CloseLive(s.facts, live, now)))
    ensures Constraints(n) <==> Acceptable(s, fact)
    ensures Constraints(n) ==> Inv(n, now)
  {
    ClosedMeetsConstraints(s, t, live, fact, now);
    AppendMeetsConstraints(s, t, n, live, fact, now);
    if Constraints(n) { AppendKeepsInv(s, t, n, live, fact, now); }
  }

  lemma SeenAssetsPass(s: State, n: State, asset: AssetId, now: Time)
    requires Constraints(s) && asset in s.assets && n.assets == s.assets[asset := s.assets[asset].(lastSeen := now)]
    ensures AssetsPass(n)
    ensures forall a :: a in s.assets ==> a in n.assets && n.assets[a].retiredAt == s.assets[a].retiredAt
  {
    ConstraintsGiveParts(s);
  }

  lemma AssertTouches(same: Equality, s: State, t: Time, asset: AssetId, c: Claim, value: Value, now: Time, live: nat)
    requires Inv(s, t) && t <= now && asset in s.assets
    requires LiveClaim(s.facts, asset, c.predicateName, c.kind, c.sourceId) == Some(live)
    requires SameValue(same, s.facts[live].value, value)
    ensures var r := AssertFact(same, s, asset, c, Some(value), now); r.Committed? && Inv(r.next, now)
  {
    InvLater(s, t, now);
    var f := s.facts[live];
    RelabelMeetsConstraints(s, now, live, f.(lastSeen := now, confidence := c.confidence), s.attestations);
  }

  /** The claim repeats what the lineage's live row says. */
  ghost predicate Repeats(same: Equality, s: State, asset: AssetId, c: Claim, value: Value) {
    var live := LiveClaim(s.facts, asset, c.predicateName, c.kind, c.sourceId);
    live.Some? && SameValue(same, s.facts[live.value].value, value)
  }

  /** A live row names an asset that exists, so a claim that repeats it does too. */
  lemma RepeatsReferTo(same: Equality, s: State, asset: AssetId, c: Claim, value: Value)
    requires Constraints(s) && Repeats(same, s, asset, c, value)
    ensures RefersTo(value, s.assets)
  {
    var live := LiveClaim(s.facts, asset, c.predicateName, c.kind, c.sourceId);
    assert KeysHold(s.facts[live.value], s.assets);
  }

  /** A new value is accepted exactly for an observation whose reference, if it is one, names an asset. */
  lemma NewValueDecides(same: Equality, s: State, t: Time, asset: AssetId, c: Claim, value: Value, now: Time)
    requires Inv(s, t) && t <= now && asset in s.assets && !Repeats(same, s, asset, c, value)
    ensures var r := AssertFact(same, s, asset, c, Some(value), now);
      if c.kind.ObservedState? && RefersTo(value, s.assets) then r.Committed? && Inv(r.next, now)
      else r == Refused(IntegrityError)
  {
    var live := LiveClaim(s.facts, asset, c.predicateName, c.kind, c.sourceId);
    var fact := NewClaim(asset, c, value, live, now);
    var n := State(s.assets[asset := s.assets[asset].(lastSeen := now)], CloseLive(s.facts, live, now) + [fact], s.attestations);
    assert !IsAuthoritative(fact.status);
    if c.kind.ObservedState? {
      LiveClaimFinds(s.facts, fact);
      SeenAssetsPass(s, n, asset, now);
      SuccessorDecides(s, t, n, live, fact, now);
    } else {
      assert n.facts[|s.facts|] == fact && !RowChecks(fact);
    }
  }

  /** An assert of a new value is refused by a constraint exactly when it would open a desired state, which no assert may,
      or when its value refers to an asset that does not exist. */
  lemma AssertExactly(same: Equality, s: State, t: Time, asset: AssetId, c: Claim, screened: Option<Value>, now: Time)
    requires Inv(s, t) && t <= now
    ensures AssertFact(same, s, asset, c, screened, now) == Refused(IntegrityError) <==>
      && asset in s.assets && screened.Some?
      && (!RefersTo(screened.value, s.assets) || (c.kind.DesiredState? && !Repeats(same, s, asset, c, screened.value)))
    ensures var r := AssertFact(same, s, asset, c, screened, now); r.Committed? ==> Inv(r.next, now)
  {
    if asset in s.assets && screened.Some? {
      if Repeats(same, s, asset, c, screened.value) {
        RepeatsReferTo(same, s, asset, c, screened.value);
        AssertTouches(same, s, t, asset, c, screened.value, now,
                      LiveClaim(s.facts, asset, c.predicateName, c.kind, c.sourceId).value);
      } else {
        NewValueDecides(same, s, t, asset, c, screened.value, now);
      }
    }
  }

  /** Another principal's desired state for the predicate is live. */
  ghost predicate AnotherDesires(facts: seq<Fact>, asset: AssetId, predicateName: string, subject: string) {
    exists i :: 0 <= i < |facts| && Live(facts[i]) && facts[i].asset == asset
      && facts[i].predicateName == predicateName && facts[i].kind.DesiredState? && facts[i].sourceId != subject
  }

  /** Declaring a desired state is refused by a constraint exactly when another principal's is live or its value refers to
      an asset that does not exist. */
  lemma CreateDesiredExactly(s: State, t: Time, asset: AssetId, predicateName: string, screened: Option<Value>,
                             unit: Option<string>, subject: string, now: Time)
    requires Inv(s, t) && t <= now
    ensures CreateDesired(s, asset, predicateName, screened, unit, subject, now) == Refused(IntegrityError) <==>
      && asset in s.assets && screened.Some?
      && (AnotherDesires(s.facts, asset, predicateName, subject) || !RefersTo(screened.value, s.assets))
    ensures var r := CreateDesired(s, asset, predicateName, screened, unit, subject, now);
      r.Committed? ==> Inv(r.next, now)
  {
    if asset in s.assets && screened.Some? {
      var live := LiveClaim(s.facts, asset, predicateName, DesiredState, subject);
      var fact := NewDesired(asset, predicateName, screened.value, unit, subject, live, now);
      LiveClaimFinds(s.facts, fact);
      ConstraintsGiveParts(s);
      var n := State(s.assets, CloseLive(s.facts, live, now) + [fact],
                     s.attestations + [Attestation(|s.facts|, Approve, Unverified, Approved, subject, now)]);
      SuccessorDecides(s, t, n, live, fact, now);
      assert forall i | 0 <= i < |s.facts| :: RowChecks(s.facts[i]);
    }
  }

  /** The service takes a reference to anything: only the foreign key refuses one that names no asset, whether it is
      observed or desired. */
  lemma DanglingReferenceIsRefused(same: Equality, a: AssetId, b: AssetId, c: Claim, unit: Option<string>,
                                   subject: string, now: Time)
    requires a != b
    ensures var s := Run(same, EMPTY, [DoRegister(a, Active, now)]);
      && a in s.assets
      && AssertFact(same, s, a, c, Some(AssetRefValue(b)), now) == Refused(IntegrityError)
      && CreateDesired(s, a, c.predicateName, Some(AssetRefValue(b)), unit, subject, now) == Refused(IntegrityError)
  {
    var ops := [DoRegister(a, Active, now)];
    assert ops[..0] == [];
    SafetyOverRuns(same, ops, now);
    var s := Run(same, EMPTY, ops);
    assert s == Step(same, EMPTY, ops[0]);
    assert s.assets.Keys == {a};
    AssertExactly(same, s, now, a, c, Some(AssetRefValue(b)), now);
    CreateDesiredExactly(s, now, a, c.predicateName, Some(AssetRefValue(b)), unit, subject, now);
  }

  /** A trust transition is refused by a constraint exactly when it would take a live desired state off APPROVED. */
  lemma TransitionExactly(s: State, t: Time, id: nat, action: Action, subject: string, now: Time)
    requires Inv(s, t) && t <= now
    ensures Transition(s, id, action, subject, now) == Refused(IntegrityError) <==>
      id < |s.facts| && Live(s.facts[id]) && s.facts[id].kind.DesiredState? && !action.Approve?
    ensures Transition(s, id, action, subject, now).Committed? ==> Inv(Transition(s, id, action, subject, now).next, now)
  {
    if id < |s.facts| && Live(s.facts[id]) {
      var f := s.facts[id];
      assert RowChecks(f);
      ConstraintsGiveParts(s);
      if f.kind.DesiredState? { DesiredHasNoRival(s, t, id); }
      var g := Attribute(f, action, subject, now);
      var log := s.attestations + [Attestation(id, action, f.status, g.status, subject, now)];
      InvLater(s, t, now);
      if RowChecks(g) && (action.Revoke? || !HasRival(s.facts, id)) {
        RelabelMeetsConstraints(s, now, id, g, log);
      } else if !RowChecks(g) {
        assert s.(facts := s.facts[id := g], attestations := log).facts[id] == g;
      }
    }
  }

  lemma DesiredHasNoRival(s: State, t: Time, id: nat)
    requires Inv(s, t) && id < |s.facts| && Live(s.facts[id]) && s.facts[id].kind.DesiredState?
    ensures !HasRival(s.facts, id)
  {
    ConstraintsGiveParts(s);
    assert HoldsAuthority(s.facts[id]);
    forall j | 0 <= j < |s.facts| && j != id && SameClaim(s.facts[j], s.facts[id]) ensures !HoldsAuthority(s.facts[j]) {
      if j < id { assert SameClaim(s.facts[j], s.facts[id]); } else { assert SameClaim(s.facts[id], s.facts[j]); }
    }
  }

  /** Retiring an asset is never refused by a constraint. */
  lemma RetireExactly(s: State, t: Time, asset: AssetId, now: Time)
    requires Inv(s, t) && t <= now
    ensures RetireAsset(s, asset, now) != Refused(IntegrityError)
    ensures RetireAsset(s, asset, now).Committed? ==> Inv(RetireAsset(s, asset, now).next, now)
  {
    if asset in s.assets && !s.assets[asset].lifecycle.Retired? && !s.assets[asset].lifecycle.Merged? {
      var n := State(s.assets[asset := s.assets[asset].(lifecycle := Retired, retiredAt := Some(now))],
                     RetireRows(s.facts, asset, now), s.attestations);
      ConstraintsGiveParts(s);
      assert s.assets[asset].retiredAt.None?;
      RetireRowsPass(s, t, n, asset, now);
      RetireRowsOrder(s, t, n, asset, now);
      RetireRowsChain(s.facts, asset, now);
      RetireRowsReasons(s, t, n, asset, now);
      OrderedMeetsConstraints(n);
    }
  }

  ghost predicate RetiredFrom(s: State, n: State, asset: AssetId, now: Time) {
    && asset in s.assets && s.assets[asset].retiredAt.None?
    && n.facts == RetireRows(s.facts, asset, now)
    && n.assets == s.assets[asset := s.assets[asset].(lifecycle := Retired, retiredAt := Some(now))]
  }

  lemma RetireRowsPass(s: State, t: Time, n: State, asset: AssetId, now: Time)
    requires Inv(s, t) && t <= now && RetiredFrom(s, n, asset, now)
    ensures RowsPass(n) && AssetsPass(n) && OneAuthority(n.facts) && Timely(n.facts, now) && DerivedProvenance(n.facts)
  {
    ConstraintsGiveParts(s);
    forall i | 0 <= i < |n.facts| ensures RowChecks(n.facts[i]) && TimelyRow(n.facts[i], now) && KeysHold(n.facts[i], n.assets) {
      assert RowChecks(s.facts[i]) && TimelyRow(s.facts[i], t) && KeysHold(s.facts[i], s.assets);
    }
    forall i, j | 0 <= i < j < |n.facts| && SameClaim(n.facts[i], n.facts[j])
      ensures !(HoldsAuthority(n.facts[i]) && HoldsAuthority(n.facts[j]))
    {
      assert SameClaim(s.facts[i], s.facts[j]);
    }
  }

  lemma RetireRowsOrder(s: State, t: Time, n: State, asset: AssetId, now: Time)
    requires Inv(s, t) && t <= now && RetiredFrom(s, n, asset, now)
    ensures Ordered(n.facts)
  {
    forall i, j | 0 <= i < j < |n.facts| && SameLineage(n.facts[i], n.facts[j])
      ensures n.facts[i].validTo.Some? && n.facts[i].validTo.value <= n.facts[j].validFrom
    {
      assert SameLineage(s.facts[i], s.facts[j]);
    }
  }

  lemma RetireRowsChain(facts: seq<Fact>, asset: AssetId, now: Time)
    requires Linked(facts) && Ordered(facts)
    ensures Linked(RetireRows(facts, asset, now))
  {
    var retired := RetireRows(facts, asset, now);
    forall i | 0 <= i < |retired| ensures LinkedRow(retired, i) {
      assert LinkedRow(facts, i);
      assert forall k | 0 <= k < i :: SameLineage(retired[k], retired[i]) <==> SameLineage(facts[k], facts[i]);
    }
  }

  lemma RetireRowsReasons(s: State, t: Time, n: State, asset: AssetId, now: Time)
    requires Inv(s, t) && RetiredFrom(s, n, asset, now)
    ensures ClosedForAReason(n)
  {
    forall i | 0 <= i < |n.facts| && !Live(n.facts[i]) && !IsSuperseded(n.facts, i)
      ensures n.facts[i].asset in n.assets && n.assets[n.facts[i].asset].retiredAt == n.facts[i].validTo
    {
      SupersededStays(s.facts, n.facts, i);
    }
  }

  lemma AssetStepsKeep(s: State, t: Time, asset: AssetId, lifecycle: OpenState, now: Time)
    requires Inv(s, t) && t <= now
    ensures UpdateLifecycle(s, asset, lifecycle) != Refused(IntegrityError)
    ensures UpdateLifecycle(s, asset, lifecycle).Committed? ==> Inv(UpdateLifecycle(s, asset, lifecycle).next, now)
    ensures RegisterAsset(s, asset, lifecycle, now) == Refused(IntegrityError) <==> asset in s.assets
    ensures RegisterAsset(s, asset, lifecycle, now).Committed? ==> Inv(RegisterAsset(s, asset, lifecycle, now).next, now)
  {
    InvLater(s, t, now);
    ConstraintsGiveParts(s);
    if asset in s.assets {
      if !s.assets[asset].lifecycle.Retired? {
        OrderedMeetsConstraints(s.(assets := s.assets[asset := s.assets[asset].(lifecycle := lifecycle)]));
      }
    } else {
      OrderedMeetsConstraints(s.(assets := s.assets[asset := Asset(lifecycle, now, None)]));
    }
  }

  // ---- Runs ----

  /** Steps no database constraint may refuse: asserting an observation, of another asset only if it exists, trusting or
      distrusting one, retiring. */
  ghost predicate NeverTrips(s: State, op: Op) {
    match op
    case DoAssert(_, c, screened, _) => c.kind.ObservedState? && (screened.Some? ==> RefersTo(screened.value, s.assets))
    case DoTransition(id, action, _, _) => id < |s.facts| ==> s.facts[id].kind.ObservedState? || action.Approve?
    case DoRetire(_, _) => true
    case DoUpdate(_, _, _) => true
    case _ => false
  }

  lemma StepKeeps(same: Equality, s: State, t: Time, op: Op)
    requires Inv(s, t) && t <= op.now
    ensures Inv(Step(same, s, op), op.now)
    ensures NeverTrips(s, op) ==> Apply(same, s, op) != Refused(IntegrityError)
  {
    InvLater(s, t, op.now);
    match op
    case DoAssert(asset, c, screened, now) => AssertExactly(same, s, t, asset, c, screened, now);
    case DoDesire(asset, p, screened, unit, subject, now) => CreateDesiredExactly(s, t, asset, p, screened, unit, subject, now);
    case DoTransition(id, action, subject, now) => TransitionExactly(s, t, id, action, subject, now);
    case DoRetire(asset, now) => RetireExactly(s, t, asset, now);
    case DoUpdate(asset, lifecycle, now) => AssetStepsKeep(s, t, asset, lifecycle, now);
    case DoRegister(asset, lifecycle, now) => AssetStepsKeep(s, t, asset, lifecycle, now);
  }

  /** Whatever the interleaving, every state a run passes through satisfies the invariant, and no step of the
      never-tripping kind is refused by a database constraint. */
  lemma {:induction false} SafetyOverRuns(same: Equality, ops: seq<Op>, t: Time)
    requires Monotone(ops) && forall i :: 0 <= i < |ops| ==> ops[i].now <= t
    ensures Inv(Run(same, EMPTY, ops), t)
    ensures forall k :: 0 <= k < |ops| && NeverTrips(Run(same, EMPTY, ops[..k]), ops[k]) ==>
      Apply(same, Run(same, EMPTY, ops[..k]), ops[k]) != Refused(IntegrityError)
  {
    if ops != [] {
      var last := |ops| - 1;
      var front := ops[..last];
      SafetyOverRuns(same, front, ops[last].now);
      StepKeeps(same, Run(same, EMPTY, front), ops[last].now, ops[last]);
      InvLater(Run(same, EMPTY, ops), ops[last].now, t);
      forall k | 0 <= k < |ops| && NeverTrips(Run(same, EMPTY, ops[..k]), ops[k])
        ensures Apply(same, Run(same, EMPTY, ops[..k]), ops[k]) != Refused(IntegrityError)
      {
        if k < last {
          assert front[..k] == ops[..k] && front[k] == ops[k];
        }
      }
    }
  }
}
