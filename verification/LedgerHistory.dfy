/**
 What the history of a lineage looks like: no instant with two claims, no gap before retirement, one row a run of equal
 values.
 */
module LedgerHistory {
  import opened Base
  import opened CmdbVocabulary
  import opened Ledger
  import opened LedgerInvariant

  // ---- Coverage in time ----

  /** From a row's beginning on, a row of its lineage covers every instant before its asset's retirement:
      supersession leaves no gap, and only retirement can open one. */
  lemma {:induction false} NoGapBeforeRetirement(s: State, t: Time, i: nat, at: Time) returns (k: nat)
    requires Inv(s, t) && i < |s.facts| && s.facts[i].validFrom <= at
    requires var r := s.assets[s.facts[i].asset].retiredAt; r.None? || at < r.value
    ensures k < |s.facts| && SameLineage(s.facts[i], s.facts[k]) && Covers(s.facts[k], at)
    decreases |s.facts| - i
  {
    if EndsAfter(s.facts[i], at) {
      k := i;
    } else {
      assert IsSuperseded(s.facts, i);
      var j :| i < j < |s.facts| && s.facts[j].supersedes == Some(i);
      assert LinkedRow(s.facts, j);
      k := NoGapBeforeRetirement(s, t, j, at);
    }
  }

  /** Hence exactly one row of the lineage holds at each such instant. */
  lemma ExactlyOneClaim(s: State, t: Time, i: nat, at: Time) returns (k: nat)
    requires Inv(s, t) && i < |s.facts| && s.facts[i].validFrom <= at
    requires var r := s.assets[s.facts[i].asset].retiredAt; r.None? || at < r.value
    ensures k < |s.facts| && SameLineage(s.facts[i], s.facts[k]) && Covers(s.facts[k], at)
    ensures forall j :: 0 <= j < |s.facts| && SameLineage(s.facts[i], s.facts[j]) && Covers(s.facts[j], at) ==> j == k
  {
    k := NoGapBeforeRetirement(s, t, i, at);
    forall j | 0 <= j < |s.facts| && SameLineage(s.facts[i], s.facts[j]) && Covers(s.facts[j], at) ensures j == k {
      OneCovers(s, t, j, k, at);
    }
  }

  /** What a pointer says: the row it names is an earlier one of the same lineage, closed where this one begins, with none
      of the lineage between, and no other row names it. */
  lemma PointerMeaning(s: State, t: Time, i: nat, p: nat)
    requires Inv(s, t) && i < |s.facts| && s.facts[i].supersedes == Some(p)
    ensures p < i && SameLineage(s.facts[p], s.facts[i]) && s.facts[p].validTo == Some(s.facts[i].validFrom)
    ensures forall k :: p < k < i ==> !SameLineage(s.facts[k], s.facts[i])
    ensures forall j :: 0 <= j < |s.facts| && s.facts[j].supersedes == Some(p) ==> j == i
  {
    assert LinkedRow(s.facts, i);
    forall j | 0 <= j < |s.facts| && s.facts[j].supersedes == Some(p) ensures j == i {
      assert LinkedRow(s.facts, j);
    }
  }

  /** The chain of rows a row descends from, oldest first: following the pointers that go back, as all do under the
      invariant. */
  function Chain(facts: seq<Fact>, i: nat): (c: seq<nat>)
    requires i < |facts|
    ensures c != [] && c[|c| - 1] == i
    ensures forall k :: 0 <= k < |c| ==> c[k] <= i
    ensures forall k :: 0 < k < |c| ==> facts[c[k]].supersedes == Some(c[k - 1])
    decreases i
  {
    var p := facts[i].supersedes;
    if p.Some? && p.value < i then Chain(facts, p.value) + [i] else [i]
  }

  /** A chain is of one lineage and starts with a row that superseded none. */
  lemma {:induction false} ChainIsOneLineage(s: State, t: Time, i: nat)
    requires Inv(s, t) && i < |s.facts|
    ensures forall x :: x in Chain(s.facts, i) ==> SameLineage(s.facts[x], s.facts[i])
    ensures s.facts[Chain(s.facts, i)[0]].supersedes.None?
    decreases i
  {
    assert LinkedRow(s.facts, i);
    if s.facts[i].supersedes.Some? { ChainIsOneLineage(s, t, s.facts[i].supersedes.value); }
  }

  /** Each of a chain's rows begins where the one before ended: they tile the time from the chain's first row to the
      row's end, one for each instant. */
  lemma {:induction false} ChainTilesTime(s: State, t: Time, i: nat, at: Time) returns (k: nat)
    requires Inv(s, t) && i < |s.facts|
    requires s.facts[Chain(s.facts, i)[0]].validFrom <= at && EndsAfter(s.facts[i], at)
    ensures k in Chain(s.facts, i) && Covers(s.facts[k], at)
    ensures forall x :: x in Chain(s.facts, i) && Covers(s.facts[x], at) ==> x == k
    decreases i
  {
    if s.facts[i].validFrom <= at {
      k := i;
    } else {
      var p := s.facts[i].supersedes.value;
      assert LinkedRow(s.facts, i);
      assert Chain(s.facts, i) == Chain(s.facts, p) + [i];
      k := ChainTilesTime(s, t, p, at);
    }
    ChainIsOneLineage(s, t, i);
    forall x | x in Chain(s.facts, i) && Covers(s.facts[x], at) ensures x == k { OneCovers(s, t, x, k, at); }
  }

  lemma OneCovers(s: State, t: Time, j: nat, k: nat, at: Time)
    requires Inv(s, t) && j < |s.facts| && k < |s.facts| && SameLineage(s.facts[j], s.facts[k])
    requires Covers(s.facts[j], at) && Covers(s.facts[k], at)
    ensures j == k
  {
    assert SameLineage(s.facts[k], s.facts[j]);
  }

  /** In a chain, each row but the last is superseded by a row of the chain. */
  lemma SuccessorInChain(facts: seq<Fact>, x: nat, i: nat) returns (z: nat)
    requires i < |facts|
    requires x in Chain(facts, i) && x != i
    ensures z < |facts| && z in Chain(facts, i) && facts[z].supersedes == Some(x)
  {
    var c := Chain(facts, i);
    var n :| 0 <= n < |c| && c[n] == x;
    z := c[n + 1];
  }

  /** Chains never merge or fork: two that share a row are one inside the other. */
  lemma {:induction false} ChainsAreLines(s: State, t: Time, i: nat, j: nat, shared: nat)
    requires Inv(s, t) && i < |s.facts| && j < |s.facts|
    requires shared in Chain(s.facts, i) && shared in Chain(s.facts, j)
    ensures i in Chain(s.facts, j) || j in Chain(s.facts, i)
    decreases i + j
  {
    if shared != i && shared != j {
      var p, q := s.facts[i].supersedes.value, s.facts[j].supersedes.value;
      ChainsAreLines(s, t, p, q, shared);
      if p in Chain(s.facts, q) {
        SupersededOnce(s, t, p, q, i, j);
      } else {
        SupersededOnce(s, t, q, p, j, i);
      }
    }
  }

  /** A row is superseded at most once, so a chain through p that goes further goes through p's one successor. */
  lemma SupersededOnce(s: State, t: Time, p: nat, q: nat, i: nat, j: nat)
    requires Inv(s, t) && i < |s.facts| && j < |s.facts| && p < |s.facts| && q < |s.facts|
    requires s.facts[i].supersedes == Some(p) && s.facts[j].supersedes == Some(q) && p in Chain(s.facts, q)
    ensures i in Chain(s.facts, j)
  {
    assert LinkedRow(s.facts, j);
    var z := j;
    if p != q { z := SuccessorInChain(s.facts, p, q); }
  }

  ghost predicate TilesTime(facts: seq<Fact>, i: nat, at: Time)
    requires i < |facts|
  {
    facts[Chain(facts, i)[0]].validFrom <= at && EndsAfter(facts[i], at) ==>
      exists k :: k in Chain(facts, i) && Covers(facts[k], at)
                    && forall x :: x in Chain(facts, i) && Covers(facts[x], at) ==> x == k
  }

  ghost predicate NestIfTheyMeet(facts: seq<Fact>, i: nat, j: nat)
    requires i < |facts| && j < |facts|
  {
    (exists x :: x in Chain(facts, i) && x in Chain(facts, j)) ==> i in Chain(facts, j) || j in Chain(facts, i)
  }

  /** In every state a run reaches, under any clock that does not go back: each chain starts with a row that superseded
      none, is of one lineage and tiles the time from its first row to its last, and chains that meet are nested. */
  lemma {:induction false} ChainsOverRuns(same: Equality, ops: seq<Op>, t: Time)
    requires Monotone(ops) && forall i :: 0 <= i < |ops| ==> ops[i].now <= t
    ensures var facts := Run(same, EMPTY, ops).facts;
      && (forall i: nat :: i < |facts| ==> facts[Chain(facts, i)[0]].supersedes.None?)
      && (forall i: nat, x :: i < |facts| && x in Chain(facts, i) ==> SameLineage(facts[x], facts[i]))
      && (forall i: nat, at: Time :: i < |facts| ==> TilesTime(facts, i, at))
      && (forall i: nat, j: nat :: i < |facts| && j < |facts| ==> NestIfTheyMeet(facts, i, j))
  {
    SafetyOverRuns(same, ops, t);
    var s := Run(same, EMPTY, ops);
    forall i: nat | i < |s.facts|
      ensures s.facts[Chain(s.facts, i)[0]].supersedes.None?
      ensures forall x :: x in Chain(s.facts, i) ==> SameLineage(s.facts[x], s.facts[i])
    {
      ChainIsOneLineage(s, t, i);
    }
    forall i: nat, at: Time | i < |s.facts| ensures TilesTime(s.facts, i, at) { ChainTiles(s, t, i, at); }
    forall i: nat, j: nat | i < |s.facts| && j < |s.facts| ensures NestIfTheyMeet(s.facts, i, j) { ChainsNest(s, t, i, j); }
  }

  lemma ChainTiles(s: State, t: Time, i: nat, at: Time)
    requires Inv(s, t) && i < |s.facts|
    ensures TilesTime(s.facts, i, at)
  {
    if s.facts[Chain(s.facts, i)[0]].validFrom <= at && EndsAfter(s.facts[i], at) {
      var k := ChainTilesTime(s, t, i, at);
    }
  }

  lemma ChainsNest(s: State, t: Time, i: nat, j: nat)
    requires Inv(s, t) && i < |s.facts| && j < |s.facts|
    ensures NestIfTheyMeet(s.facts, i, j)
  {
    if x :| x in Chain(s.facts, i) && x in Chain(s.facts, j) { ChainsAreLines(s, t, i, j, x); }
  }

  // ---- The clock: exactly when an assert of an observation is refused ----

  /** A row of the new claim's lineage that the clock has not passed: a live one that began later,
      or a closed one that ends later. */
  ghost predicate AheadOfClock(f: Fact, fact: Fact) {
    && SameLineage(f, fact)
    && (if Live(f) then fact.validFrom < f.validFrom
        else f.validFrom < f.validTo.value && fact.validFrom < f.validTo.value)
  }

  /** The states an assert of a new value flushes: the live row closed, then the new row inserted. */
  ghost predicate Flushes(s: State, closed: State, n: State, fact: Fact, live: Option<nat>, now: Time) {
    && FoundLive(s.facts, live, fact) && fact.asset in s.assets && fact.validFrom == now && Live(fact)
    && closed == s.(facts := CloseLive(s.facts, live, now))
    && n == closed.(facts := closed.facts + [fact],
                    assets := s.assets[fact.asset := s.assets[fact.asset].(lastSeen := now)])
  }

  /** On any ledger that meets its constraints, whatever its clock has done, asserting a new observed value is refused
      by the database exactly when a row of the lineage is ahead of the clock or the value refers to no asset. */
  lemma AssertUnderAnyClock(same: Equality, s: State, asset: AssetId, c: Claim, value: Value, now: Time)
    requires Constraints(s) && asset in s.assets && c.kind.ObservedState?
    requires !Repeats(same, s, asset, c, value)
    ensures AssertFact(same, s, asset, c, Some(value), now) == Refused(IntegrityError) <==>
      || (exists i :: 0 <= i < |s.facts| && AheadOfClock(s.facts[i], NewClaim(asset, c, value, None, now)))
      || !RefersTo(value, s.assets)
  {
    var live := LiveClaim(s.facts, asset, c.predicateName, c.kind, c.sourceId);
    var fact := NewClaim(asset, c, value, live, now);
    var closed := s.(facts := CloseLive(s.facts, live, now));
    var n := closed.(facts := closed.facts + [fact], assets := s.assets[asset := s.assets[asset].(lastSeen := now)]);
    LiveClaimFinds(s.facts, fact);
    if !RefersTo(value, s.assets) {
      assert n.facts[|s.facts|] == fact && !KeysHold(fact, n.assets);
    } else if i :| 0 <= i < |s.facts| && AheadOfClock(s.facts[i], fact) {
      AheadTrips(s, closed, n, fact, live, now, i);
      assert AheadOfClock(s.facts[i], NewClaim(asset, c, value, None, now));
    } else {
      forall i | 0 <= i < |s.facts| ensures !AheadOfClock(s.facts[i], NewClaim(asset, c, value, None, now)) {
        assert !AheadOfClock(s.facts[i], fact);
      }
      ClosingMeetsConstraints(s, closed, n, fact, live, now);
      AppendingMeetsConstraints(s, closed, n, fact, live, now);
    }
  }

  lemma AheadTrips(s: State, closed: State, n: State, fact: Fact, live: Option<nat>, now: Time, i: nat)
    requires Constraints(s) && Flushes(s, closed, n, fact, live, now)
    requires i < |s.facts| && AheadOfClock(s.facts[i], fact)
    ensures !Constraints(closed) || !Constraints(n)
  {
    if Live(s.facts[i]) {
      LiveIsUnique(s, fact, live, i);
      assert !RowChecks(closed.facts[i]);
    } else {
      assert n.facts[i] == s.facts[i] && n.facts[|s.facts|] == fact;
      assert !PairChecks(n.facts[i], n.facts[|s.facts|]);
    }
  }

  lemma LiveIsUnique(s: State, fact: Fact, live: Option<nat>, i: nat)
    requires Constraints(s) && FoundLive(s.facts, live, fact)
    requires i < |s.facts| && SameLineage(s.facts[i], fact) && Live(s.facts[i])
    ensures live == Some(i)
  {
    assert live.Some? && live.value < i ==> PairChecks(s.facts[live.value], s.facts[i]);
    assert live.Some? && i < live.value ==> PairChecks(s.facts[i], s.facts[live.value]);
  }

  lemma ClosingMeetsConstraints(s: State, closed: State, n: State, fact: Fact, live: Option<nat>, now: Time)
    requires Constraints(s) && Flushes(s, closed, n, fact, live, now)
    requires forall i :: 0 <= i < |s.facts| ==> !AheadOfClock(s.facts[i], fact)
    ensures Constraints(closed)
  {
    assert live.Some? ==> !AheadOfClock(s.facts[live.value], fact);
    forall i, j | 0 <= i < j < |closed.facts| ensures PairChecks(closed.facts[i], closed.facts[j]) {
      assert PairChecks(s.facts[i], s.facts[j]);
    }
    forall i | 0 <= i < |closed.facts| ensures RowChecks(closed.facts[i]) && KeysHold(closed.facts[i], closed.assets) {
      assert RowChecks(s.facts[i]) && KeysHold(s.facts[i], s.assets);
    }
  }

  lemma AppendingMeetsConstraints(s: State, closed: State, n: State, fact: Fact, live: Option<nat>, now: Time)
    requires Constraints(s) && Constraints(closed) && Flushes(s, closed, n, fact, live, now)
    requires RowChecks(fact) && !IsAuthoritative(fact.status) && RefersTo(fact.value, s.assets)
    requires forall i :: 0 <= i < |s.facts| ==> !AheadOfClock(s.facts[i], fact)
    ensures Constraints(n)
  {
    var last := |s.facts|;
    forall i, j | 0 <= i < j < |n.facts| ensures PairChecks(n.facts[i], n.facts[j]) {
      if j < last {
        assert PairChecks(closed.facts[i], closed.facts[j]);
      } else {
        assert !AheadOfClock(s.facts[i], fact);
        if SameLineage(s.facts[i], fact) && Live(s.facts[i]) { LiveIsUnique(s, fact, live, i); }
      }
    }
    forall i | 0 <= i < |n.facts| ensures RowChecks(n.facts[i]) && KeysHold(n.facts[i], n.assets) {
      if i < last { assert RowChecks(closed.facts[i]) && KeysHold(closed.facts[i], closed.assets); }
    }
  }

  /** An assert touches exactly when some live row of its lineage says the same, and then only that row's sighting
      changes. */
  lemma TouchChangesOnlyTheSighting(same: Equality, s: State, t: Time, asset: AssetId, c: Claim, value: Value, now: Time)
    requires Inv(s, t) && AssertFact(same, s, asset, c, Some(value), now).Committed?
    ensures var r := AssertFact(same, s, asset, c, Some(value), now);
      && (r.report.Touched? <==>
            exists i :: 0 <= i < |s.facts| && IsLiveClaim(s.facts[i], asset, c.predicateName, c.kind, c.sourceId)
              && SameValue(same, s.facts[i].value, value))
      && (r.report.Touched? ==>
            && r.report.id < |s.facts|
            && IsLiveClaim(s.facts[r.report.id], asset, c.predicateName, c.kind, c.sourceId)
            && r.next == s.(facts := s.facts[r.report.id := s.facts[r.report.id].(lastSeen := now, confidence := c.confidence)]))
  {
    var live := LiveClaim(s.facts, asset, c.predicateName, c.kind, c.sourceId);
    assert live.Some? ==> IsLiveClaim(s.facts[live.value], asset, c.predicateName, c.kind, c.sourceId);
    forall i | 0 <= i < |s.facts| && IsLiveClaim(s.facts[i], asset, c.predicateName, c.kind, c.sourceId)
      ensures live == Some(i)
    {
      LiveClaimIs(s, asset, c, i);
    }
  }

  /** Asserting the same claim again is accepted, and touches unless the first assert opened a row whose value does not
      equal itself: for NaN every sighting opens a new one. */
  lemma SecondAssertTouches(same: Equality, s: State, t: Time, asset: AssetId, c: Claim, value: Value, now: Time, later: Time)
    requires Inv(s, t) && t <= now <= later && AssertFact(same, s, asset, c, Some(value), now).Committed?
    ensures var first := AssertFact(same, s, asset, c, Some(value), now);
      var again := AssertFact(same, first.next, asset, c, Some(value), later);
      && again.Committed?
      && (again.report.Touched? <==> first.report.Touched? || SameValue(same, value, value))
      && (value == NumberValue(NotANumber) ==> !again.report.Touched?)
  {
    var first := AssertFact(same, s, asset, c, Some(value), now);
    var n := first.next;
    AssertExactly(same, s, t, asset, c, Some(value), now);
    AssertExactly(same, n, now, asset, c, Some(value), later);
    var stored := StoredBy(same, s, asset, c, value, now);
    LiveClaimIs(n, asset, c, stored);
  }

  /** An accepted assert leaves its claim live: the row it touched, or one with its value. */
  lemma StoredBy(same: Equality, s: State, asset: AssetId, c: Claim, value: Value, now: Time) returns (i: nat)
    requires AssertFact(same, s, asset, c, Some(value), now).Committed?
    ensures var r := AssertFact(same, s, asset, c, Some(value), now);
      && i < |r.next.facts| && IsLiveClaim(r.next.facts[i], asset, c.predicateName, c.kind, c.sourceId)
      && (if r.report.Touched? then SameValue(same, r.next.facts[i].value, value) else r.next.facts[i].value == value)
      && asset in r.next.assets
  {
    var live := LiveClaim(s.facts, asset, c.predicateName, c.kind, c.sourceId);
    i := if Repeats(same, s, asset, c, value) then live.value else |s.facts|;
  }

  lemma LiveClaimIs(s: State, asset: AssetId, c: Claim, i: nat)
    requires Constraints(s) && i < |s.facts| && IsLiveClaim(s.facts[i], asset, c.predicateName, c.kind, c.sourceId)
    ensures LiveClaim(s.facts, asset, c.predicateName, c.kind, c.sourceId) == Some(i)
  {
    LiveClaimFinds(s.facts, s.facts[i]);
    LiveIsUnique(s, s.facts[i], LiveClaim(s.facts, asset, c.predicateName, c.kind, c.sourceId), i);
  }

  /** Retirement closes what is claimed, not what will be: in every state the invariant allows, the next assert of an
      observation is accepted for a retired asset unless it refers to nothing, and then the asset has a live claim. */
  lemma RetiredAssetsCanBeClaimedAgain(same: Equality, s: State, t: Time, asset: AssetId, c: Claim, value: Value, now: Time)
    requires Inv(s, t) && t <= now && asset in s.assets && s.assets[asset].lifecycle.Retired? && c.kind.ObservedState?
    ensures var r := AssertFact(same, s, asset, c, Some(value), now);
      && (r.Committed? <==> RefersTo(value, s.assets))
      && (r.Committed? ==> exists i :: 0 <= i < |r.next.facts| && Live(r.next.facts[i]) && r.next.facts[i].asset == asset)
  {
    AssertExactly(same, s, t, asset, c, Some(value), now);
    var r := AssertFact(same, s, asset, c, Some(value), now);
    var live := LiveClaim(s.facts, asset, c.predicateName, c.kind, c.sourceId);
    if r.Committed? {
      var i := if Repeats(same, s, asset, c, value) then live.value else |s.facts|;
      assert Live(r.next.facts[i]) && r.next.facts[i].asset == asset;
    }
  }

  // ---- History is a run-length encoding ----

  predicate InLineage(f: Fact, asset: AssetId, predicateName: string, sourceId: string) {
    f.asset == asset && f.predicateName == predicateName && f.kind.ObservedState? && f.sourceId == sourceId
  }

  /** The values of a lineage's rows, oldest first. */
  ghost function History(facts: seq<Fact>, asset: AssetId, predicateName: string, sourceId: string): seq<Value> {
    if facts == [] then []
    else
      var last := |facts| - 1;
      History(facts[..last], asset, predicateName, sourceId)
        + (if InLineage(facts[last], asset, predicateName, sourceId) then [facts[last].value] else [])
  }

  predicate Asserts(op: Op, asset: AssetId, predicateName: string, sourceId: string) {
    op.DoAssert? && op.asset == asset && op.claim.predicateName == predicateName
    && op.claim.kind.ObservedState? && op.claim.sourceId == sourceId && op.screened.Some?
  }

  /** The values a run's accepted asserts carried for a lineage, in order. */
  ghost function Accepted(same: Equality, ops: seq<Op>, asset: AssetId, predicateName: string, sourceId: string): seq<Value> {
    if ops == [] then []
    else
      var last := |ops| - 1;
      Accepted(same, ops[..last], asset, predicateName, sourceId)
        + (if Asserts(ops[last], asset, predicateName, sourceId)
              && Apply(same, Run(same, EMPTY, ops[..last]), ops[last]).Committed?
           then [ops[last].screened.value] else [])
  }

  /** One more value: it repeats the last run's or starts a new one. */
  function AppendRun(same: Equality, runs: seq<Value>, v: Value): seq<Value> {
    if runs != [] && SameValue(same, runs[|runs| - 1], v) then runs else runs + [v]
  }

  /** What starts each run of a list of values. */
  function Compress(same: Equality, vs: seq<Value>): seq<Value> {
    if vs == [] then [] else AppendRun(same, Compress(same, vs[..|vs| - 1]), vs[|vs| - 1])
  }

  lemma CompressAppend(same: Equality, vs: seq<Value>, v: Value)
    ensures Compress(same, vs + [v]) == AppendRun(same, Compress(same, vs), v)
  {
    assert (vs + [v])[..|vs|] == vs;
  }

  function Flatten(runs: seq<seq<Value>>): seq<Value> {
    if runs == [] then [] else Flatten(runs[..|runs| - 1]) + runs[|runs| - 1]
  }

  /** Each run repeats the value it starts with, and the next does not. */
  ghost predicate AreRuns(same: Equality, runs: seq<seq<Value>>) {
    && (forall i :: 0 <= i < |runs| ==> runs[i] != [])
    && (forall i, k :: 0 <= i < |runs| && 0 < k < |runs[i]| ==> SameValue(same, runs[i][0], runs[i][k]))
    && (forall i, j :: 0 <= i < j < |runs| && j == i + 1 ==> !SameValue(same, runs[i][0], runs[j][0]))
  }

  /** The runs start with these values. */
  ghost predicate StartWith(runs: seq<seq<Value>>, values: seq<Value>) {
    |runs| == |values| && forall i :: 0 <= i < |runs| ==> runs[i] != [] && runs[i][0] == values[i]
  }

  /** The compressed list is a run-length encoding: the list falls into runs that start with its values. */
  lemma {:induction false} CompressEncodesRuns(same: Equality, vs: seq<Value>) returns (runs: seq<seq<Value>>)
    ensures Flatten(runs) == vs && AreRuns(same, runs) && StartWith(runs, Compress(same, vs))
  {
    if vs == [] {
      runs := [];
    } else {
      var init, v := vs[..|vs| - 1], vs[|vs| - 1];
      var front := CompressEncodesRuns(same, init);
      assert vs == init + [v];
      runs := OneMoreValue(same, front, Compress(same, init), v);
    }
  }

  lemma OneMoreValue(same: Equality, front: seq<seq<Value>>, values: seq<Value>, v: Value) returns (runs: seq<seq<Value>>)
    requires AreRuns(same, front) && StartWith(front, values)
    ensures AreRuns(same, runs) && StartWith(runs, AppendRun(same, values, v)) && Flatten(runs) == Flatten(front) + [v]
  {
    var k := |front| - 1;
    if front != [] && SameValue(same, front[k][0], v) {
      runs := front[k := front[k] + [v]];
      assert runs[..k] == front[..k];
    } else {
      runs := front + [[v]];
      assert runs[..|front|] == front;
    }
  }

  /** An equality that is symmetric and transitive; NaN need not equal itself. */
  ghost predicate IsPartialEquivalence(same: Equality) {
    && (forall a, b :: same(a, b) ==> same(b, a))
    && (forall a, b, c :: same(a, b) && same(b, c) ==> same(a, c))
  }

  lemma SameValueAgrees(same: Equality, start: Value, a: Value, b: Value)
    requires IsPartialEquivalence(same) && SameValue(same, start, a)
    ensures SameValue(same, a, b) <==> SameValue(same, start, b)
  {
  }

  /** For such an equality the runs are the maximal stretches of equal neighbours: each value equals the one before it
      exactly when it is not the first of its run. */
  lemma RunsAreMaximal(same: Equality, runs: seq<seq<Value>>)
    requires IsPartialEquivalence(same) && AreRuns(same, runs)
    ensures forall i, j, k :: 0 <= i < |runs| && 0 <= j < k < |runs[i]| && k == j + 1 ==> SameValue(same, runs[i][j], runs[i][k])
    ensures forall i, j :: 0 <= i < j < |runs| && j == i + 1 ==> !SameValue(same, runs[i][|runs[i]| - 1], runs[j][0])
  {
    forall i, j, k | 0 <= i < |runs| && 0 <= j < k < |runs[i]| && k == j + 1
      ensures SameValue(same, runs[i][j], runs[i][k])
    {
      if j > 0 { SameValueAgrees(same, runs[i][0], runs[i][j], runs[i][k]); }
    }
    forall i, j | 0 <= i < j < |runs| && j == i + 1 ensures !SameValue(same, runs[i][|runs[i]| - 1], runs[j][0]) {
      if |runs[i]| > 1 { SameValueAgrees(same, runs[i][0], runs[i][|runs[i]| - 1], runs[j][0]); }
    }
  }

  lemma {:induction false} HistoryOfUpdate(facts: seq<Fact>, after: seq<Fact>, asset: AssetId, p: string, source: string)
    requires |facts| == |after|
    requires forall i :: 0 <= i < |facts| ==> SameLineage(facts[i], after[i]) && facts[i].value == after[i].value
    ensures History(after, asset, p, source) == History(facts, asset, p, source)
  {
    if facts != [] {
      HistoryOfUpdate(facts[..|facts| - 1], after[..|facts| - 1], asset, p, source);
    }
  }

  /** The last value of a history belongs to the lineage's last row. */
  lemma {:induction false} HistoryEndsWith(facts: seq<Fact>, i: nat, asset: AssetId, p: string, source: string)
    requires i < |facts| && InLineage(facts[i], asset, p, source)
    requires forall j :: i < j < |facts| ==> !InLineage(facts[j], asset, p, source)
    ensures var h := History(facts, asset, p, source); h != [] && h[|h| - 1] == facts[i].value
  {
    if i < |facts| - 1 {
      HistoryEndsWith(facts[..|facts| - 1], i, asset, p, source);
    }
  }

  lemma {:induction false} NoRowsNoHistory(facts: seq<Fact>, asset: AssetId, p: string, source: string)
    requires forall j :: 0 <= j < |facts| ==> !InLineage(facts[j], asset, p, source)
    ensures History(facts, asset, p, source) == []
  {
    if facts != [] { NoRowsNoHistory(facts[..|facts| - 1], asset, p, source); }
  }

  // ---- What a commit does to the rows, by kind of step ----

  /** Old rows keep their place, lineage and value. */
  ghost predicate KeepsRows(facts: seq<Fact>, after: seq<Fact>) {
    |facts| <= |after| && forall i :: 0 <= i < |facts| ==> SameLineage(facts[i], after[i]) && facts[i].value == after[i].value
  }

  lemma HistoryOfCommit(facts: seq<Fact>, after: seq<Fact>, asset: AssetId, p: string, source: string)
    requires KeepsRows(facts, after) && |after| <= |facts| + 1
    ensures |after| == |facts| || !InLineage(after[|facts|], asset, p, source) ==>
      History(after, asset, p, source) == History(facts, asset, p, source)
    ensures |after| > |facts| && InLineage(after[|facts|], asset, p, source) ==>
      History(after, asset, p, source) == History(facts, asset, p, source) + [after[|facts|].value]
  {
    HistoryOfUpdate(facts, after[..|facts|], asset, p, source);
    if |after| == |facts| {
      assert after[..|facts|] == after;
    }
  }

  ghost function LiveFor(s: State, op: Op): Option<nat>
    requires op.DoAssert?
  {
    LiveClaim(s.facts, op.asset, op.claim.predicateName, op.claim.kind, op.claim.sourceId)
  }

  lemma AssertShape(same: Equality, s: State, op: Op)
    requires op.DoAssert? && Apply(same, s, op).Committed?
    ensures op.asset in s.assets && op.screened.Some?
    ensures KeepsRows(s.facts, Step(same, s, op).facts)
    ensures var n, live := Step(same, s, op), LiveFor(s, op);
      if live.Some? && SameValue(same, s.facts[live.value].value, op.screened.value) then |n.facts| == |s.facts|
      else |n.facts| == |s.facts| + 1 && n.facts[|s.facts|] == NewClaim(op.asset, op.claim, op.screened.value, live, op.now)
  {
  }

  lemma DesireShape(same: Equality, s: State, op: Op)
    requires op.DoDesire? && Apply(same, s, op).Committed?
    ensures KeepsRows(s.facts, Step(same, s, op).facts)
    ensures |Step(same, s, op).facts| == |s.facts| + 1 && Step(same, s, op).facts[|s.facts|].kind.DesiredState?
    ensures op.asset in s.assets && Step(same, s, op).facts[|s.facts|].asset == op.asset
  {
  }

  lemma OtherShape(same: Equality, s: State, op: Op)
    requires !op.DoAssert? && !op.DoDesire? && Apply(same, s, op).Committed?
    ensures KeepsRows(s.facts, Step(same, s, op).facts) && |Step(same, s, op).facts| == |s.facts|
  {
  }

  /** How one step changes a lineage's history, while its asset has not been retired. */
  lemma StepHistory(same: Equality, s: State, t: Time, op: Op, asset: AssetId, p: string, source: string)
    requires Inv(s, t) && t <= op.now && asset in s.assets && s.assets[asset].retiredAt.None?
    requires Apply(same, s, op).Committed?
    ensures var before, after := History(s.facts, asset, p, source), History(Step(same, s, op).facts, asset, p, source);
      if Asserts(op, asset, p, source) then after == AppendRun(same, before, op.screened.value) else after == before
  {
    if op.DoAssert? {
      AssertShape(same, s, op);
      HistoryOfCommit(s.facts, Step(same, s, op).facts, asset, p, source);
      if Asserts(op, asset, p, source) {
        var live := LiveFor(s, op);
        LastValueIsLive(s, t, live, NewClaim(asset, op.claim, op.screened.value, live, op.now), asset, p, source);
      }
    } else {
      if op.DoDesire? { DesireShape(same, s, op); } else { OtherShape(same, s, op); }
      HistoryOfCommit(s.facts, Step(same, s, op).facts, asset, p, source);
    }
  }

  /** Before retirement the live row carries the history's last value, and without one there is no history. */
  lemma LastValueIsLive(s: State, t: Time, live: Option<nat>, fact: Fact, asset: AssetId, p: string, source: string)
    requires Inv(s, t) && asset in s.assets && s.assets[asset].retiredAt.None?
    requires InLineage(fact, asset, p, source)
    requires live == LiveClaim(s.facts, fact.asset, fact.predicateName, fact.kind, fact.sourceId)
    ensures var h := History(s.facts, asset, p, source);
      if live.Some? then h != [] && h[|h| - 1] == s.facts[live.value].value else h == []
  {
    LiveClaimFinds(s.facts, fact);
    LiveIsLast(s.facts, live, fact);
    if live.Some? {
      HistoryEndsWith(s.facts, live.value, asset, p, source);
    } else {
      forall j | 0 <= j < |s.facts| ensures !InLineage(s.facts[j], asset, p, source) {
        if InLineage(s.facts[j], asset, p, source) {
          LineageHasLiveRow(s, t, j);
        }
      }
      NoRowsNoHistory(s.facts, asset, p, source);
    }
  }

  /** A lineage with a row has a live row, until its asset is retired. */
  lemma {:induction false} LineageHasLiveRow(s: State, t: Time, i: nat)
    requires Inv(s, t) && i < |s.facts| && s.assets[s.facts[i].asset].retiredAt.None?
    ensures exists k :: 0 <= k < |s.facts| && SameLineage(s.facts[k], s.facts[i]) && Live(s.facts[k])
    decreases |s.facts| - i
  {
    if !Live(s.facts[i]) {
      assert IsSuperseded(s.facts, i);
      var j :| i < j < |s.facts| && s.facts[j].supersedes == Some(i);
      assert LinkedRow(s.facts, j);
      LineageHasLiveRow(s, t, j);
    }
  }

  /** The asset is not retired by this run. */
  ghost predicate NeverRetires(ops: seq<Op>, asset: AssetId) {
    forall i :: 0 <= i < |ops| ==> !(ops[i].DoRetire? && ops[i].asset == asset)
  }

  lemma {:induction false} StaysUnretired(same: Equality, ops: seq<Op>, asset: AssetId)
    requires NeverRetires(ops, asset)
    ensures asset in Run(same, EMPTY, ops).assets ==> Run(same, EMPTY, ops).assets[asset].retiredAt.None?
  {
    if ops != [] { StaysUnretired(same, ops[..|ops| - 1], asset); }
  }

  lemma {:induction false} HistoryIsCompressed(same: Equality, ops: seq<Op>, t: Time, asset: AssetId, p: string,
                                               source: string)
    requires Monotone(ops) && (forall i :: 0 <= i < |ops| ==> ops[i].now <= t)
    requires NeverRetires(ops, asset)
    ensures History(Run(same, EMPTY, ops).facts, asset, p, source) == Compress(same, Accepted(same, ops, asset, p, source))
  {
    if ops != [] {
      var last := |ops| - 1;
      var front, op := ops[..last], ops[last];
      HistoryIsCompressed(same, front, op.now, asset, p, source);
      SafetyOverRuns(same, front, op.now);
      StaysUnretired(same, front, asset);
      AcceptedStep(same, ops, asset, p, source);
      if Apply(same, Run(same, EMPTY, front), op).Committed? {
        if asset in Run(same, EMPTY, front).assets {
          StepHistory(same, Run(same, EMPTY, front), op.now, op, asset, p, source);
        } else {
          UnknownAssetHasNoRows(same, Run(same, EMPTY, front), op, op.now, asset, p, source);
        }
      }
    }
  }

  /** The compressed accepts grow by at most the step's own value. */
  lemma {:induction false} AcceptedStep(same: Equality, ops: seq<Op>, asset: AssetId, p: string, source: string)
    requires ops != []
    ensures var front, op := ops[..|ops| - 1], ops[|ops| - 1];
      Compress(same, Accepted(same, ops, asset, p, source)) ==
        if Asserts(op, asset, p, source) && Apply(same, Run(same, EMPTY, front), op).Committed?
        then AppendRun(same, Compress(same, Accepted(same, front, asset, p, source)), op.screened.value)
        else Compress(same, Accepted(same, front, asset, p, source))
  {
    var front, op := ops[..|ops| - 1], ops[|ops| - 1];
    if Asserts(op, asset, p, source) {
      CompressAppend(same, Accepted(same, front, asset, p, source), op.screened.value);
    }
    assert Accepted(same, front, asset, p, source) + [] == Accepted(same, front, asset, p, source);
  }

  lemma UnknownAssetHasNoRows(same: Equality, s: State, op: Op, t: Time, asset: AssetId, p: string, source: string)
    requires Inv(s, t) && t <= op.now && asset !in s.assets && Apply(same, s, op).Committed?
    ensures History(s.facts, asset, p, source) == History(Step(same, s, op).facts, asset, p, source) == []
    ensures !Asserts(op, asset, p, source)
  {
    assert forall j | 0 <= j < |s.facts| :: s.facts[j].asset in s.assets;
    NoRowsNoHistory(s.facts, asset, p, source);
    if op.DoAssert? { AssertShape(same, s, op); }
    else if op.DoDesire? { DesireShape(same, s, op); }
    else { OtherShape(same, s, op); }
    HistoryOfCommit(s.facts, Step(same, s, op).facts, asset, p, source);
  }

  /** Over any run in which an asset is not retired, whatever else happens, the values a lineage's asserts carried fall
      into runs, and the lineage's rows carry exactly the values the runs start with. */
  lemma {:induction false} HistoryIsRunLengthEncoding(same: Equality, ops: seq<Op>, t: Time, asset: AssetId, p: string,
                                                      source: string)
    returns (runs: seq<seq<Value>>)
    requires Monotone(ops) && (forall i :: 0 <= i < |ops| ==> ops[i].now <= t)
    requires NeverRetires(ops, asset)
    ensures Flatten(runs) == Accepted(same, ops, asset, p, source) && AreRuns(same, runs)
    ensures StartWith(runs, History(Run(same, EMPTY, ops).facts, asset, p, source))
  {
    HistoryIsCompressed(same, ops, t, asset, p, source);
    runs := CompressEncodesRuns(same, Accepted(same, ops, asset, p, source));
  }
}
