/** Reading the ledger: the effective value of a predicate, and the listing of conflicts. */
module Effective {
  import opened Base
  import opened CmdbVocabulary
  import opened Ledger
  import opened LedgerInvariant
  import A = LedgerAnswers
  import Orders

  /** A fact as a query returns it: the row and its id. */
  datatype Row = Row(id: nat, fact: Fact)

  // ---- Queries ----

  function LiveRows(facts: seq<Fact>, asset: AssetId): (r: seq<Row>)
    ensures forall x :: x in r <==> x.id < |facts| && x.fact == facts[x.id] && x.fact.asset == asset && Live(x.fact)
    ensures forall i, j :: 0 <= i < j < |r| ==> r[i].id < r[j].id
  {
    if facts == [] then []
    else
      var last := |facts| - 1;
      LiveRows(facts[..last], asset) + (if facts[last].asset == asset && Live(facts[last]) then [Row(last, facts[last])] else [])
  }

  /** ORDER BY predicate, source_id. */
  predicate RowLess(x: Row, y: Row) {
    Orders.StringLess(x.fact.predicateName, y.fact.predicateName)
    || (x.fact.predicateName == y.fact.predicateName && Orders.StringLess(x.fact.sourceId, y.fact.sourceId))
  }

  lemma RowOrder()
    ensures Orders.WeakOrder(RowLess)
  {
    Orders.StringOrder();
  }

  predicate InGroup(x: Row, predicateName: string, kind: FactKind) {
    x.fact.predicateName == predicateName && x.fact.kind == kind
  }

  function InGroupOf(predicateName: string, kind: FactKind): Row -> bool {
    x => InGroup(x, predicateName, kind)
  }

  /** FactService.live_facts, unfiltered and for one predicate and kind. */
  function LiveFacts(facts: seq<Fact>, asset: AssetId): seq<Row> {
    Orders.SortBy(RowLess, LiveRows(facts, asset))
  }

  function LiveFactsOf(facts: seq<Fact>, asset: AssetId, predicateName: string, kind: FactKind): seq<Row> {
    Orders.SortBy(RowLess, Filter(InGroupOf(predicateName, kind), LiveRows(facts, asset)))
  }

  lemma SortedRows(s: seq<Row>)
    ensures Orders.NonDescending(RowLess, Orders.SortBy(RowLess, s))
    ensures forall x :: x in Orders.SortBy(RowLess, s) <==> x in s
  {
    RowOrder();
    Orders.SortByAscends(RowLess, s);
    Orders.SortByPermutes(RowLess, s);
  }

  /** In a sorted list whatever precedes an element that is not greater than x is not greater either. */
  ghost predicate SplitBy(less: (Row, Row) -> bool, s: seq<Row>, x: Row) {
    forall i, j :: 0 <= i < j < |s| && !less(x, s[j]) ==> !less(x, s[i])
  }

  lemma SortedSplits(s: seq<Row>, x: Row)
    requires Orders.NonDescending(RowLess, s)
    ensures SplitBy(RowLess, s, x)
  {
    RowOrder();
  }

  lemma InsertAtEnd(less: (Row, Row) -> bool, s: seq<Row>, x: Row)
    requires forall i :: 0 <= i < |s| ==> !less(x, s[i])
    ensures Orders.Insert(less, s, x) == s + [x]
  {
    assert [] + [x] == [x];
  }

  lemma InsertBeforeLast(less: (Row, Row) -> bool, s: seq<Row>, last: Row, x: Row)
    requires less(x, last)
    ensures Orders.Insert(less, s + [last], x) == Orders.Insert(less, s, x) + [last]
  {
    assert (s + [last])[..|s|] == s;
  }

  lemma FilterNotGreater(less: (Row, Row) -> bool, p: Row -> bool, s: seq<Row>, x: Row)
    requires forall i :: 0 <= i < |s| ==> !less(x, s[i])
    ensures Filter(p, Orders.Insert(less, s, x)) == if p(x) then Orders.Insert(less, Filter(p, s), x) else Filter(p, s)
  {
    FilterMembers(p, s);
    var kept := Filter(p, s);
    forall i | 0 <= i < |kept| ensures !less(x, kept[i]) {
      assert kept[i] in kept;
    }
    InsertAtEnd(less, s, x);
    FilterAppend(p, s, x);
    InsertAtEnd(less, kept, x);
  }

  /** Filtering commutes with inserting into a sorted list. */
  lemma {:induction false} FilterInsert(less: (Row, Row) -> bool, p: Row -> bool, s: seq<Row>, x: Row)
    requires SplitBy(less, s, x)
    ensures Filter(p, Orders.Insert(less, s, x)) == if p(x) then Orders.Insert(less, Filter(p, s), x) else Filter(p, s)
  {
    if s == [] || !less(x, s[|s| - 1]) {
      FilterNotGreater(less, p, s, x);
    } else {
      var front, last := s[..|s| - 1], s[|s| - 1];
      assert s == front + [last];
      FilterInsert(less, p, front, x);
      InsertBeforeLast(less, front, last, x);
      FilterAppend(p, Orders.Insert(less, front, x), last);
      FilterAppend(p, front, last);
      InsertBeforeLast(less, Filter(p, front), last, x);
    }
  }

  lemma SortStep(s: seq<Row>, x: Row)
    ensures Orders.SortBy(RowLess, s + [x]) == Orders.Insert(RowLess, Orders.SortBy(RowLess, s), x)
  {
    assert (s + [x])[..|s|] == s;
  }

  /** Filtering before or after the sort gives the same rows in the same order. */
  lemma {:induction false} FilterCommutesWithSort(p: Row -> bool, s: seq<Row>)
    ensures Filter(p, Orders.SortBy(RowLess, s)) == Orders.SortBy(RowLess, Filter(p, s))
  {
    if s != [] {
      var front, x := s[..|s| - 1], s[|s| - 1];
      assert s == front + [x];
      FilterCommutesWithSort(p, front);
      var sorted := Orders.SortBy(RowLess, front);
      SortedRows(front);
      SortedSplits(sorted, x);
      FilterInsert(RowLess, p, sorted, x);
      SortStep(front, x);
      FilterAppend(p, front, x);
      SortStep(Filter(p, front), x);
    }
  }

  // ---- Values compared by their summaries ----

  /** A short rendering of a value; `render` stands for str(). */
  function Summarise(render: Value -> string, x: Row): string {
    var text := render(x.fact.value);
    if |text| <= 120 then text else text[..117] + ELLIPSIS
  }

  const ELLIPSIS := "..."

  lemma TailIsCut(text: string)
    requires |text| > 120
    ensures |text[..117] + ELLIPSIS| == 120 && (text[..117] + ELLIPSIS)[..117] == text[..117]
  {
  }

  /** When two claims read alike: they render alike, or they are both long and differ only after 117 characters, or one
      is long and the other is its summary. */
  lemma SummariesAgreeExactly(render: Value -> string, x: Row, y: Row)
    ensures var s, t := render(x.fact.value), render(y.fact.value);
      Summarise(render, x) == Summarise(render, y) <==>
        || s == t
        || (|s| > 120 && |t| > 120 && s[..117] == t[..117])
        || (|s| > 120 && t == s[..117] + ELLIPSIS) || (|t| > 120 && s == t[..117] + ELLIPSIS)
  {
    var s, t := render(x.fact.value), render(y.fact.value);
    if |s| > 120 { TailIsCut(s); }
    if |t| > 120 { TailIsCut(t); }
  }

  function Summaries(render: Value -> string, rows: seq<Row>): set<string> {
    set x | x in rows :: Summarise(render, x)
  }

  datatype Basis = AuthoritativeSingle | Unanimous | Unresolved

  datatype EffectiveValue = EffectiveValue(
    basis: Basis, fact: Option<Row>, conflictPresent: bool, resolutionRequired: bool, inferenceOnly: bool,
    dissenting: seq<Row>)

  predicate IsInference(x: Row) { x.fact.statementClass.Inference? }

  predicate MayVote(x: Row) { !IsInference(x) }

  predicate IsTrusted(x: Row) { IsAuthoritative(x.fact.status) }

  function Authoritative(rows: seq<Row>): seq<Row> { Filter(IsTrusted, rows) }

  function NonInference(rows: seq<Row>): seq<Row> { Filter(MayVote, rows) }

  function OtherThan(winner: Row): Row -> bool { (x: Row) => x.id != winner.id }

  function OutsideOf(voters: seq<Row>): Row -> bool { x => x !in voters }

  /** FactService.effective on the live rows of one predicate and kind; None when there is no live claim. */
  function EffectiveOf(render: Value -> string, rows: seq<Row>): Option<EffectiveValue> {
    if rows == [] then None
    else
      var authoritative := Authoritative(rows);
      var conflict := |Summaries(render, rows)| > 1;
      var voters := NonInference(rows);
      if |authoritative| == 1 then
        var winner := authoritative[0];
        Some(EffectiveValue(AuthoritativeSingle, Some(winner), conflict, false, false, Filter(OtherThan(winner), rows)))
      else if voters != [] && |Summaries(render, voters)| == 1 then
        Some(EffectiveValue(Unanimous, Some(voters[0]), conflict, false, false, Filter(OutsideOf(voters), rows)))
      else
        Some(EffectiveValue(Unresolved, None, conflict, true, voters == [], rows))
  }

  /** The rows of one predicate and kind as a state that meets the constraints holds them. */
  ghost predicate SoundGroup(rows: seq<Row>) {
    && (forall x :: x in rows ==> RowChecks(x.fact))
    && (forall x, y :: x in rows && y in rows && IsAuthoritative(x.fact.status) && IsAuthoritative(y.fact.status) ==> x == y)
    && (forall i, j :: 0 <= i < j < |rows| ==> rows[i].id != rows[j].id)
  }

  /** Who dissents: everyone but the one authority, the inferences when the rest agree, everyone when nothing is decided. */
  lemma DissentersExactly(render: Value -> string, rows: seq<Row>, x: Row)
    requires rows != [] && x in rows
    ensures var e := EffectiveOf(render, rows).value;
      && (e.basis.AuthoritativeSingle? ==> (x in e.dissenting <==> e.fact.Some? && x.id != e.fact.value.id))
      && (e.basis.Unanimous? ==> (x in e.dissenting <==> IsInference(x)))
      && (e.basis.Unresolved? ==> x in e.dissenting && (e.inferenceOnly ==> IsInference(x)))
  {
    var e := EffectiveOf(render, rows).value;
    FilterMembers(MayVote, rows);
    if e.basis.AuthoritativeSingle? { FilterMembers(OtherThan(e.fact.value), rows); }
    FilterMembers(OutsideOf(NonInference(rows)), rows);
  }

  lemma GroupRowsAreFacts(facts: seq<Fact>, asset: AssetId, predicateName: string, kind: FactKind)
    ensures forall x :: x in LiveFactsOf(facts, asset, predicateName, kind) <==>
      (x.id < |facts| && x.fact == facts[x.id] && x.fact.asset == asset && Live(x.fact) && InGroup(x, predicateName, kind))
  {
    FilterMembers(InGroupOf(predicateName, kind), LiveRows(facts, asset));
    SortedRows(Filter(InGroupOf(predicateName, kind), LiveRows(facts, asset)));
  }

  lemma GroupIsSound(s: State, t: Time, asset: AssetId, predicateName: string, kind: FactKind)
    requires Inv(s, t)
    ensures SoundGroup(LiveFactsOf(s.facts, asset, predicateName, kind))
  {
    var group := Filter(InGroupOf(predicateName, kind), LiveRows(s.facts, asset));
    var rows := LiveFactsOf(s.facts, asset, predicateName, kind);
    GroupRowsAreFacts(s.facts, asset, predicateName, kind);
    FilterKeepsIds(InGroupOf(predicateName, kind), LiveRows(s.facts, asset));
    SortKeepsIds(group);
    ConstraintsGiveParts(s);
    forall x, y | x in rows && y in rows && IsAuthoritative(x.fact.status) && IsAuthoritative(y.fact.status)
      ensures x == y
    {
      assert HoldsAuthority(s.facts[x.id]) && HoldsAuthority(s.facts[y.id]);
      assert x.id < y.id ==> SameClaim(s.facts[x.id], s.facts[y.id]);
      assert y.id < x.id ==> SameClaim(s.facts[y.id], s.facts[x.id]);
    }
  }

  ghost predicate DistinctIds(rows: seq<Row>) {
    forall i, j :: 0 <= i < j < |rows| ==> rows[i].id != rows[j].id
  }

  lemma {:induction false} FilterKeepsIds(p: Row -> bool, rows: seq<Row>)
    requires DistinctIds(rows)
    ensures DistinctIds(Filter(p, rows))
  {
    if rows != [] {
      var front := rows[..|rows| - 1];
      FilterKeepsIds(p, front);
      FilterMembers(p, front);
      forall x | x in Filter(p, front) ensures x.id != rows[|rows| - 1].id {
        assert x in front;
      }
    }
  }

  lemma {:induction false} InsertKeepsIds(s: seq<Row>, x: Row)
    requires DistinctIds(s) && forall y :: y in s ==> y.id != x.id
    ensures DistinctIds(Orders.Insert(RowLess, s, x))
  {
    if s != [] && RowLess(x, s[|s| - 1]) {
      var front, last := s[..|s| - 1], s[|s| - 1];
      InsertKeepsIds(front, x);
      Orders.InsertPermutes(RowLess, front, x);
      var r := Orders.Insert(RowLess, front, x);
      assert last in s;
      forall i | 0 <= i < |r| ensures r[i].id != last.id {
        assert r[i] == x || r[i] in front;
      }
    }
  }

  lemma {:induction false} SortKeepsIds(s: seq<Row>)
    requires DistinctIds(s)
    ensures DistinctIds(Orders.SortBy(RowLess, s))
  {
    if s != [] {
      var front, x := s[..|s| - 1], s[|s| - 1];
      SortKeepsIds(front);
      SortedRows(front);
      InsertKeepsIds(Orders.SortBy(RowLess, front), x);
    }
  }

  // ---- What the effective value means ----

  lemma SingletonSummaries(render: Value -> string, rows: seq<Row>)
    requires rows != []
    ensures |Summaries(render, rows)| == 1 <==>
      forall x, y :: x in rows && y in rows ==> Summarise(render, x) == Summarise(render, y)
    ensures |Summaries(render, rows)| >= 1
  {
    var s := Summaries(render, rows);
    var a := Summarise(render, rows[0]);
    assert rows[0] in rows && a in s;
    if forall x, y :: x in rows && y in rows ==> Summarise(render, x) == Summarise(render, y) {
      assert s == {a};
    } else {
      var x, y :| x in rows && y in rows && Summarise(render, x) != Summarise(render, y);
      var pair := {Summarise(render, x), Summarise(render, y)};
      assert pair <= s && |pair| == 2;
      SubsetSize(pair, s);
    }
  }

  lemma {:induction false} DistinctCount(rows: seq<Row>)
    requires DistinctIds(rows)
    ensures |set x | x in rows| == |rows|
  {
    if rows != [] {
      var front, last := rows[..|rows| - 1], rows[|rows| - 1];
      DistinctCount(front);
      assert (set x | x in rows) == (set x | x in front) + {last};
      assert last !in front;
    }
  }

  lemma AtMostOneAuthority(rows: seq<Row>)
    requires SoundGroup(rows)
    ensures |Authoritative(rows)| <= 1
  {
    var a := Authoritative(rows);
    FilterMembers(IsTrusted, rows);
    FilterKeepsIds(IsTrusted, rows);
    DistinctCount(a);
    if a != [] {
      assert a[0] in a;
      assert (set x | x in a) == {a[0]};
    }
  }

  /** Authority decides first: on a sound group there is one trusted claim or none. */
  lemma AuthorityDecides(render: Value -> string, rows: seq<Row>)
    requires rows != [] && SoundGroup(rows)
    ensures var e := EffectiveOf(render, rows).value;
      && (e.basis.AuthoritativeSingle? <==> exists x :: x in rows && IsTrusted(x))
      && (e.basis.AuthoritativeSingle? ==> e.fact.Some? && IsTrusted(e.fact.value))
      && (e.fact.Some? ==> e.fact.value in rows && !IsInference(e.fact.value))
  {
    var a, voters := Authoritative(rows), NonInference(rows);
    AtMostOneAuthority(rows);
    FilterMembers(IsTrusted, rows);
    FilterMembers(MayVote, rows);
    if x :| x in rows && IsTrusted(x) { assert x in a; }
    if a != [] { assert a[0] in a; }
    if voters != [] { assert voters[0] in voters; }
  }

  /** Agreement decides next: every claim that is not an inference says the same. */
  lemma AgreementDecides(render: Value -> string, rows: seq<Row>)
    requires rows != []
    ensures NonInference(rows) != [] && |Summaries(render, NonInference(rows))| == 1 <==>
      && (exists x :: x in rows && !IsInference(x))
      && (forall x, y :: x in rows && y in rows && !IsInference(x) && !IsInference(y) ==>
            Summarise(render, x) == Summarise(render, y))
  {
    var voters := NonInference(rows);
    FilterMembers(MayVote, rows);
    if x :| x in rows && !IsInference(x) { assert x in voters; }
    if voters != [] {
      assert voters[0] in voters;
      SingletonSummaries(render, voters);
    }
  }

  /** On a sound group the value is decided in exactly this order: the one authoritative claim; else the value every
      claim but the inferences agrees on; else nothing. An inference is never the answer. */
  lemma EffectiveMeaning(render: Value -> string, rows: seq<Row>)
    requires rows != [] && SoundGroup(rows)
    ensures EffectiveOf(render, rows).Some?
    ensures var e := EffectiveOf(render, rows).value;
      && (e.basis.AuthoritativeSingle? <==> exists x :: x in rows && IsTrusted(x))
      && (e.basis.AuthoritativeSingle? ==> e.fact.Some? && IsTrusted(e.fact.value))
      && (e.basis.Unanimous? <==>
            && (forall x :: x in rows ==> !IsTrusted(x))
            && (exists x :: x in rows && !IsInference(x))
            && (forall x, y :: x in rows && y in rows && !IsInference(x) && !IsInference(y) ==>
                  Summarise(render, x) == Summarise(render, y)))
      && (e.fact.Some? <==> !e.basis.Unresolved?) && (e.resolutionRequired <==> e.basis.Unresolved?)
      && (e.fact.Some? ==> e.fact.value in rows && !IsInference(e.fact.value))
      && (e.conflictPresent <==> exists x, y :: x in rows && y in rows && Summarise(render, x) != Summarise(render, y))
  {
    AuthorityDecides(render, rows);
    AtMostOneAuthority(rows);
    AgreementDecides(render, rows);
    SingletonSummaries(render, rows);
  }

  lemma DecidedByNonInference(render: Value -> string, rows: seq<Row>)
    requires SoundGroup(rows)
    ensures var e := EffectiveOf(render, rows);
      e.Some? && e.value.fact.Some? ==> e.value.fact.value in rows && !IsInference(e.value.fact.value)
  {
    if rows != [] { AuthorityDecides(render, rows); }
  }

  lemma NonInferenceComesFromNoModel(facts: seq<Fact>, x: Row)
    requires DerivedProvenance(facts) && x.id < |facts| && x.fact == facts[x.id] && !IsInference(x)
    ensures !x.fact.sourceType.AiInference?
  {
    assert facts[x.id].statementClass == StatementClassFor(facts[x.id].sourceType);
  }

  lemma GroupRowIsAFact(facts: seq<Fact>, asset: AssetId, predicateName: string, kind: FactKind, x: Row)
    requires x in LiveFactsOf(facts, asset, predicateName, kind)
    ensures x.id < |facts| && x.fact == facts[x.id]
  {
    GroupRowsAreFacts(facts, asset, predicateName, kind);
  }

  lemma GroupIsNotInference(facts: seq<Fact>, render: Value -> string, asset: AssetId, predicateName: string, kind: FactKind)
    requires DerivedProvenance(facts) && SoundGroup(LiveFactsOf(facts, asset, predicateName, kind))
    ensures var e := EffectiveOf(render, LiveFactsOf(facts, asset, predicateName, kind));
      e.Some? && e.value.fact.Some? ==> !e.value.fact.value.fact.sourceType.AiInference?
  {
    var rows := LiveFactsOf(facts, asset, predicateName, kind);
    DecidedByNonInference(render, rows);
    var e := EffectiveOf(render, rows);
    if e.Some? && e.value.fact.Some? {
      GroupRowIsAFact(facts, asset, predicateName, kind, e.value.fact.value);
      NonInferenceComesFromNoModel(facts, e.value.fact.value);
    }
  }

  /** In every reachable state the effective value of anything is never an inference: it is the claim of an accepted assert
      that came from no model, or a principal's declaration. */
  lemma {:induction false} EffectiveIsNeverInference(same: Equality, ops: seq<Op>, t: Time, render: Value -> string,
                                                     asset: AssetId, predicateName: string, kind: FactKind)
    requires Monotone(ops) && forall i :: 0 <= i < |ops| ==> ops[i].now <= t
    ensures var e := EffectiveOf(render, LiveFactsOf(Run(same, EMPTY, ops).facts, asset, predicateName, kind));
      e.Some? && e.value.fact.Some? ==>
        var x := e.value.fact.value;
        && !x.fact.sourceType.AiInference?
        && exists k ::
             && 0 <= k < |ops| && A.Opens(same, Run(same, EMPTY, ops[..k]), ops[k], x.id, x.fact)
             && (ops[k].DoAssert? ==> !ops[k].claim.sourceType.AiInference?)
  {
    SafetyOverRuns(same, ops, t);
    var s := Run(same, EMPTY, ops);
    GroupIsSound(s, t, asset, predicateName, kind);
    GroupIsNotInference(s.facts, render, asset, predicateName, kind);
    var e := EffectiveOf(render, LiveFactsOf(s.facts, asset, predicateName, kind));
    if e.Some? && e.value.fact.Some? {
      EffectiveRowIsAFact(render, s.facts, asset, predicateName, kind);
      var k := A.EveryRowWasClaimed(same, ops, e.value.fact.value.id);
    }
  }

  lemma EffectiveRowIsAFact(render: Value -> string, facts: seq<Fact>, asset: AssetId, predicateName: string, kind: FactKind)
    requires SoundGroup(LiveFactsOf(facts, asset, predicateName, kind))
    ensures var e := EffectiveOf(render, LiveFactsOf(facts, asset, predicateName, kind));
      e.Some? && e.value.fact.Some? ==> e.value.fact.value.id < |facts| && e.value.fact.value.fact == facts[e.value.fact.value.id]
  {
    var rows := LiveFactsOf(facts, asset, predicateName, kind);
    DecidedByNonInference(render, rows);
    var e := EffectiveOf(render, rows);
    if e.Some? && e.value.fact.Some? { GroupRowIsAFact(facts, asset, predicateName, kind, e.value.fact.value); }
  }

  lemma {:induction false} AuthorityIsNonInference(rows: seq<Row>)
    requires forall x :: x in rows ==> RowChecks(x.fact)
    ensures Authoritative(rows) == Authoritative(NonInference(rows))
  {
    if rows != [] {
      var front, x := rows[..|rows| - 1], rows[|rows| - 1];
      assert rows == front + [x] && x in rows;
      AuthorityIsNonInference(front);
      FilterAppend(MayVote, front, x);
      FilterAppend(IsTrusted, front, x);
      FilterAppend(IsTrusted, NonInference(front), x);
    }
  }

  /** Inferences cannot sway the value: two sets of live claims that differ only in inferences are decided alike,
      on the same basis and with the same fact, whenever some other claim is live. */
  lemma InferenceCannotSway(render: Value -> string, rows: seq<Row>, others: seq<Row>)
    requires forall x :: x in rows || x in others ==> RowChecks(x.fact)
    requires NonInference(rows) == NonInference(others) != []
    ensures EffectiveOf(render, rows).Some? && EffectiveOf(render, others).Some?
    ensures EffectiveOf(render, rows).value.basis == EffectiveOf(render, others).value.basis
    ensures EffectiveOf(render, rows).value.fact == EffectiveOf(render, others).value.fact
  {
    AuthorityIsNonInference(rows);
    AuthorityIsNonInference(others);
    assert NonInference([]) == [];
  }

  // ---- Conflict listing ----

  datatype GroupKey = GroupKey(predicateName: string, kind: FactKind)

  datatype PredicateConflict = PredicateConflict(key: GroupKey, distinctValues: nat, claims: seq<Row>)

  function KeyOf(x: Row): GroupKey { GroupKey(x.fact.predicateName, x.fact.kind) }

  /** Python compares the (predicate, kind) tuples; DESIRED_STATE sorts before OBSERVED_STATE. */
  predicate KeyLess(a: GroupKey, b: GroupKey) {
    Orders.StringLess(a.predicateName, b.predicateName)
    || (a.predicateName == b.predicateName && a.kind.DesiredState? && b.kind.ObservedState?)
  }

  lemma KeyOrder()
    ensures Orders.StrictOrder(KeyLess)
  {
    Orders.StringOrder();
  }

  function GroupOf(rows: seq<Row>, key: GroupKey): seq<Row> { Filter(InGroupOf(key.predicateName, key.kind), rows) }

  /** The groups of a conflict listing that disagree, in the order of the given keys. */
  function Disagreements(render: Value -> string, rows: seq<Row>, keys: seq<GroupKey>): seq<PredicateConflict> {
    if keys == [] then []
    else
      var last := |keys| - 1;
      var group := GroupOf(rows, keys[last]);
      var earlier := Disagreements(render, rows, keys[..last]);
      if |Summaries(render, group)| > 1 then earlier + [PredicateConflict(keys[last], |Summaries(render, group)|, group)]
      else earlier
  }

  function Keys(rows: seq<Row>): set<GroupKey> { set x | x in rows :: KeyOf(x) }

  /** sorted(grouped): the keys of the rows in order. */
  function SortedKeys(keys: set<GroupKey>): (r: seq<GroupKey>)
    ensures forall k :: k in r <==> k in keys
  {
    KeyOrder();
    Orders.Sorted(KeyLess, keys)
  }

  lemma SortedKeysAscend(keys: set<GroupKey>)
    ensures Orders.Ascending(KeyLess, SortedKeys(keys))
  {
    KeyOrder();
    Orders.SortedAscends(KeyLess, keys);
  }

  lemma NoRowsOutsideKeys(rows: seq<Row>, k: GroupKey)
    ensures GroupOf(rows, k) == [] || k in Keys(rows)
  {
    var group := GroupOf(rows, k);
    FilterMembers(InGroupOf(k.predicateName, k.kind), rows);
    if group != [] {
      assert group[0] in group;
      assert KeyOf(group[0]) == k;
    }
  }

  ghost predicate Grouped(grouped: map<GroupKey, seq<Row>>, rows: seq<Row>) {
    grouped.Keys == Keys(rows) && forall k :: k in grouped ==> grouped[k] == GroupOf(rows, k)
  }

  /** Adding a row to the list under its key, or starting that list. */
  lemma GroupNext(grouped: map<GroupKey, seq<Row>>, rows: seq<Row>, x: Row)
    requires Grouped(grouped, rows)
    ensures var k := KeyOf(x);
      Grouped(grouped[k := (if k in grouped then grouped[k] else []) + [x]], rows + [x])
  {
    var k := KeyOf(x);
    var more := grouped[k := (if k in grouped then grouped[k] else []) + [x]];
    NoRowsOutsideKeys(rows, k);
    assert forall y :: y in rows + [x] <==> y in rows || y == x;
    forall key | key in more ensures more[key] == GroupOf(rows + [x], key) {
      FilterAppend(InGroupOf(key.predicateName, key.kind), rows, x);
      assert InGroup(x, key.predicateName, key.kind) <==> key == k;
    }
  }

  /** The grouping loop: each row joins the list under its key. */
  method GroupRows(rows: seq<Row>) returns (grouped: map<GroupKey, seq<Row>>)
    ensures grouped.Keys == Keys(rows)
    ensures forall k :: k in grouped ==> grouped[k] == GroupOf(rows, k)
  {
    grouped := map[];
    var i := 0;
    while i < |rows|
      invariant i <= |rows|
      invariant Grouped(grouped, rows[..i])
    {
      var k := KeyOf(rows[i]);
      GroupNext(grouped, rows[..i], rows[i]);
      TakeNext(rows, i);
      grouped := grouped[k := (if k in grouped then grouped[k] else []) + [rows[i]]];
      i := i + 1;
    }
    assert rows[..|rows|] == rows;
  }

  lemma DisagreementsNext(render: Value -> string, rows: seq<Row>, keys: seq<GroupKey>, key: GroupKey)
    ensures Disagreements(render, rows, keys + [key])
         == if |Summaries(render, GroupOf(rows, key))| > 1
            then Disagreements(render, rows, keys)
                   + [PredicateConflict(key, |Summaries(render, GroupOf(rows, key))|, GroupOf(rows, key))]
            else Disagreements(render, rows, keys)
  {
    assert (keys + [key])[..|keys|] == keys;
  }

  /** FactService.conflicts on an asset's live rows: group in a dict, then walk the sorted keys. */
  method Conflicts(render: Value -> string, rows: seq<Row>) returns (conflicts: seq<PredicateConflict>)
    ensures conflicts == Disagreements(render, rows, SortedKeys(Keys(rows)))
  {
    var grouped := GroupRows(rows);
    var keys := SortedKeys(grouped.Keys);
    conflicts := [];
    var n := 0;
    while n < |keys|
      invariant n <= |keys|
      invariant conflicts == Disagreements(render, rows, keys[..n])
    {
      var key := keys[n];
      assert key in keys;
      TakeNext(keys, n);
      DisagreementsNext(render, rows, keys[..n], key);
      var distinct := Summaries(render, grouped[key]);
      if |distinct| > 1 {
        conflicts := conflicts + [PredicateConflict(key, |distinct|, grouped[key])];
      }
      n := n + 1;
    }
    assert keys[..|keys|] == keys;
  }

  ghost predicate Lists(conflicts: seq<PredicateConflict>, key: GroupKey) {
    exists i :: 0 <= i < |conflicts| && conflicts[i].key == key
  }

  lemma ListsAppend(conflicts: seq<PredicateConflict>, c: PredicateConflict, key: GroupKey)
    ensures Lists(conflicts + [c], key) <==> Lists(conflicts, key) || c.key == key
  {
    var more := conflicts + [c];
    if Lists(conflicts, key) {
      var i :| 0 <= i < |conflicts| && conflicts[i].key == key;
      assert more[i].key == key;
    }
    if c.key == key { assert more[|conflicts|].key == key; }
  }

  lemma {:induction false} DisagreementsListed(render: Value -> string, rows: seq<Row>, keys: seq<GroupKey>, key: GroupKey)
    ensures Lists(Disagreements(render, rows, keys), key) <==> key in keys && |Summaries(render, GroupOf(rows, key))| > 1
  {
    if keys != [] {
      var front, last := keys[..|keys| - 1], keys[|keys| - 1];
      DisagreementsListed(render, rows, front, key);
      var group := GroupOf(rows, last);
      ListsAppend(Disagreements(render, rows, front), PredicateConflict(last, |Summaries(render, group)|, group), key);
      assert key in keys <==> key in front || key == last;
    }
  }

  ghost predicate Faithful(render: Value -> string, rows: seq<Row>, ds: seq<PredicateConflict>) {
    forall i :: 0 <= i < |ds| ==>
      ds[i].claims == GroupOf(rows, ds[i].key) && ds[i].distinctValues == |Summaries(render, ds[i].claims)|
  }

  ghost predicate KeysAscend(ds: seq<PredicateConflict>) {
    forall i, j :: 0 <= i < j < |ds| ==> KeyLess(ds[i].key, ds[j].key)
  }

  lemma {:induction false} DisagreementsExactly(render: Value -> string, rows: seq<Row>, keys: seq<GroupKey>)
    requires Orders.Ascending(KeyLess, keys)
    ensures Faithful(render, rows, Disagreements(render, rows, keys))
    ensures KeysAscend(Disagreements(render, rows, keys))
  {
    if keys != [] {
      var front, last := keys[..|keys| - 1], keys[|keys| - 1];
      DisagreementsExactly(render, rows, front);
      var fs := Disagreements(render, rows, front);
      forall i | 0 <= i < |fs| ensures KeyLess(fs[i].key, last) {
        assert Lists(fs, fs[i].key);
        DisagreementsListed(render, rows, front, fs[i].key);
      }
    }
  }

  lemma ConflictIsListed(render: Value -> string, rows: seq<Row>)
    ensures |Summaries(render, rows)| > 1 <==> EffectiveOf(render, rows).Some? && EffectiveOf(render, rows).value.conflictPresent
  {
    if rows == [] { assert Summaries(render, rows) == {}; }
  }

  /** The listing names exactly the predicates and kinds whose effective value reports a conflict, each once, in
      order, with all of the group's live claims in the order the effective value sees them. */
  lemma ListingAgreesWithEffective(render: Value -> string, facts: seq<Fact>, asset: AssetId, key: GroupKey)
    ensures var rows := LiveFacts(facts, asset);
      var ds := Disagreements(render, rows, SortedKeys(Keys(rows)));
      var e := EffectiveOf(render, LiveFactsOf(facts, asset, key.predicateName, key.kind));
      && (Lists(ds, key) <==> e.Some? && e.value.conflictPresent)
      && (forall i, j :: 0 <= i < j < |ds| ==> KeyLess(ds[i].key, ds[j].key))
      && (forall i :: 0 <= i < |ds| && ds[i].key == key ==>
            ds[i].claims == LiveFactsOf(facts, asset, key.predicateName, key.kind))
  {
    var rows := LiveFacts(facts, asset);
    SortedKeysAscend(Keys(rows));
    DisagreementsExactly(render, rows, SortedKeys(Keys(rows)));
    DisagreementsListed(render, rows, SortedKeys(Keys(rows)), key);
    FilterCommutesWithSort(InGroupOf(key.predicateName, key.kind), LiveRows(facts, asset));
    NoRowsOutsideKeys(rows, key);
    ConflictIsListed(render, GroupOf(rows, key));
  }
}
