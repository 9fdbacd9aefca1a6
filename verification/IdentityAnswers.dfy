/** What a request comes to, told over the identifiers as they were presented. */
module IdentityAnswers {
  import opened Base
  import opened Identity

  /** The key a presented identifier is stored and looked up under. */
  function KeyOf(normal: Key -> string, p: Key): Key { Key(p.namespace, normal(p)) }

  ghost predicate PresentsKey(normal: Key -> string, presented: seq<Key>, key: Key) {
    exists k :: 0 <= k < |presented| && KeyOf(normal, presented[k]) == key
  }

  /** The row is live under a presented identifier of a namespace that identifies. */
  ghost predicate Identifies(r: Row, normal: Key -> string, presented: seq<Key>) {
    r.retiredAt == None && r.key.namespace in UNIQUE_NAMESPACES && PresentsKey(normal, presented, r.key)
  }

  ghost predicate IsHolder(rows: seq<Row>, normal: Key -> string, presented: seq<Key>, asset: AssetId) {
    exists i :: 0 <= i < |rows| && rows[i].asset == asset && Identifies(rows[i], normal, presented)
  }

  ghost predicate HasLive(rows: seq<Row>, asset: AssetId, key: Key) {
    exists i :: 0 <= i < |rows| && rows[i].asset == asset && rows[i].key == key && rows[i].retiredAt == None
  }

  /** Two presented identifiers are one after normalisation, and the asset does not have it. */
  ghost predicate Doubled(rows: seq<Row>, asset: AssetId, normal: Key -> string, presented: seq<Key>) {
    exists i, j :: 0 <= i < j < |presented| && KeyOf(normal, presented[i]) == KeyOf(normal, presented[j])
      && !HasLive(rows, asset, KeyOf(normal, presented[i]))
  }

  /** The row is one the request inserts: a presented identifier the asset did not have. */
  ghost predicate IsInserted(r: Row, rows: seq<Row>, asset: AssetId, normal: Key -> string, presented: seq<Key>, now: Time) {
    && PresentsKey(normal, presented, r.key) && !HasLive(rows, asset, r.key)
    && r == Row(asset, r.key, r.key.namespace in UNIQUE_NAMESPACES, now, None)
  }

  /** What the identifier table holds afterwards: every row that was there, the asset's presented ones sighted now; then
      what the asset did not have; so all that was presented. */
  ghost predicate Carried(s: State, n: State, asset: AssetId, normal: Key -> string, presented: seq<Key>, now: Time) {
    && |s.rows| <= |n.rows|
    && (forall i :: 0 <= i < |s.rows| ==>
          var r := s.rows[i];
          n.rows[i] == if r.retiredAt == None && r.asset == asset && PresentsKey(normal, presented, r.key)
                       then r.(lastSeen := now) else r)
    && (forall i :: |s.rows| <= i < |n.rows| ==> IsInserted(n.rows[i], s.rows, asset, normal, presented, now))
    && (forall k :: 0 <= k < |presented| ==> HasLive(n.rows, asset, KeyOf(normal, presented[k])))
  }

  /** The items of a request with nothing empty in it. */
  ghost predicate ItemsOf(normal: Key -> string, presented: seq<Key>, items: seq<Item>) {
    && |items| == |presented|
    && forall k :: 0 <= k < |presented| ==>
         items[k] == Item(KeyOf(normal, presented[k]), presented[k].namespace in UNIQUE_NAMESPACES)
  }

  lemma Normalised(normal: Key -> string, presented: seq<Key>) returns (items: seq<Item>)
    requires forall k :: 0 <= k < |presented| ==> normal(presented[k]) != ""
    ensures NormaliseAll(normal, presented) == Some(items) && ItemsOf(normal, presented, items) && FaithfulItems(items)
  {
    NormalisedExactly(normal, presented);
    items := NormaliseAll(normal, presented).value;
  }

  lemma PresentsAlike(normal: Key -> string, presented: seq<Key>, items: seq<Item>, key: Key)
    requires ItemsOf(normal, presented, items)
    ensures Presents(items, key) <==> PresentsKey(normal, presented, key)
    ensures Item(key, true) in items <==> key.namespace in UNIQUE_NAMESPACES && PresentsKey(normal, presented, key)
  {
    if k :| 0 <= k < |presented| && KeyOf(normal, presented[k]) == key { assert items[k].key == key; }
    if k :| 0 <= k < |items| && items[k].key == key { assert KeyOf(normal, presented[k]) == key; }
  }

  lemma HoldersAlike(s: State, normal: Key -> string, presented: seq<Key>, items: seq<Item>, asset: AssetId)
    requires ItemsOf(normal, presented, items)
    ensures Holder(s.rows, items, asset) <==> IsHolder(s.rows, normal, presented, asset)
  {
    forall i | 0 <= i < |s.rows| ensures Hits(s.rows[i], items) <==> Identifies(s.rows[i], normal, presented) {
      PresentsAlike(normal, presented, items, s.rows[i].key);
    }
  }

  lemma CarriesAlike(rows: seq<Row>, asset: AssetId, key: Key)
    ensures Carries(rows, asset, key) <==> HasLive(rows, asset, key)
  {
    if i :| 0 <= i < |rows| && rows[i].asset == asset && rows[i].key == key && rows[i].retiredAt == None {
      assert LiveOn(rows[i], asset, key);
    }
  }

  lemma DoubledAlike(rows: seq<Row>, asset: AssetId, normal: Key -> string, presented: seq<Key>, items: seq<Item>)
    requires ItemsOf(normal, presented, items)
    ensures Collides(rows, asset, items) <==> Doubled(rows, asset, normal, presented)
  {
    if i, j :| 0 <= i < j < |items| && items[i].key == items[j].key && !Carries(rows, asset, items[i].key) {
      CarriesAlike(rows, asset, items[i].key);
      assert KeyOf(normal, presented[i]) == KeyOf(normal, presented[j]);
    }
    if i, j :| 0 <= i < j < |presented| && KeyOf(normal, presented[i]) == KeyOf(normal, presented[j])
               && !HasLive(rows, asset, KeyOf(normal, presented[i])) {
      CarriesAlike(rows, asset, items[i].key);
      assert items[i].key == items[j].key;
    }
  }

  lemma AddedIsInserted(rows: seq<Row>, asset: AssetId, normal: Key -> string, presented: seq<Key>, items: seq<Item>,
                        now: Time, r: Row)
    requires ItemsOf(normal, presented, items) && r in Added(rows, asset, items, now)
    ensures IsInserted(r, rows, asset, normal, presented, now)
  {
    AddedExactly(rows, asset, items, now);
    var i :| IsRowFor(r, rows, asset, items, i, now);
    assert KeyOf(normal, presented[i]) == r.key;
    CarriesAlike(rows, asset, r.key);
  }

  lemma PresentedIsLive(rows: seq<Row>, asset: AssetId, items: seq<Item>, now: Time, key: Key)
    requires Presents(items, key)
    ensures HasLive(WithAttached(rows, asset, items, now), asset, key)
  {
    var seen, added := Seen(rows, asset, items, now), Added(rows, asset, items, now);
    AddedHas(rows, asset, items, now, key);
    AddedExactly(rows, asset, items, now);
    if i :| 0 <= i < |rows| && LiveOn(rows[i], asset, key) {
      assert LiveOn(WithAttached(rows, asset, items, now)[i], asset, key);
    } else {
      var j :| 0 <= j < |added| && added[j].key == key;
      assert added[j] in added && WithAttached(rows, asset, items, now)[|seen| + j] == added[j];
    }
    CarriesAlike(WithAttached(rows, asset, items, now), asset, key);
  }

  lemma AttachCarries(s: State, n: State, asset: AssetId, normal: Key -> string, presented: seq<Key>, items: seq<Item>,
                      now: Time)
    requires ItemsOf(normal, presented, items) && n.rows == WithAttached(s.rows, asset, items, now)
    ensures Carried(s, n, asset, normal, presented, now)
  {
    var added := Added(s.rows, asset, items, now);
    forall i | 0 <= i < |s.rows| ensures Presents(items, s.rows[i].key) <==> PresentsKey(normal, presented, s.rows[i].key) {
      PresentsAlike(normal, presented, items, s.rows[i].key);
    }
    forall i | |s.rows| <= i < |n.rows| ensures IsInserted(n.rows[i], s.rows, asset, normal, presented, now) {
      assert n.rows[i] == added[i - |s.rows|] && added[i - |s.rows|] in added;
      AddedIsInserted(s.rows, asset, normal, presented, items, now, n.rows[i]);
    }
    forall k | 0 <= k < |presented| ensures HasLive(n.rows, asset, KeyOf(normal, presented[k])) {
      assert items[k].key == KeyOf(normal, presented[k]);
      PresentedIsLive(s.rows, asset, items, now, items[k].key);
    }
  }

  // ---- The answers ----

  /** A value that normalises to nothing, in any of the identifiers, refuses the request. */
  lemma EmptyValueRefuses(s: State, normal: Key -> string, presented: seq<Key>, createIfMissing: bool, now: Time)
    ensures Resolution(s, normal, presented, createIfMissing, now) == Refused(VocabularyError) <==>
      exists k :: 0 <= k < |presented| && normal(presented[k]) == ""
  {
    NormalisedExactly(normal, presented);
  }

  /** One asset has live identifiers that were presented: the request matches it, whatever else it presents, and leaves the
      asset with all of it; unless two presented identifiers are one and new to the asset. */
  lemma RequestMatches(s: State, normal: Key -> string, presented: seq<Key>, createIfMissing: bool, now: Time, a: AssetId)
    requires Inv(s) && forall k :: 0 <= k < |presented| ==> normal(presented[k]) != ""
    requires IsHolder(s.rows, normal, presented, a) && forall b :: IsHolder(s.rows, normal, presented, b) ==> b == a
    ensures var r := Resolution(s, normal, presented, createIfMissing, now);
      if Doubled(s.rows, a, normal, presented) then r == Refused(IntegrityError)
      else r.Committed? && r.report.Matched? && r.report.asset == a && a < |s.assets| && r.next.assets == s.assets[a := now]
           && Carried(s, r.next, a, normal, presented, now)
           && forall namespace :: namespace in r.report.matchedOn <==>
                exists i :: 0 <= i < |s.rows| && s.rows[i].asset == a && Identifies(s.rows[i], normal, presented)
                  && s.rows[i].key.namespace == namespace
  {
    var items := Normalised(normal, presented);
    forall b ensures Holder(s.rows, items, b) <==> IsHolder(s.rows, normal, presented, b) {
      HoldersAlike(s, normal, presented, items, b);
    }
    OneHolderMatches(s, items, createIfMissing, now, a);
    DoubledAlike(s.rows, a, normal, presented, items);
    var r := ResolveItems(s, items, createIfMissing, now);
    if r.Committed? {
      var i :| 0 <= i < |s.rows| && s.rows[i].asset == a && Identifies(s.rows[i], normal, presented);
      AttachCarries(s, r.next, a, normal, presented, items, now);
      MatchedNames(s, normal, presented, items, a);
      assert r.report.matchedOn == Matches(s.rows, items)[a];
    }
  }

  lemma MatchedNames(s: State, normal: Key -> string, presented: seq<Key>, items: seq<Item>, a: AssetId)
    requires ItemsOf(normal, presented, items) && a in Matches(s.rows, items)
    ensures forall namespace :: namespace in Matches(s.rows, items)[a] <==>
      exists i :: 0 <= i < |s.rows| && s.rows[i].asset == a && Identifies(s.rows[i], normal, presented)
        && s.rows[i].key.namespace == namespace
  {
    forall i | 0 <= i < |s.rows| ensures Hits(s.rows[i], items) <==> Identifies(s.rows[i], normal, presented) {
      PresentsAlike(normal, presented, items, s.rows[i].key);
    }
    forall namespace
      ensures namespace in Matches(s.rows, items)[a] <==>
        exists i :: 0 <= i < |s.rows| && s.rows[i].asset == a && Identifies(s.rows[i], normal, presented)
          && s.rows[i].key.namespace == namespace
    {
      MatchedOnExactly(s.rows, items, a, namespace);
    }
  }

  /** No asset has: a new one is made, if that is allowed, with all that was presented. */
  lemma RequestCreates(s: State, normal: Key -> string, presented: seq<Key>, createIfMissing: bool, now: Time)
    requires Inv(s) && forall k :: 0 <= k < |presented| ==> normal(presented[k]) != ""
    requires forall b :: !IsHolder(s.rows, normal, presented, b)
    ensures var r := Resolution(s, normal, presented, createIfMissing, now); var a := |s.assets|;
      if !createIfMissing then r == Refused(IdentityConflict(map[]))
      else if Doubled(s.rows, a, normal, presented) then r == Refused(IntegrityError)
      else r.Committed? && r.report == Created(a) && r.next.assets == s.assets + [now]
           && Carried(s, r.next, a, normal, presented, now)
  {
    var items := Normalised(normal, presented);
    forall b ensures Holder(s.rows, items, b) <==> IsHolder(s.rows, normal, presented, b) {
      HoldersAlike(s, normal, presented, items, b);
    }
    NoHolderCreates(s, items, createIfMissing, now);
    DoubledAlike(s.rows, |s.assets|, normal, presented, items);
    var r := ResolveItems(s, items, createIfMissing, now);
    if r.Committed? { AttachCarries(s, r.next, |s.assets|, normal, presented, items, now); }
  }

  /** Several assets have: nothing is written, and the refusal names exactly them. */
  lemma RequestConflicts(s: State, normal: Key -> string, presented: seq<Key>, createIfMissing: bool, now: Time,
                         a: AssetId, b: AssetId)
    requires forall k :: 0 <= k < |presented| ==> normal(presented[k]) != ""
    requires a != b && IsHolder(s.rows, normal, presented, a) && IsHolder(s.rows, normal, presented, b)
    ensures var r := Resolution(s, normal, presented, createIfMissing, now);
      && r.Refused? && r.error.IdentityConflict?
      && forall c :: c in r.error.candidates <==> IsHolder(s.rows, normal, presented, c)
  {
    var items := Normalised(normal, presented);
    forall c ensures Holder(s.rows, items, c) <==> IsHolder(s.rows, normal, presented, c) {
      HoldersAlike(s, normal, presented, items, c);
    }
    ManyHoldersRefuse(s, items, createIfMissing, now, a, b);
  }

  // ---- Identity over time ----

  ghost predicate Unique(p: Key) { p.namespace in UNIQUE_NAMESPACES }

  /** Identity is stable: whatever resolves, attaches and retirements happen in between, a later request all of whose
      unique identifiers are ones the asset held and that were not retired since resolves to that asset and no other. */
  lemma {:induction false} IdentityIsStable(s: State, normal: Key -> string, ops: seq<Op>, asset: AssetId,
                                            presented: seq<Key>, createIfMissing: bool, now: Time)
    requires Inv(s) && (forall k :: 0 <= k < |presented| ==> normal(presented[k]) != "")
    requires exists k :: 0 <= k < |presented| && Unique(presented[k])
    requires forall k :: 0 <= k < |presented| && Unique(presented[k]) ==>
      exists i ::
        0 <= i < |s.rows| && LiveOn(s.rows[i], asset, KeyOf(normal, presented[k]))
        && i < |Run(s, normal, ops).rows| && Live(Run(s, normal, ops).rows[i])
    ensures var later := Run(s, normal, ops); var r := Resolution(later, normal, presented, createIfMissing, now);
      if Doubled(later.rows, asset, normal, presented) then r == Refused(IntegrityError)
      else r.Committed? && r.report.Matched? && r.report.asset == asset
  {
    var items := Normalised(normal, presented);
    var k0 :| 0 <= k0 < |presented| && Unique(presented[k0]);
    assert items[k0].unique;
    forall k | 0 <= k < |items| && items[k].unique
      ensures exists i ::
        0 <= i < |s.rows| && LiveOn(s.rows[i], asset, items[k].key)
        && i < |Run(s, normal, ops).rows| && Live(Run(s, normal, ops).rows[i])
    {
      assert Unique(presented[k]) && items[k].key == KeyOf(normal, presented[k]);
    }
    HeldItemsDecide(s, normal, ops, asset, items, createIfMissing, now);
    DoubledAlike(Run(s, normal, ops).rows, asset, normal, presented, items);
  }

  /** Once a request resolved to an asset, a later one whose unique identifiers were all presented by it, and are all still
      live where it left them, resolves to the same asset, whatever happened in between. */
  lemma {:induction false} ResolvesAlike(s: State, normal: Key -> string, presented: seq<Key>, create: bool, now: Time,
                                         ops: seq<Op>, again: seq<Key>, createAgain: bool, later: Time)
    requires Inv(s) && Resolution(s, normal, presented, create, now).Committed?
    requires forall k :: 0 <= k < |again| ==> normal(again[k]) != ""
    requires exists k :: 0 <= k < |again| && Unique(again[k])
    requires forall k :: 0 <= k < |again| && Unique(again[k]) ==> PresentsKey(normal, presented, KeyOf(normal, again[k]))
    requires var r := Resolution(s, normal, presented, create, now);
      forall i, k ::
        0 <= i < |r.next.rows| && 0 <= k < |again| && Unique(again[k])
        && LiveOn(r.next.rows[i], r.report.asset, KeyOf(normal, again[k])) ==>
          i < |Run(r.next, normal, ops).rows| && Live(Run(r.next, normal, ops).rows[i])
    ensures var r := Resolution(s, normal, presented, create, now); var end := Run(r.next, normal, ops);
      var answer := Resolution(end, normal, again, createAgain, later);
      if Doubled(end.rows, r.report.asset, normal, again) then answer == Refused(IntegrityError)
      else answer.Committed? && answer.report.Matched? && answer.report.asset == r.report.asset
  {
    var r := Resolution(s, normal, presented, create, now);
    ResolvedKeepsInv(s, normal, presented, create, now);
    forall k | 0 <= k < |again| && Unique(again[k])
      ensures exists i ::
        0 <= i < |r.next.rows| && LiveOn(r.next.rows[i], r.report.asset, KeyOf(normal, again[k]))
        && i < |Run(r.next, normal, ops).rows| && Live(Run(r.next, normal, ops).rows[i])
    {
      var i := ResolvedCarries(s, normal, presented, create, now, KeyOf(normal, again[k]));
    }
    IdentityIsStable(r.next, normal, ops, r.report.asset, again, createAgain, later);
  }

  lemma ResolvedKeepsInv(s: State, normal: Key -> string, presented: seq<Key>, create: bool, now: Time)
    requires Inv(s) && Resolution(s, normal, presented, create, now).Committed?
    ensures var r := Resolution(s, normal, presented, create, now); Inv(r.next) && (r.report.Matched? || r.report.Created?)
  {
    NormalisedFaithfully(normal, presented);
    ResolveKeepsInv(s, NormaliseAll(normal, presented).value, create, now);
  }

  /** What resolution leaves the asset carrying: everything presented. */
  lemma ResolvedCarries(s: State, normal: Key -> string, presented: seq<Key>, create: bool, now: Time, key: Key)
    returns (i: nat)
    requires Inv(s) && Resolution(s, normal, presented, create, now).Committed? && PresentsKey(normal, presented, key)
    requires var r := Resolution(s, normal, presented, create, now).report; r.Matched? || r.Created?
    ensures var r := Resolution(s, normal, presented, create, now);
      i < |r.next.rows| && LiveOn(r.next.rows[i], r.report.asset, key)
  {
    NormalisedExactly(normal, presented);
    NormalisedFaithfully(normal, presented);
    var items := NormaliseAll(normal, presented).value;
    PresentsAlike(normal, presented, items, key);
    var j :| 0 <= j < |items| && items[j].key == key;
    ResolvedIsHeld(s, items, create, now, j);
    var r := Resolution(s, normal, presented, create, now);
    i :| 0 <= i < |r.next.rows| && LiveOn(r.next.rows[i], r.report.asset, key);
  }

  // ---- A single identifier ----

  /** Attaching one identifier: an unknown asset and an empty value are refused; what the asset has is sighted; what
      identifies another is refused; anything else is a new row. */
  lemma AttachAnswersExactly(s: State, asset: AssetId, normal: Key -> string, p: Key, now: Time)
    requires Inv(s)
    ensures var r, key := Attach(s, asset, normal, p, now), KeyOf(normal, p);
      if asset >= |s.assets| then r == Refused(NotFound)
      else if key.value == "" then r == Refused(VocabularyError)
      else if HasLive(s.rows, asset, key) then
        && r.Committed? && r.report.Attached? && r.report.row < |s.rows| && LiveOn(s.rows[r.report.row], asset, key)
        && r.next == s.(rows := s.rows[r.report.row := s.rows[r.report.row].(lastSeen := now)])
      else if Unique(p) && exists other :: HasLive(s.rows, other, key) then r == Refused(AttachedElsewhere)
      else r == Committed(s.(rows := s.rows + [Row(asset, key, Unique(p), now, None)]), Attached(|s.rows|))
  {
    var key := KeyOf(normal, p);
    AttachNeverTrips(s, asset, normal, p, now);
    FoundExactly(s.rows, Some(asset), key);
    FoundExactly(s.rows, None, key);
  }

  lemma FoundExactly(rows: seq<Row>, asset: Option<AssetId>, key: Key)
    ensures FindLive(rows, asset, key).Some? <==>
      if asset.Some? then HasLive(rows, asset.value, key) else exists other :: HasLive(rows, other, key)
  {
    var found := FindLive(rows, asset, key);
    if found.Some? {
      assert HasLive(rows, rows[found.value].asset, key);
    } else {
      forall i | 0 <= i < |rows| && rows[i].key == key && rows[i].retiredAt == None
        ensures asset.Some? && rows[i].asset != asset.value
      {
        assert LiveOn(rows[i], rows[i].asset, key);
      }
    }
  }
}
