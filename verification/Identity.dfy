/** Identity resolution: identifiers presented by a source lead to exactly one asset, or to a refusal. */
module Identity {
  import opened Base

  type AssetId = nat
  type Time = int

  datatype Key = Key(namespace: string, value: string)

  /** Namespaces whose values identify at most one live asset. */
  const UNIQUE_NAMESPACES: set<string> := {
    "serial", "smbios:uuid", "mac", "proxmox:instance", "proxmox:node", "proxmox:guest", "proxmox:storage",
    "proxmox:uuid", "docker:container-id"
  }

  /** A presented identifier once normalised. */
  datatype Item = Item(key: Key, unique: bool)

  /** One row of asset_identifier; its id is its position. */
  datatype Row = Row(asset: AssetId, key: Key, unique: bool, lastSeen: Time, retiredAt: Option<Time>)

  /** Assets by id, each with its last_seen_at; and the identifier table. */
  datatype State = State(assets: seq<Time>, rows: seq<Row>)

  predicate Live(r: Row) { r.retiredAt.None? }

  predicate LiveOn(r: Row, asset: AssetId, key: Key) { Live(r) && r.asset == asset && r.key == key }

  // ---- The partial unique indexes ----

  predicate PairChecks(r: Row, q: Row) {
    Live(r) && Live(q) && r.key == q.key ==> !(r.unique && q.unique) && r.asset != q.asset
  }

  predicate Constraints(rows: seq<Row>) { forall i, j :: 0 <= i < j < |rows| ==> PairChecks(rows[i], rows[j]) }

  /** Every row carries its namespace's uniqueness and belongs to an asset. */
  ghost predicate Faithful(s: State) {
    forall i :: 0 <= i < |s.rows| ==>
      s.rows[i].asset < |s.assets| && (s.rows[i].unique <==> s.rows[i].key.namespace in UNIQUE_NAMESPACES)
  }

  ghost predicate Inv(s: State) { Constraints(s.rows) && Faithful(s) }

  // ---- Steps ----

  datatype Error = VocabularyError | IdentityConflict(candidates: map<AssetId, seq<string>>) | NotFound | AttachedElsewhere
                 | AlreadyRetired | IntegrityError

  datatype Report =
    | Matched(asset: AssetId, matchedOn: seq<string>) | Created(asset: AssetId) | Attached(row: nat) | RetiredIdentifier(row: nat)

  datatype Result = Committed(next: State, report: Report) | Refused(error: Error)

  /** The registry's normaliser, and the empty value it refuses. An unregistered namespace is never unique. */
  function Normalise(normal: Key -> string, presented: Key): Option<Item> {
    var value := normal(presented);
    if value == "" then None
    else Some(Item(Key(presented.namespace, value), presented.namespace in UNIQUE_NAMESPACES))
  }

  function NormaliseAll(normal: Key -> string, presented: seq<Key>): Option<seq<Item>> {
    if presented == [] then Some([])
    else
      match (NormaliseAll(normal, presented[..|presented| - 1]), Normalise(normal, presented[|presented| - 1]))
      case (Some(items), Some(item)) => Some(items + [item])
      case _ => None
  }

  /** A live row under a presented unique identifier. */
  predicate Hits(r: Row, items: seq<Item>) { Live(r) && Item(r.key, true) in items }

  /** find_matches: the namespaces that matched, by asset. */
  function Matches(rows: seq<Row>, items: seq<Item>): map<AssetId, seq<string>> {
    if rows == [] then map[]
    else
      var earlier, r := Matches(rows[..|rows| - 1], items), rows[|rows| - 1];
      if Hits(r, items) then earlier[r.asset := (if r.asset in earlier then earlier[r.asset] else []) + [r.key.namespace]]
      else earlier
  }

  predicate Carries(rows: seq<Row>, asset: AssetId, key: Key) { exists i :: 0 <= i < |rows| && LiveOn(rows[i], asset, key) }

  predicate Presents(items: seq<Item>, key: Key) { exists i :: 0 <= i < |items| && items[i].key == key }

  /** The rows of the asset that were presented again have been seen now. */
  function Seen(rows: seq<Row>, asset: AssetId, items: seq<Item>, now: Time): (r: seq<Row>)
    ensures |r| == |rows|
  {
    seq(|rows|, i requires 0 <= i < |rows| =>
      if Live(rows[i]) && rows[i].asset == asset && Presents(items, rows[i].key) then rows[i].(lastSeen := now) else rows[i])
  }

  /** The rows inserted for what the asset did not carry before. */
  function Added(rows: seq<Row>, asset: AssetId, items: seq<Item>, now: Time): seq<Row> {
    if items == [] then []
    else
      var earlier, item := Added(rows, asset, items[..|items| - 1], now), items[|items| - 1];
      if Carries(rows, asset, item.key) then earlier else earlier + [Row(asset, item.key, item.unique, now, None)]
  }

  /** _attach_missing: what the asset carries is looked up once, before anything is added. */
  function WithAttached(rows: seq<Row>, asset: AssetId, items: seq<Item>, now: Time): seq<Row> {
    Seen(rows, asset, items, now) + Added(rows, asset, items, now)
  }

  function Flush(s: State, report: Report): Result {
    if Constraints(s.rows) then Committed(s, report) else Refused(IntegrityError)
  }

  lemma OneMember(keys: set<AssetId>, a: AssetId, b: AssetId)
    requires |keys| == 1 && a in keys && b in keys
    ensures a == b
  {
    assert |keys - {a}| == 0;
    assert b !in keys - {a};
  }

  function Only(keys: set<AssetId>): (a: AssetId)
    requires |keys| == 1
    ensures keys == {a}
  {
    assert keys != {};
    assert forall a, b :: a in keys && b in keys ==> a == b by {
      forall a, b | a in keys && b in keys ensures a == b { OneMember(keys, a, b); }
    }
    var a :| a in keys;
    a
  }

  /** IdentityResolver.resolve on identifiers already normalised. */
  function ResolveItems(s: State, items: seq<Item>, createIfMissing: bool, now: Time): Result {
    var matches := Matches(s.rows, items);
    if |matches.Keys| > 1 then Refused(IdentityConflict(matches))
    else if |matches.Keys| == 1 then
      var asset := Only(matches.Keys);
      if asset >= |s.assets| then Refused(IdentityConflict(map[]))
      else Flush(State(s.assets[asset := now], WithAttached(s.rows, asset, items, now)), Matched(asset, matches[asset]))
    else if !createIfMissing then Refused(IdentityConflict(map[]))
    else
      var asset := |s.assets|;
      Flush(State(s.assets + [now], WithAttached(s.rows, asset, items, now)), Created(asset))
  }

  function Resolution(s: State, normal: Key -> string, presented: seq<Key>, createIfMissing: bool, now: Time): Result {
    match NormaliseAll(normal, presented)
    case None => Refused(VocabularyError)
    case Some(items) => ResolveItems(s, items, createIfMissing, now)
  }

  /** The first row a query for live rows under a key finds, on one asset or on any. */
  function FindLive(rows: seq<Row>, asset: Option<AssetId>, key: Key): (r: Option<nat>)
    ensures r.Some? ==> r.value < |rows| && LiveOn(rows[r.value], rows[r.value].asset, key)
    ensures r.Some? && asset.Some? ==> rows[r.value].asset == asset.value
    ensures r.None? ==>
      forall i :: 0 <= i < |rows| && LiveOn(rows[i], rows[i].asset, key) ==> asset.Some? && rows[i].asset != asset.value
  {
    if rows == [] then None
    else
      var earlier, last := FindLive(rows[..|rows| - 1], asset, key), rows[|rows| - 1];
      if earlier.Some? then earlier
      else if LiveOn(last, last.asset, key) && (asset.None? || asset.value == last.asset) then Some(|rows| - 1)
      else None
  }

  /** AssetService.attach_identifier. */
  function Attach(s: State, asset: AssetId, normal: Key -> string, presented: Key, now: Time): Result {
    if asset >= |s.assets| then Refused(NotFound)
    else
      match Normalise(normal, presented)
      case None => Refused(VocabularyError)
      case Some(item) =>
        var existing := FindLive(s.rows, Some(asset), item.key);
        if existing.Some? then
          Flush(s.(rows := s.rows[existing.value := s.rows[existing.value].(lastSeen := now)]), Attached(existing.value))
        else if item.unique && FindLive(s.rows, None, item.key).Some? then Refused(AttachedElsewhere)
        else Flush(s.(rows := s.rows + [Row(asset, item.key, item.unique, now, None)]), Attached(|s.rows|))
  }

  /** AssetService.retire_identifier. */
  function RetireIdentifier(s: State, row: nat, now: Time): Result {
    if row >= |s.rows| then Refused(NotFound)
    else if !Live(s.rows[row]) then Refused(AlreadyRetired)
    else Flush(s.(rows := s.rows[row := s.rows[row].(retiredAt := Some(now))]), RetiredIdentifier(row))
  }

  datatype Op =
    | DoResolve(presented: seq<Key>, createIfMissing: bool, now: Time)
    | DoAttach(asset: AssetId, identifier: Key, now: Time)
    | DoRetire(row: nat, now: Time)

  function Apply(s: State, normal: Key -> string, op: Op): Result {
    match op
    case DoResolve(presented, createIfMissing, now) => Resolution(s, normal, presented, createIfMissing, now)
    case DoAttach(asset, identifier, now) => Attach(s, asset, normal, identifier, now)
    case DoRetire(row, now) => RetireIdentifier(s, row, now)
  }

  function Step(s: State, normal: Key -> string, op: Op): State {
    match Apply(s, normal, op) case Committed(next, _) => next case Refused(_) => s
  }

  function Run(s: State, normal: Key -> string, ops: seq<Op>): State {
    if ops == [] then s else Step(Run(s, normal, ops[..|ops| - 1]), normal, ops[|ops| - 1])
  }

  // ---- Who is matched ----

  lemma {:induction false} MatchesExactly(rows: seq<Row>, items: seq<Item>, asset: AssetId)
    ensures asset in Matches(rows, items) <==> exists i :: 0 <= i < |rows| && Hits(rows[i], items) && rows[i].asset == asset
  {
    if rows != [] {
      var front := rows[..|rows| - 1];
      MatchesExactly(front, items, asset);
      if i :| 0 <= i < |rows| && Hits(rows[i], items) && rows[i].asset == asset {
        if i < |rows| - 1 { assert front[i] == rows[i]; }
      }
      if i :| 0 <= i < |front| && Hits(front[i], items) && front[i].asset == asset { assert rows[i] == front[i]; }
    }
  }

  /** The namespaces reported for a matching asset are those of its rows that matched. */
  lemma {:induction false} MatchedOnExactly(rows: seq<Row>, items: seq<Item>, asset: AssetId, namespace: string)
    ensures asset in Matches(rows, items) && namespace in Matches(rows, items)[asset] <==>
      exists i :: 0 <= i < |rows| && Hits(rows[i], items) && rows[i].asset == asset && rows[i].key.namespace == namespace
  {
    if rows != [] {
      var front := rows[..|rows| - 1];
      MatchedOnExactly(front, items, asset, namespace);
      if i :| 0 <= i < |rows| && Hits(rows[i], items) && rows[i].asset == asset && rows[i].key.namespace == namespace {
        if i < |rows| - 1 { assert front[i] == rows[i]; }
      }
      if i :| 0 <= i < |front| && Hits(front[i], items) && front[i].asset == asset && front[i].key.namespace == namespace {
        assert rows[i] == front[i];
      }
    }
  }

  // ---- What an attach adds ----

  /** Two presented identifiers are the same after normalisation, and the asset carries neither: inserting both trips an index. */
  ghost predicate Collides(rows: seq<Row>, asset: AssetId, items: seq<Item>) {
    exists i, j :: 0 <= i < j < |items| && items[i].key == items[j].key && !Carries(rows, asset, items[i].key)
  }

  /** The row is what item i of the presented ones gives an asset that does not carry it. */
  ghost predicate IsRowFor(r: Row, rows: seq<Row>, asset: AssetId, items: seq<Item>, i: int, now: Time) {
    0 <= i < |items| && !Carries(rows, asset, items[i].key) && r == Row(asset, items[i].key, items[i].unique, now, None)
  }

  lemma {:induction false} AddedExactly(rows: seq<Row>, asset: AssetId, items: seq<Item>, now: Time)
    ensures forall r :: r in Added(rows, asset, items, now) <==> exists i :: IsRowFor(r, rows, asset, items, i, now)
  {
    if items != [] {
      var front, item := items[..|items| - 1], items[|items| - 1];
      AddedExactly(rows, asset, front, now);
      forall r ensures r in Added(rows, asset, items, now) <==> exists i :: IsRowFor(r, rows, asset, items, i, now) {
        if i :| IsRowFor(r, rows, asset, items, i, now) {
          assert i == |front| || IsRowFor(r, rows, asset, front, i, now);
        }
        if i :| IsRowFor(r, rows, asset, front, i, now) { assert IsRowFor(r, rows, asset, items, i, now); }
        assert r == Row(asset, item.key, item.unique, now, None) && !Carries(rows, asset, item.key) ==>
            IsRowFor(r, rows, asset, items, |front|, now);
      }
    }
  }

  ghost predicate HasKey(rows: seq<Row>, key: Key) { exists i :: 0 <= i < |rows| && rows[i].key == key }

  ghost predicate Distinct(rows: seq<Row>) { forall i, j :: 0 <= i < j < |rows| ==> rows[i].key != rows[j].key }

  lemma DistinctNext(rows: seq<Row>, r: Row)
    ensures Distinct(rows + [r]) <==> Distinct(rows) && !HasKey(rows, r.key)
  {
    var more := rows + [r];
    if Distinct(more) {
      forall i, j | 0 <= i < j < |rows| ensures rows[i].key != rows[j].key { assert more[i].key != more[j].key; }
      forall i | 0 <= i < |rows| ensures rows[i].key != r.key { assert more[i].key != more[|rows|].key; }
    }
  }

  lemma AddedHas(rows: seq<Row>, asset: AssetId, items: seq<Item>, now: Time, key: Key)
    ensures HasKey(Added(rows, asset, items, now), key) <==> !Carries(rows, asset, key) && Presents(items, key)
  {
    AddedExactly(rows, asset, items, now);
    var added := Added(rows, asset, items, now);
    if i :| 0 <= i < |added| && added[i].key == key { assert added[i] in added; }
    if i :| 0 <= i < |items| && items[i].key == key && !Carries(rows, asset, key) {
      var r := Row(asset, items[i].key, items[i].unique, now, None);
      assert IsRowFor(r, rows, asset, items, i, now) && r in added;
      var k :| 0 <= k < |added| && added[k] == r;
    }
  }

  lemma CollidesNext(rows: seq<Row>, asset: AssetId, items: seq<Item>, item: Item)
    ensures Collides(rows, asset, items + [item]) <==>
      Collides(rows, asset, items) || (!Carries(rows, asset, item.key) && Presents(items, item.key))
  {
    var more := items + [item];
    if i, j :| 0 <= i < j < |items| && items[i].key == items[j].key && !Carries(rows, asset, items[i].key) {
      assert more[i] == items[i] && more[j] == items[j];
    }
    if !Carries(rows, asset, item.key) && Presents(items, item.key) {
      var i :| 0 <= i < |items| && items[i].key == item.key;
      assert more[i] == items[i] && more[|items|] == item;
    }
  }

  /** The inserted rows carry no key twice exactly when the presented ones do not collide. */
  lemma {:induction false} AddedDistinct(rows: seq<Row>, asset: AssetId, items: seq<Item>, now: Time)
    ensures Distinct(Added(rows, asset, items, now)) <==> !Collides(rows, asset, items)
  {
    if items != [] {
      var front, item := items[..|items| - 1], items[|items| - 1];
      assert items == front + [item];
      AddedDistinct(rows, asset, front, now);
      AddedHas(rows, asset, front, now, item.key);
      CollidesNext(rows, asset, front, item);
      DistinctNext(Added(rows, asset, front, now), Row(asset, item.key, item.unique, now, None));
    }
  }

  ghost predicate FaithfulItems(items: seq<Item>) {
    forall i :: 0 <= i < |items| ==> (items[i].unique <==> items[i].key.namespace in UNIQUE_NAMESPACES)
  }

  /** A request is normalised exactly when no presented value normalises to nothing; and then item by item, each under its
      own namespace and with that namespace's uniqueness. */
  lemma {:induction false} NormalisedExactly(normal: Key -> string, presented: seq<Key>)
    ensures NormaliseAll(normal, presented).Some? <==> forall k :: 0 <= k < |presented| ==> normal(presented[k]) != ""
    ensures NormaliseAll(normal, presented).Some? ==>
      var items := NormaliseAll(normal, presented).value;
      && |items| == |presented|
      && forall k :: 0 <= k < |presented| ==>
           items[k] == Item(Key(presented[k].namespace, normal(presented[k])), presented[k].namespace in UNIQUE_NAMESPACES)
  {
    if presented != [] {
      var front := presented[..|presented| - 1];
      NormalisedExactly(normal, front);
      assert forall k | 0 <= k < |front| :: front[k] == presented[k];
    }
  }

  lemma NormalisedFaithfully(normal: Key -> string, presented: seq<Key>)
    ensures NormaliseAll(normal, presented).Some? ==> FaithfulItems(NormaliseAll(normal, presented).value)
  {
    NormalisedExactly(normal, presented);
  }

  /** No unique identifier presented is live on another asset. */
  ghost predicate NoOtherHolder(rows: seq<Row>, asset: AssetId, items: seq<Item>) {
    forall i :: 0 <= i < |rows| && Hits(rows[i], items) ==> rows[i].asset == asset
  }

  /** An inserted row clashes with none that was there. */
  lemma AddedClashWithNone(s: State, asset: AssetId, items: seq<Item>, now: Time, r: Row, k: nat)
    requires Inv(s) && FaithfulItems(items) && NoOtherHolder(s.rows, asset, items)
    requires r in Added(s.rows, asset, items, now) && k < |s.rows|
    ensures PairChecks(s.rows[k], r)
  {
    AddedExactly(s.rows, asset, items, now);
    var i :| IsRowFor(r, s.rows, asset, items, i, now);
    var q := s.rows[k];
    assert q.key == r.key && q.unique ==> items[i] == Item(q.key, true);
    assert !LiveOn(q, asset, r.key);
  }

  /** The database takes what an attach inserts exactly when nothing presented collides with itself. */
  lemma AttachMissingExactly(s: State, assets: seq<Time>, asset: AssetId, items: seq<Item>, now: Time)
    requires Inv(s) && FaithfulItems(items) && NoOtherHolder(s.rows, asset, items)
    requires |s.assets| <= |assets| && asset < |assets|
    ensures Constraints(WithAttached(s.rows, asset, items, now)) <==> !Collides(s.rows, asset, items)
    ensures Faithful(State(assets, WithAttached(s.rows, asset, items, now)))
  {
    var seen, added := Seen(s.rows, asset, items, now), Added(s.rows, asset, items, now);
    var rows := WithAttached(s.rows, asset, items, now);
    AddedExactly(s.rows, asset, items, now);
    AddedDistinct(s.rows, asset, items, now);
    forall i | 0 <= i < |added|
      ensures added[i].asset == asset && Live(added[i])
      ensures added[i].unique <==> added[i].key.namespace in UNIQUE_NAMESPACES
    {
      assert added[i] in added;
    }
    if Constraints(rows) {
      forall i, j | 0 <= i < j < |added| ensures added[i].key != added[j].key {
        assert PairChecks(rows[|seen| + i], rows[|seen| + j]);
      }
    }
    if !Collides(s.rows, asset, items) {
      forall i, j | 0 <= i < j < |rows| ensures PairChecks(rows[i], rows[j]) {
        if j < |seen| {
          assert PairChecks(s.rows[i], s.rows[j]);
        } else if i < |seen| {
          assert rows[j] == added[j - |seen|] && added[j - |seen|] in added;
          AddedClashWithNone(s, asset, items, now, added[j - |seen|], i);
        } else {
          assert rows[i] == added[i - |seen|] && rows[j] == added[j - |seen|];
        }
      }
    }
  }

  // ---- The steps, one by one ----

  /** Someone live holds a presented unique identifier. */
  ghost predicate Holder(rows: seq<Row>, items: seq<Item>, asset: AssetId) {
    exists i :: 0 <= i < |rows| && Hits(rows[i], items) && rows[i].asset == asset
  }

  lemma TwoMembers(keys: set<AssetId>, a: AssetId, b: AssetId)
    requires a in keys && b in keys && a != b
    ensures |keys| > 1
  {
    SubsetSize({a, b}, keys);
  }

  lemma MatchesAreHolders(rows: seq<Row>, items: seq<Item>)
    ensures forall b :: b in Matches(rows, items).Keys <==> Holder(rows, items, b)
  {
    forall b ensures b in Matches(rows, items).Keys <==> Holder(rows, items, b) { MatchesExactly(rows, items, b); }
  }

  /** One holder: the request matches it, and a constraint refuses exactly when two presented identifiers are the same
      once normalised and the asset did not carry them. */
  lemma OneHolderMatches(s: State, items: seq<Item>, createIfMissing: bool, now: Time, a: AssetId)
    requires Inv(s) && FaithfulItems(items)
    requires Holder(s.rows, items, a) && forall b :: Holder(s.rows, items, b) ==> b == a
    ensures var r := ResolveItems(s, items, createIfMissing, now);
      if Collides(s.rows, a, items) then r == Refused(IntegrityError)
      else r.Committed? && r.report.Matched? && r.report.asset == a && Inv(r.next)
           && r.next == State(s.assets[a := now], WithAttached(s.rows, a, items, now))
  {
    MatchesAreHolders(s.rows, items);
    assert Matches(s.rows, items).Keys == {a};
    forall i | 0 <= i < |s.rows| && Hits(s.rows[i], items) ensures s.rows[i].asset == a {
      assert Holder(s.rows, items, s.rows[i].asset);
    }
    var i :| 0 <= i < |s.rows| && Hits(s.rows[i], items) && s.rows[i].asset == a;
    AttachMissingExactly(s, s.assets[a := now], a, items, now);
  }

  /** No holder: a new asset, if that is allowed; the same collision is all a constraint can object to. */
  lemma NoHolderCreates(s: State, items: seq<Item>, createIfMissing: bool, now: Time)
    requires Inv(s) && FaithfulItems(items) && forall b :: !Holder(s.rows, items, b)
    ensures var r := ResolveItems(s, items, createIfMissing, now);
      if !createIfMissing then r == Refused(IdentityConflict(map[]))
      else if Collides(s.rows, |s.assets|, items) then r == Refused(IntegrityError)
      else r == Committed(State(s.assets + [now], WithAttached(s.rows, |s.assets|, items, now)), Created(|s.assets|))
           && Inv(r.next)
  {
    MatchesAreHolders(s.rows, items);
    assert Matches(s.rows, items).Keys == {};
    forall i | 0 <= i < |s.rows| ensures !Hits(s.rows[i], items) {
      assert !Holder(s.rows, items, s.rows[i].asset);
    }
    AttachMissingExactly(s, s.assets + [now], |s.assets|, items, now);
  }

  /** Several holders: nothing is written, and the refusal names every one of them. */
  lemma ManyHoldersRefuse(s: State, items: seq<Item>, createIfMissing: bool, now: Time, a: AssetId, b: AssetId)
    requires a != b && Holder(s.rows, items, a) && Holder(s.rows, items, b)
    ensures var r := ResolveItems(s, items, createIfMissing, now);
      && r.Refused? && r.error.IdentityConflict?
      && forall c :: c in r.error.candidates <==> Holder(s.rows, items, c)
  {
    MatchesAreHolders(s.rows, items);
    TwoMembers(Matches(s.rows, items).Keys, a, b);
  }

  lemma ResolveKeepsInv(s: State, items: seq<Item>, createIfMissing: bool, now: Time)
    requires Inv(s) && FaithfulItems(items)
    ensures var r := ResolveItems(s, items, createIfMissing, now); r.Committed? ==> Inv(r.next)
  {
    if a :| Holder(s.rows, items, a) {
      if b :| Holder(s.rows, items, b) && b != a {
        ManyHoldersRefuse(s, items, createIfMissing, now, a, b);
      } else {
        OneHolderMatches(s, items, createIfMissing, now, a);
      }
    } else {
      NoHolderCreates(s, items, createIfMissing, now);
    }
  }

  /** Attaching one identifier never trips a constraint. */
  lemma AttachNeverTrips(s: State, asset: AssetId, normal: Key -> string, presented: Key, now: Time)
    requires Inv(s)
    ensures Attach(s, asset, normal, presented, now) != Refused(IntegrityError)
    ensures Attach(s, asset, normal, presented, now).Committed? ==> Inv(Attach(s, asset, normal, presented, now).next)
  {
    if asset < |s.assets| && Normalise(normal, presented).Some? {
      var item := Normalise(normal, presented).value;
      var existing := FindLive(s.rows, Some(asset), item.key);
      if existing.Some? {
        var rows := s.rows[existing.value := s.rows[existing.value].(lastSeen := now)];
        forall i, j | 0 <= i < j < |rows| ensures PairChecks(rows[i], rows[j]) { assert PairChecks(s.rows[i], s.rows[j]); }
      } else {
        var row := Row(asset, item.key, item.unique, now, None);
        var rows := s.rows + [row];
        forall i, j | 0 <= i < j < |rows| && (item.unique ==> FindLive(s.rows, None, item.key).None?)
          ensures PairChecks(rows[i], rows[j])
        {
          if j < |s.rows| {
            assert PairChecks(s.rows[i], s.rows[j]);
          } else {
            assert LiveOn(rows[i], rows[i].asset, item.key) <==> Live(rows[i]) && rows[i].key == item.key;
          }
        }
      }
    }
  }

  lemma RetireNeverTrips(s: State, row: nat, now: Time)
    requires Inv(s)
    ensures RetireIdentifier(s, row, now) != Refused(IntegrityError)
    ensures RetireIdentifier(s, row, now).Committed? ==> Inv(RetireIdentifier(s, row, now).next)
  {
    if row < |s.rows| {
      var rows := s.rows[row := s.rows[row].(retiredAt := Some(now))];
      forall i, j | 0 <= i < j < |rows| ensures PairChecks(rows[i], rows[j]) { assert PairChecks(s.rows[i], s.rows[j]); }
    }
  }

  // ---- Over whole runs ----

  /** What no step undoes: a row stays, on its asset, under its key; once retired it stays retired. */
  ghost predicate Keeps(s: State, n: State) {
    && |s.assets| <= |n.assets| && |s.rows| <= |n.rows|
    && forall i :: 0 <= i < |s.rows| ==>
         && n.rows[i].asset == s.rows[i].asset && n.rows[i].key == s.rows[i].key && n.rows[i].unique == s.rows[i].unique
         && (Live(n.rows[i]) ==> Live(s.rows[i]))
  }

  lemma StepKeeps(s: State, normal: Key -> string, op: Op)
    requires Inv(s)
    ensures Inv(Step(s, normal, op)) && Keeps(s, Step(s, normal, op))
  {
    match op
    case DoResolve(presented, createIfMissing, now) =>
      NormalisedFaithfully(normal, presented);
      if NormaliseAll(normal, presented).Some? {
        ResolveKeepsInv(s, NormaliseAll(normal, presented).value, createIfMissing, now);
      }
    case DoAttach(asset, identifier, now) => AttachNeverTrips(s, asset, normal, identifier, now);
    case DoRetire(row, now) => RetireNeverTrips(s, row, now);
  }

  lemma {:induction false} RunKeeps(s: State, normal: Key -> string, ops: seq<Op>)
    requires Inv(s)
    ensures Inv(Run(s, normal, ops)) && Keeps(s, Run(s, normal, ops))
  {
    if ops != [] {
      RunKeeps(s, normal, ops[..|ops| - 1]);
      StepKeeps(Run(s, normal, ops[..|ops| - 1]), normal, ops[|ops| - 1]);
    }
  }

  const EMPTY := State([], [])

  lemma PairAt(rows: seq<Row>, i: nat, j: nat)
    requires Constraints(rows) && i < |rows| && j < |rows| && i != j
    ensures PairChecks(rows[i], rows[j])
  {
    assert i < j ==> PairChecks(rows[i], rows[j]);
    assert j < i ==> PairChecks(rows[j], rows[i]);
  }

  /** In every state any run reaches, a unique identifier has at most one live holder. */
  lemma {:induction false} OneHolder(normal: Key -> string, ops: seq<Op>, i: nat, j: nat)
    requires var rows := Run(EMPTY, normal, ops).rows;
      i < |rows| && j < |rows| && Live(rows[i]) && Live(rows[j]) && rows[i].key == rows[j].key
    requires Run(EMPTY, normal, ops).rows[i].key.namespace in UNIQUE_NAMESPACES
    ensures i == j
  {
    RunKeeps(EMPTY, normal, ops);
    if i != j { PairAt(Run(EMPTY, normal, ops).rows, i, j); }
  }

  /** Every unique identifier of a request is held by the asset, through rows that are still live. */
  ghost predicate StillHeld(rows: seq<Row>, asset: AssetId, items: seq<Item>) {
    && (exists k :: 0 <= k < |items| && items[k].unique)
    && forall k :: 0 <= k < |items| && items[k].unique ==> Carries(rows, asset, items[k].key)
  }

  lemma StillHeldDecides(s: State, asset: AssetId, items: seq<Item>, createIfMissing: bool, now: Time)
    requires Inv(s) && FaithfulItems(items) && StillHeld(s.rows, asset, items)
    ensures var r := ResolveItems(s, items, createIfMissing, now);
      if Collides(s.rows, asset, items) then r == Refused(IntegrityError)
      else r.Committed? && r.report.Matched? && r.report.asset == asset
  {
    var k :| 0 <= k < |items| && items[k].unique;
    var i :| 0 <= i < |s.rows| && LiveOn(s.rows[i], asset, items[k].key);
    assert items[k] == Item(s.rows[i].key, true);
    assert Hits(s.rows[i], items);
    forall b | Holder(s.rows, items, b) ensures b == asset {
      var j: nat :| j < |s.rows| && Hits(s.rows[j], items) && s.rows[j].asset == b;
      var l: nat :| l < |items| && items[l] == Item(s.rows[j].key, true);
      var h: nat :| h < |s.rows| && LiveOn(s.rows[h], asset, items[l].key);
      if h != j { PairAt(s.rows, h, j); }
    }
    OneHolderMatches(s, items, createIfMissing, now, asset);
  }

  /** Whatever resolves, attaches and retirements happen in between, later items all of whose unique ones the asset held and
      that were not retired since resolve to that asset and no other. */
  lemma {:induction false} HeldItemsDecide(s: State, normal: Key -> string, ops: seq<Op>, asset: AssetId,
                                           items: seq<Item>, createIfMissing: bool, now: Time)
    requires Inv(s) && FaithfulItems(items) && (exists k :: 0 <= k < |items| && items[k].unique)
    requires forall k :: 0 <= k < |items| && items[k].unique ==>
      exists i ::
        0 <= i < |s.rows| && LiveOn(s.rows[i], asset, items[k].key)
        && i < |Run(s, normal, ops).rows| && Live(Run(s, normal, ops).rows[i])
    ensures var later := Run(s, normal, ops); var r := ResolveItems(later, items, createIfMissing, now);
      if Collides(later.rows, asset, items) then r == Refused(IntegrityError)
      else r.Committed? && r.report.Matched? && r.report.asset == asset
  {
    RunKeeps(s, normal, ops);
    var later := Run(s, normal, ops);
    forall k | 0 <= k < |items| && items[k].unique ensures Carries(later.rows, asset, items[k].key) {
      var i :| 0 <= i < |s.rows| && LiveOn(s.rows[i], asset, items[k].key) && i < |later.rows| && Live(later.rows[i]);
      assert LiveOn(later.rows[i], asset, items[k].key);
    }
    StillHeldDecides(later, asset, items, createIfMissing, now);
  }

  /** What resolution leaves the asset holding: every unique identifier presented. */
  lemma ResolvedIsHeld(s: State, items: seq<Item>, createIfMissing: bool, now: Time, k: nat)
    requires Inv(s) && FaithfulItems(items) && k < |items|
    ensures var r := ResolveItems(s, items, createIfMissing, now);
      r.Committed? ==> (r.report.Matched? || r.report.Created?) && Carries(r.next.rows, r.report.asset, items[k].key)
  {
    var r := ResolveItems(s, items, createIfMissing, now);
    if r.Committed? {
      var asset := r.report.asset;
      AddedExactly(s.rows, asset, items, now);
      var seen, added := Seen(s.rows, asset, items, now), Added(s.rows, asset, items, now);
      if i :| 0 <= i < |s.rows| && LiveOn(s.rows[i], asset, items[k].key) {
        assert LiveOn(r.next.rows[i], asset, items[k].key);
      } else {
        var row := Row(asset, items[k].key, items[k].unique, now, None);
        assert IsRowFor(row, s.rows, asset, items, k, now) && row in added;
        var j :| 0 <= j < |added| && added[j] == row;
        assert LiveOn(r.next.rows[|seen| + j], asset, items[k].key);
      }
    }
  }

  // ---- The resolver on the stored tables ----

  lemma SeenAgain(rows: seq<Row>, asset: AssetId, items: seq<Item>, item: Item, now: Time, at: nat)
    requires Constraints(rows) && at < |rows| && LiveOn(rows[at], asset, item.key)
    ensures Seen(rows, asset, items + [item], now)
         == Seen(rows, asset, items, now)[at := Seen(rows, asset, items, now)[at].(lastSeen := now)]
  {
    var more := items + [item];
    var a, b := Seen(rows, asset, items, now), Seen(rows, asset, more, now);
    forall i | 0 <= i < |rows| ensures b[i] == a[at := a[at].(lastSeen := now)][i] {
      PresentsNext(items, item, rows[i].key);
      if i != at { PairAt(rows, i, at); }
    }
  }

  lemma SeenNothingNew(rows: seq<Row>, asset: AssetId, items: seq<Item>, item: Item, now: Time)
    requires !Carries(rows, asset, item.key)
    ensures Seen(rows, asset, items + [item], now) == Seen(rows, asset, items, now)
  {
    var a, b := Seen(rows, asset, items, now), Seen(rows, asset, items + [item], now);
    forall i | 0 <= i < |rows| ensures b[i] == a[i] {
      PresentsNext(items, item, rows[i].key);
      assert !LiveOn(rows[i], asset, item.key);
    }
  }

  lemma PresentsNext(items: seq<Item>, item: Item, key: Key)
    ensures Presents(items + [item], key) <==> Presents(items, key) || item.key == key
  {
    var more := items + [item];
    if i :| 0 <= i < |items| && items[i].key == key { assert more[i].key == key; }
    assert more[|items|] == item;
  }

  lemma AddedNext(rows: seq<Row>, asset: AssetId, items: seq<Item>, item: Item, now: Time)
    ensures Added(rows, asset, items + [item], now)
         == if Carries(rows, asset, item.key) then Added(rows, asset, items, now)
            else Added(rows, asset, items, now) + [Row(asset, item.key, item.unique, now, None)]
  {
    assert (items + [item])[..|items|] == items;
  }

  lemma AttachNext(rows: seq<Row>, asset: AssetId, items: seq<Item>, item: Item, now: Time, found: Option<nat>)
    requires Constraints(rows)
    requires found.Some? ==> found.value < |rows| && LiveOn(rows[found.value], asset, item.key)
    requires found.None? ==> !Carries(rows, asset, item.key)
    ensures var a := WithAttached(rows, asset, items, now);
      WithAttached(rows, asset, items + [item], now)
        == if found.Some? then a[found.value := a[found.value].(lastSeen := now)]
           else a + [Row(asset, item.key, item.unique, now, None)]
  {
    AddedNext(rows, asset, items, item, now);
    if found.Some? {
      SeenAgain(rows, asset, items, item, now, found.value);
    } else {
      SeenNothingNew(rows, asset, items, item, now);
    }
  }

  datatype Outcome = Done(report: Report) | Failed(error: Error)

  /** What a caller sees: the committed state and report, or the error and the state as it was. */
  ghost predicate Answers(spec: Result, outcome: Outcome, before: State, now: State) {
    match spec
    case Committed(next, report) => now == next && outcome == Done(report)
    case Refused(error) => now == before && outcome == Failed(error)
  }

  ghost predicate Indexes(existing: map<Key, nat>, rows: seq<Row>, asset: AssetId, n: nat)
    requires n <= |rows|
  {
    && (forall k :: k in existing ==> existing[k] < n && LiveOn(rows[existing[k]], asset, k))
    && (forall i :: 0 <= i < n && LiveOn(rows[i], asset, rows[i].key) ==> rows[i].key in existing)
  }

  class Resolver {
    var assets: seq<Time>
    var rows: seq<Row>

    ghost function Contents(): State
      reads this
    {
      State(assets, rows)
    }

    constructor ()
      ensures Contents() == EMPTY
    {
      assets, rows := [], [];
    }

    method FindMatches(items: seq<Item>) returns (matches: map<AssetId, seq<string>>)
      ensures matches == Matches(rows, items)
    {
      matches := map[];
      var i := 0;
      while i < |rows|
        invariant i <= |rows| && matches == Matches(rows[..i], items)
      {
        TakeNext(rows, i);
        assert rows[..i + 1][..i] == rows[..i];
        if Hits(rows[i], items) {
          var row := rows[i];
          matches := matches[row.asset := (if row.asset in matches then matches[row.asset] else []) + [row.key.namespace]];
        }
        i := i + 1;
      }
      TakeAll(rows);
    }

    /** What the asset carries, by key, looked up once. */
    method Existing(asset: AssetId) returns (existing: map<Key, nat>)
      ensures Indexes(existing, rows, asset, |rows|)
    {
      existing := map[];
      var i := 0;
      while i < |rows|
        invariant i <= |rows| && Indexes(existing, rows, asset, i)
      {
        if LiveOn(rows[i], asset, rows[i].key) { existing := existing[rows[i].key := i]; }
        i := i + 1;
      }
    }

    method AttachMissing(asset: AssetId, items: seq<Item>, now: Time)
      requires Constraints(rows)
      modifies this`rows
      ensures rows == WithAttached(old(rows), asset, items, now)
    {
      var existing := Existing(asset);
      ghost var before := rows;
      assert Seen(before, asset, [], now) == before;
      var i := 0;
      while i < |items|
        invariant i <= |items| && Indexes(existing, before, asset, |before|)
        invariant rows == WithAttached(before, asset, items[..i], now)
      {
        var item := items[i];
        TakeNext(items, i);
        ghost var found := if item.key in existing then Some(existing[item.key]) else None;
        AttachNext(before, asset, items[..i], item, now, found);
        if item.key in existing {
          var at := existing[item.key];
          rows := rows[at := rows[at].(lastSeen := now)];
        } else {
          rows := rows + [Row(asset, item.key, item.unique, now, None)];
        }
        i := i + 1;
      }
      TakeAll(items);
    }

    /** IdentityResolver.resolve: one transaction. */
    method Resolve(normal: Key -> string, presented: seq<Key>, createIfMissing: bool, now: Time) returns (outcome: Outcome)
      requires Inv(Contents())
      modifies this
      ensures Answers(Resolution(old(Contents()), normal, presented, createIfMissing, now), outcome, old(Contents()), Contents())
    {
      var normalised := NormaliseAll(normal, presented);
      if normalised.None? { return Failed(VocabularyError); }
      var items := normalised.value;
      var matches := FindMatches(items);
      var savedAssets, savedRows := assets, rows;
      if |matches.Keys| > 1 { return Failed(IdentityConflict(matches)); }
      var report;
      if |matches.Keys| == 1 {
        var asset := Only(matches.Keys);
        if asset >= |assets| { return Failed(IdentityConflict(map[])); }
        assets := assets[asset := now];
        AttachMissing(asset, items, now);
        report := Matched(asset, matches[asset]);
      } else {
        if !createIfMissing { return Failed(IdentityConflict(map[])); }
        var asset := |assets|;
        assets := assets + [now];
        AttachMissing(asset, items, now);
        report := Created(asset);
      }
      if !Constraints(rows) {
        assets, rows := savedAssets, savedRows;
        return Failed(IntegrityError);
      }
      return Done(report);
    }

    /** AssetService.attach_identifier. */
    method AttachIdentifier(asset: AssetId, normal: Key -> string, presented: Key, now: Time) returns (outcome: Outcome)
      modifies this`rows
      ensures Answers(Attach(old(Contents()), asset, normal, presented, now), outcome, old(Contents()), Contents())
    {
      if asset >= |assets| { return Failed(NotFound); }
      var normalised := Normalise(normal, presented);
      if normalised.None? { return Failed(VocabularyError); }
      var item, saved := normalised.value, rows;
      var existing := FindLive(rows, Some(asset), item.key);
      var row := |rows|;
      if existing.Some? {
        row := existing.value;
        rows := rows[row := rows[row].(lastSeen := now)];
      } else {
        if item.unique {
          var clash := FindLive(rows, None, item.key);
          if clash.Some? { return Failed(AttachedElsewhere); }
        }
        rows := rows + [Row(asset, item.key, item.unique, now, None)];
      }
      if !Constraints(rows) { rows := saved; return Failed(IntegrityError); }
      return Done(Attached(row));
    }

    /** AssetService.retire_identifier. */
    method Retire(row: nat, now: Time) returns (outcome: Outcome)
      modifies this`rows
      ensures Answers(RetireIdentifier(old(Contents()), row, now), outcome, old(Contents()), Contents())
    {
      if row >= |rows| { return Failed(NotFound); }
      if rows[row].retiredAt.Some? { return Failed(AlreadyRetired); }
      var saved := rows;
      rows := rows[row := rows[row].(retiredAt := Some(now))];
      if !Constraints(rows) { rows := saved; return Failed(IntegrityError); }
      return Done(RetiredIdentifier(row));
    }
  }
}
