/** The code registry, and the reconciliation that writes it into the registration table at startup. */
module Registry {
  import opened Base
  import opened ToolVocabulary
  import opened Contract
  import opened Declaration
  import Orders
  import P = Policy

  datatype Key = Key(name: string, version: string)

  function KeyOf(d: ToolDefinition): Key { Key(d.toolName, d.toolVersion) }

  predicate KeyLess(a: Key, b: Key) {
    Orders.StringLess(a.name, b.name) || (a.name == b.name && Orders.StringLess(a.version, b.version))
  }

  lemma KeyOrder()
    ensures Orders.StrictOrder(KeyLess)
  {
    Orders.StringOrder();
  }

  /** sorted(...) by name and version. */
  function InOrder(keys: set<Key>): (r: seq<Key>)
    ensures forall k :: k in r <==> k in keys
    ensures |r| == |keys|
  {
    KeyOrder();
    Orders.Sorted(KeyLess, keys)
  }

  ghost predicate NoRepeats(keys: seq<Key>) { forall i, j :: 0 <= i < j < |keys| ==> keys[i] != keys[j] }

  /** No key comes up twice. */
  lemma InOrderOnce(keys: set<Key>)
    ensures NoRepeats(InOrder(keys))
  {
    KeyOrder();
    Orders.SortedAscends(KeyLess, keys);
  }

  // ---- The code registry ----

  /** A declaration and the object that is it: two equal declarations may be two objects. */
  datatype Declared = Declared(object_: nat, definition: ToolDefinition)

  datatype Registered = Added | Rejected(rejection: Rejection) | DeclaredTwice

  class CodeRegistry {
    const environment: Environment
    var entries: map<Key, Declared>

    ghost predicate Valid()
      reads this
    {
      forall k :: k in entries ==>
        KeyOf(entries[k].definition) == k && ValidateDeclaration(environment, entries[k].definition).None?
    }

    constructor (env: Environment)
      ensures Valid() && entries == map[] && environment == env
    {
      environment := env;
      entries := map[];
    }

    /** register: a rule broken, or another object under the same key, leaves the registry as it was. A key once bound
        keeps its declaration. */
    method Register(d: Declared) returns (r: Registered)
      requires Valid()
      modifies this
      ensures Valid()
      ensures r == match ValidateDeclaration(environment, d.definition)
        case Some(rejection) => Rejected(rejection)
        case None =>
          if KeyOf(d.definition) in old(entries) && old(entries)[KeyOf(d.definition)] != d then DeclaredTwice else Added
      ensures entries == if r.Added? then old(entries)[KeyOf(d.definition) := d] else old(entries)
      ensures forall k :: k in old(entries) ==> k in entries && entries[k] == old(entries)[k]
    {
      var rejection := ValidateDeclaration(environment, d.definition);
      if rejection.Some? { return Rejected(rejection.value); }
      var key := KeyOf(d.definition);
      if key in entries && entries[key] != d { return DeclaredTwice; }
      entries := entries[key := d];
      return Added;
    }
  }

  // ---- The registration table ----

  type Time = int

  datatype Registration = Registration(
    contractHash: string, lifecycle: ToolLifecycle,
    disabledAt: Option<Time>, disabledBy: Option<string>, disabledReason: Option<string>,
    retiredAt: Option<Time>, retiredReason: Option<string>)

  /** The CHECKs of one row. */
  predicate RowChecks(r: Registration) {
    && (r.lifecycle.Disabled? <==> r.disabledAt.Some?)
    && (r.lifecycle.Retired? <==> r.retiredAt.Some?)
    && (r.disabledAt.None? <==> r.disabledBy.None?)
    && (r.disabledAt.None? <==> r.disabledReason.None?)
  }

  /** The table, by its unique name and version. */
  type Rows = map<Key, Registration>

  type Code = map<Key, ToolDefinition>

  type Hasher = ToolDefinition -> string

  predicate TableChecks(rows: Rows) { forall k :: k in rows ==> RowChecks(rows[k]) }

  function NewRow(d: ToolDefinition, hash: Hasher): Registration {
    Registration(hash(d), d.lifecycleDefault, None, None, None, None, None)
  }

  const NO_CODE := "No code declaration for this tool version."

  /** A row whose declaration is gone is retired; what was written on it stays. */
  function Retire(r: Registration, now: Time): Registration {
    if r.lifecycle.Retired? then r else r.(lifecycle := Retired, retiredAt := Some(now), retiredReason := Some(NO_CODE))
  }

  /** The row of a declared tool after reconciliation: new, as it was, or rehashed. */
  function Settle(rows: Rows, k: Key, d: ToolDefinition, hash: Hasher): Registration {
    if k in rows then rows[k].(contractHash := hash(d)) else NewRow(d, hash)
  }

  /** Declared tools in `done` settled, undeclared ones in `gone` retired, the rest as they were. */
  function Written(rows: Rows, code: Code, hash: Hasher, now: Time, done: set<Key>, gone: set<Key>): Rows
    requires done <= code.Keys && gone <= rows.Keys
  {
    map k | k in rows.Keys + done ::
      if k in done then Settle(rows, k, code[k], hash) else if k in gone then Retire(rows[k], now) else rows[k]
  }

  function Reconciled(rows: Rows, code: Code, hash: Hasher, now: Time): Rows {
    Written(rows, code, hash, now, code.Keys, rows.Keys - code.Keys)
  }

  predicate Drifted(rows: Rows, code: Code, hash: Hasher, k: Key) {
    k in code && k in rows && rows[k].contractHash != hash(code[k])
  }

  function IsNew(rows: Rows): Key -> bool { k => k !in rows }

  function IsUnchanged(rows: Rows, code: Code, hash: Hasher): Key -> bool {
    k => k in rows && k in code && rows[k].contractHash == hash(code[k])
  }

  function IsDrifted(rows: Rows, code: Code, hash: Hasher): Key -> bool { k => Drifted(rows, code, hash, k) }

  datatype Report = Report(registered: seq<Key>, kept: seq<Key>, rehashed: seq<Key>, retired: seq<Key>)

  datatype Outcome = Reconciliation(report: Report) | Drift(key: Key) | IntegrityError

  /** The report: declared tools in order, each in the list its row puts it in; the retired in any order, once each. */
  ghost predicate Reports(report: Report, rows: Rows, code: Code, hash: Hasher) {
    && report.registered == Filter(IsNew(rows), InOrder(code.Keys))
    && report.kept == Filter(IsUnchanged(rows, code, hash), InOrder(code.Keys))
    && report.rehashed == Filter(IsDrifted(rows, code, hash), InOrder(code.Keys))
    && (forall k :: k in report.retired <==> k in rows && k !in code && !rows[k].lifecycle.Retired?)
    && NoRepeats(report.retired)
  }

  function KeysIn(s: seq<Key>): set<Key> { set k | k in s }

  /** The variables of the first loop once it has been through the keys in `seen`. */
  datatype Progress = Progress(pending: Rows, byKey: Rows, registered: seq<Key>, kept: seq<Key>, rehashed: seq<Key>)

  ghost predicate Through(p: Progress, rows: Rows, code: Code, hash: Hasher, now: Time, seen: seq<Key>) {
    ThroughRows(p, rows, code, hash, now, KeysIn(seen)) && ThroughLists(p, rows, code, hash, seen)
  }

  ghost predicate ThroughRows(p: Progress, rows: Rows, code: Code, hash: Hasher, now: Time, done: set<Key>) {
    done <= code.Keys && p.pending == Written(rows, code, hash, now, done, {}) && p.byKey == rows - done
  }

  ghost predicate ThroughLists(p: Progress, rows: Rows, code: Code, hash: Hasher, seen: seq<Key>) {
    && p.registered == Filter(IsNew(rows), seen)
    && p.kept == Filter(IsUnchanged(rows, code, hash), seen)
    && p.rehashed == Filter(IsDrifted(rows, code, hash), seen)
  }

  /** One turn of the first loop, by the branch it takes. */
  function Turn(p: Progress, code: Code, hash: Hasher, key: Key): Progress
    requires key in code
  {
    if key !in p.byKey then p.(pending := p.pending[key := NewRow(code[key], hash)], registered := p.registered + [key])
    else if p.byKey[key].contractHash == hash(code[key]) then p.(byKey := p.byKey - {key}, kept := p.kept + [key])
    else
      p.(pending := p.pending[key := p.byKey[key].(contractHash := hash(code[key]))], byKey := p.byKey - {key},
         rehashed := p.rehashed + [key])
  }

  lemma TurnWrites(p: Progress, rows: Rows, code: Code, hash: Hasher, now: Time, done: set<Key>, key: Key)
    requires ThroughRows(p, rows, code, hash, now, done) && key in code && key !in done
    ensures ThroughRows(Turn(p, code, hash, key), rows, code, hash, now, done + {key})
  {
    WrittenNext(rows, code, hash, now, done, key);
    assert rows - (done + {key}) == (rows - done) - {key};
    var w := Written(rows, code, hash, now, done, {});
    if key in rows && rows[key].contractHash == hash(code[key]) { assert w[key := w[key]] == w; }
  }

  lemma TurnReports(p: Progress, rows: Rows, code: Code, hash: Hasher, done: set<Key>, seen: seq<Key>, key: Key)
    requires p.byKey == rows - done && key !in done && key in code && ThroughLists(p, rows, code, hash, seen)
    ensures ThroughLists(Turn(p, code, hash, key), rows, code, hash, seen + [key])
  {
    FilterAppend(IsNew(rows), seen, key);
    FilterAppend(IsUnchanged(rows, code, hash), seen, key);
    FilterAppend(IsDrifted(rows, code, hash), seen, key);
  }

  lemma TurnGoesThrough(p: Progress, rows: Rows, code: Code, hash: Hasher, now: Time, seen: seq<Key>, key: Key)
    requires Through(p, rows, code, hash, now, seen) && key in code && key !in seen
    ensures Through(Turn(p, code, hash, key), rows, code, hash, now, seen + [key])
    ensures key in p.byKey <==> key in rows
    ensures key in rows ==> p.byKey[key] == rows[key]
  {
    var done := KeysIn(seen);
    assert KeysIn(seen + [key]) == done + {key};
    TurnWrites(p, rows, code, hash, now, done, key);
    TurnReports(p, rows, code, hash, done, seen, key);
  }

  /** The loop's variables after its turns for the keys in `seen`. */
  function Turns(rows: Rows, code: Code, hash: Hasher, seen: seq<Key>): Progress
    requires forall i :: 0 <= i < |seen| ==> seen[i] in code
  {
    if seen == [] then Progress(rows, rows, [], [], [])
    else Turn(Turns(rows, code, hash, seen[..|seen| - 1]), code, hash, seen[|seen| - 1])
  }

  lemma TurnsNext(before: Progress, p: Progress, rows: Rows, code: Code, hash: Hasher, order: seq<Key>, i: nat)
    requires (forall j :: 0 <= j < |order| ==> order[j] in code) && i < |order|
    requires before == Turns(rows, code, hash, order[..i]) && p == Turn(before, code, hash, order[i])
    ensures p == Turns(rows, code, hash, order[..i + 1])
  {
    assert order[..i + 1][..i] == order[..i];
  }

  lemma {:induction false} TurnsGoThrough(rows: Rows, code: Code, hash: Hasher, now: Time, seen: seq<Key>)
    requires (forall i :: 0 <= i < |seen| ==> seen[i] in code) && NoRepeats(seen)
    ensures Through(Turns(rows, code, hash, seen), rows, code, hash, now, seen)
  {
    if seen == [] {
      WrittenNothing(rows, code, hash, now);
      assert KeysIn(seen) == {} && rows - {} == rows;
    } else {
      var front, last := seen[..|seen| - 1], seen[|seen| - 1];
      TurnsGoThrough(rows, code, hash, now, front);
      TurnGoesThrough(Turns(rows, code, hash, front), rows, code, hash, now, front, last);
      assert seen == front + [last];
    }
  }

  lemma TurnsStart(rows: Rows, code: Code, hash: Hasher, order: seq<Key>)
    ensures Progress(rows, rows, [], [], []) == Turns(rows, code, hash, order[..0])
  {
    assert order[..0] == [];
  }

  /** A key not met before still has its stored row at hand: it drifts if the row does. */
  lemma TurnsLeave(p: Progress, rows: Rows, code: Code, hash: Hasher, order: seq<Key>, i: nat)
    requires (forall j :: 0 <= j < |order| ==> order[j] in code) && NoRepeats(order) && i < |order|
    requires p == Turns(rows, code, hash, order[..i])
    ensures order[i] in p.byKey && p.byKey[order[i]].contractHash != hash(code[order[i]]) <==> Drifted(rows, code, hash, order[i])
  {
    var seen, key := order[..i], order[i];
    assert key !in seen;
    TurnsGoThrough(rows, code, hash, 0, seen);
    assert p.byKey == rows - KeysIn(seen);
  }

  /** Every declared key, once. */
  ghost predicate Listed(order: seq<Key>, code: Code) {
    (forall i :: 0 <= i < |order| ==> order[i] in code) && (forall k :: k in code ==> k in order) && NoRepeats(order)
  }

  /** The first i of the keys have not drifted. */
  ghost predicate NoneDrifted(order: seq<Key>, i: nat, rows: Rows, code: Code, hash: Hasher)
    requires i <= |order|
  {
    forall j :: 0 <= j < i ==> !Drifted(rows, code, hash, order[j])
  }

  lemma OneMoreNotDrifted(order: seq<Key>, i: nat, rows: Rows, code: Code, hash: Hasher)
    requires i < |order| && NoneDrifted(order, i, rows, code, hash) && !Drifted(rows, code, hash, order[i])
    ensures NoneDrifted(order, i + 1, rows, code, hash)
  {
  }

  lemma NothingDrifted(order: seq<Key>, rows: Rows, code: Code, hash: Hasher)
    requires Listed(order, code) && NoneDrifted(order, |order|, rows, code, hash)
    ensures forall k :: !Drifted(rows, code, hash, k)
  {
    forall k | k in code ensures !Drifted(rows, code, hash, k) {
      var i :| 0 <= i < |order| && order[i] == k;
    }
  }

  lemma ThroughAll(p: Progress, rows: Rows, code: Code, hash: Hasher, now: Time, order: seq<Key>)
    requires Through(p, rows, code, hash, now, order) && forall k :: k in order <==> k in code
    ensures p.pending == Written(rows, code, hash, now, code.Keys, {}) && p.byKey == rows - code.Keys
  {
    assert KeysIn(order) == code.Keys;
  }

  class RegistrationTable {
    var rows: Rows

    constructor (initial: Rows)
      ensures rows == initial
    {
      rows := initial;
    }

    /** ToolRegistryReconciler.reconcile: one transaction. Nothing is written unless every row passes its CHECKs. */
    method Reconcile(code: Code, hash: Hasher, allowRehash: bool, now: Time) returns (outcome: Outcome)
      requires forall k :: k in code ==> KeyOf(code[k]) == k
      modifies this
      ensures outcome.Drift? <==> !allowRehash && exists k :: Drifted(old(rows), code, hash, k)
      ensures outcome.Drift? ==> Drifted(old(rows), code, hash, outcome.key)
      ensures !outcome.Drift? ==> (outcome.IntegrityError? <==> !TableChecks(Reconciled(old(rows), code, hash, now)))
      ensures outcome.Reconciliation? ==>
        rows == Reconciled(old(rows), code, hash, now) && Reports(outcome.report, old(rows), code, hash)
      ensures !outcome.Reconciliation? ==> rows == old(rows)
    {
      var order := InOrder(code.Keys);
      InOrderOnce(code.Keys);
      assert forall i | 0 <= i < |order| :: order[i] in order;
      var drift, p := SettleDeclared(order, code, hash, allowRehash);
      if drift.Some? { return Drift(drift.value); }
      TurnsGoThrough(rows, code, hash, now, order);
      ThroughAll(p, rows, code, hash, now, order);
      var pending, retired := RetireUndeclared(code, hash, now, p.pending, p.byKey);
      if !TableChecks(pending) { return IntegrityError; }
      rows := pending;
      return Reconciliation(Report(p.registered, p.kept, p.rehashed, retired));
    }

    /** One declaration: it gets a row, finds its row as it should be, has it rehashed, or stops startup. */
    method SettleOne(key: Key, code: Code, hash: Hasher, allowRehash: bool, before: Progress) returns (drifts: bool, p: Progress)
      requires key in code
      ensures drifts <==> !allowRehash && key in before.byKey && before.byKey[key].contractHash != hash(code[key])
      ensures !drifts ==> p == Turn(before, code, hash, key)
    {
      p := before;
      var digest := hash(code[key]);
      if key !in p.byKey {
        return false, p.(pending := p.pending[key := NewRow(code[key], hash)], registered := p.registered + [key]);
      }
      var row := p.byKey[key];
      p := p.(byKey := p.byKey - {key});
      if row.contractHash == digest { return false, p.(kept := p.kept + [key]); }
      if !allowRehash { return true, p; }
      return false, p.(pending := p.pending[key := row.(contractHash := digest)], rehashed := p.rehashed + [key]);
    }

    /** The first loop: every declaration in order. */
    method SettleDeclared(order: seq<Key>, code: Code, hash: Hasher, allowRehash: bool)
      returns (drift: Option<Key>, p: Progress)
      requires Listed(order, code)
      ensures drift.Some? ==> !allowRehash && Drifted(rows, code, hash, drift.value)
      ensures drift.None? ==> p == Turns(rows, code, hash, order)
      ensures drift.None? && !allowRehash ==> forall k :: !Drifted(rows, code, hash, k)
    {
      p := Progress(rows, rows, [], [], []);
      TurnsStart(rows, code, hash, order);
      var i := 0;
      while i < |order|
        invariant i <= |order| && p == Turns(rows, code, hash, order[..i])
        invariant !allowRehash ==> NoneDrifted(order, i, rows, code, hash)
      {
        TurnsLeave(p, rows, code, hash, order, i);
        var drifts, q := SettleOne(order[i], code, hash, allowRehash, p);
        if drifts { return Some(order[i]), p; }
        if !allowRehash { OneMoreNotDrifted(order, i, rows, code, hash); }
        TurnsNext(p, q, rows, code, hash, order, i);
        p := q;
        i := i + 1;
      }
      TakeAll(order);
      if !allowRehash { NothingDrifted(order, rows, code, hash); }
      return None, p;
    }

    /** The second loop: whatever is left has a row but no code. */
    method RetireUndeclared(code: Code, hash: Hasher, now: Time, settled: Rows, byKey: Rows)
      returns (pending: Rows, retired: seq<Key>)
      requires settled == Written(rows, code, hash, now, code.Keys, {}) && byKey == rows - code.Keys
      ensures pending == Reconciled(rows, code, hash, now)
      ensures forall k :: k in retired <==> k in rows && k !in code && !rows[k].lifecycle.Retired?
      ensures NoRepeats(retired)
    {
      pending, retired := settled, [];
      var rest := byKey.Keys;
      ghost var gone: set<Key> := {};
      while rest != {}
        invariant rest <= byKey.Keys && gone == byKey.Keys - rest
        invariant pending == Written(rows, code, hash, now, code.Keys, gone)
        invariant forall k :: k in retired <==> k in gone && !rows[k].lifecycle.Retired?
        invariant NoRepeats(retired)
        decreases rest
      {
        var key :| key in rest;
        RetireNext(rows, code, hash, now, gone, key);
        rest := rest - {key};
        if !byKey[key].lifecycle.Retired? {
          pending := pending[key := byKey[key].(lifecycle := Retired, retiredAt := Some(now), retiredReason := Some(NO_CODE))];
          retired := retired + [key];
        }
        gone := gone + {key};
      }
    }
  }

  lemma WrittenNothing(rows: Rows, code: Code, hash: Hasher, now: Time)
    ensures Written(rows, code, hash, now, {}, {}) == rows
  {
  }

  lemma WrittenNext(rows: Rows, code: Code, hash: Hasher, now: Time, done: set<Key>, key: Key)
    requires done <= code.Keys && key in code
    ensures Written(rows, code, hash, now, done + {key}, {})
         == Written(rows, code, hash, now, done, {})[key := Settle(rows, key, code[key], hash)]
    ensures key in rows && key !in done ==> Written(rows, code, hash, now, done, {})[key] == rows[key]
    ensures IsUnchanged(rows, code, hash)(key) ==> Settle(rows, key, code[key], hash) == rows[key]
  {
  }

  lemma RetireNext(rows: Rows, code: Code, hash: Hasher, now: Time, gone: set<Key>, key: Key)
    requires gone <= rows.Keys && key in rows && key !in code && key !in gone
    ensures Written(rows, code, hash, now, code.Keys, gone + {key})
         == Written(rows, code, hash, now, code.Keys, gone)[key := Retire(rows[key], now)]
    ensures Written(rows, code, hash, now, code.Keys, gone)[key] == rows[key]
  {
  }

  // ---- What reconciliation establishes ----

  /** It is refused by a CHECK exactly when it would retire a disabled row, whose disabled_at is not cleared, or insert
      a declaration whose default lifecycle is not active, which carries no time or reason for it. */
  lemma CommitsExactly(rows: Rows, code: Code, hash: Hasher, now: Time)
    requires TableChecks(rows)
    ensures TableChecks(Reconciled(rows, code, hash, now)) <==>
      && (forall k :: k in rows && k !in code ==> !rows[k].lifecycle.Disabled?)
      && (forall k :: k in code && k !in rows ==> code[k].lifecycleDefault.Active?)
  {
    var after := Reconciled(rows, code, hash, now);
    if TableChecks(after) {
      forall k | k in rows && k !in code ensures !rows[k].lifecycle.Disabled? {
        assert k in after && RowChecks(after[k]);
      }
      forall k | k in code && k !in rows ensures code[k].lifecycleDefault.Active? {
        assert k in after && RowChecks(after[k]);
      }
    }
  }

  /** Afterwards every declared tool has a row with the code's hash and otherwise as it was, the very row it had if it did not
      drift, a new tool a row with nothing but hash and first lifecycle; every undeclared row is retired, from now and with
      the reason if it was not before; and nothing is deleted. */
  lemma EstablishesTheCode(rows: Rows, code: Code, hash: Hasher, now: Time)
    ensures var after := Reconciled(rows, code, hash, now);
      && after.Keys == rows.Keys + code.Keys
      && (forall k :: k in code ==> after[k].contractHash == hash(code[k]))
      && (forall k :: k in code && k in rows ==> after[k] == rows[k].(contractHash := hash(code[k])))
      && (forall k :: k in code && k in rows && !Drifted(rows, code, hash, k) ==> after[k] == rows[k])
      && (forall k :: k in code && k !in rows ==>
            after[k] == Registration(hash(code[k]), code[k].lifecycleDefault, None, None, None, None, None))
      && (forall k :: k in rows && k !in code ==>
            if rows[k].lifecycle.Retired? then after[k] == rows[k]
            else after[k] == rows[k].(lifecycle := Retired, retiredAt := Some(now), retiredReason := Some(NO_CODE)))
  {
  }

  lemma {:induction false} FilterNone(p: Key -> bool, s: seq<Key>)
    requires forall k :: k in s ==> !p(k)
    ensures Filter(p, s) == []
  {
    if s != [] { FilterNone(p, s[..|s| - 1]); }
  }

  lemma {:induction false} FilterAll(p: Key -> bool, s: seq<Key>)
    requires forall k :: k in s ==> p(k)
    ensures Filter(p, s) == s
  {
    if s != [] {
      FilterAll(p, s[..|s| - 1]);
      assert s[|s| - 1] in s;
    }
  }

  /** Every declared tool has a row with its hash; every other row is retired. */
  ghost predicate Settled(rows: Rows, code: Code, hash: Hasher) {
    && (forall k :: k in code ==> k in rows && rows[k].contractHash == hash(code[k]))
    && (forall k :: k in rows && k !in code ==> rows[k].lifecycle.Retired?)
  }

  lemma ReconciledIsSettled(rows: Rows, code: Code, hash: Hasher, now: Time)
    ensures Settled(Reconciled(rows, code, hash, now), code, hash)
  {
  }

  lemma SettledStays(rows: Rows, code: Code, hash: Hasher, now: Time)
    requires Settled(rows, code, hash)
    ensures Reconciled(rows, code, hash, now) == rows
    ensures forall k :: !Drifted(rows, code, hash, k)
  {
    var after := Reconciled(rows, code, hash, now);
    assert after.Keys == rows.Keys;
    forall k | k in rows ensures after[k] == rows[k] {
    }
  }

  lemma SettledReport(rows: Rows, code: Code, hash: Hasher, report: Report)
    requires Settled(rows, code, hash) && Reports(report, rows, code, hash)
    ensures report == Report([], InOrder(code.Keys), [], [])
  {
    FilterNone(IsNew(rows), InOrder(code.Keys));
    FilterAll(IsUnchanged(rows, code, hash), InOrder(code.Keys));
    FilterNone(IsDrifted(rows, code, hash), InOrder(code.Keys));
    if report.retired != [] { HasFirst(report.retired); }
  }

  lemma HasFirst(s: seq<Key>)
    requires s != []
    ensures s[0] in s
  {
  }

  /** A second run, at any later time, changes nothing and reports nothing but unchanged tools. */
  lemma SecondRunChangesNothing(rows: Rows, code: Code, hash: Hasher, now: Time, later: Time, report: Report)
    ensures var after := Reconciled(rows, code, hash, now);
      && Reconciled(after, code, hash, later) == after
      && (forall k :: !Drifted(after, code, hash, k))
      && (Reports(report, after, code, hash) ==> report == Report([], InOrder(code.Keys), [], []))
  {
    var after := Reconciled(rows, code, hash, now);
    ReconciledIsSettled(rows, code, hash, now);
    SettledStays(after, code, hash, later);
    if Reports(report, after, code, hash) { SettledReport(after, code, hash, report); }
  }

  /** The report's lists partition the declared tools: those without a row, those whose row has the code's hash, those whose
      row has another; and it names the undeclared that were not retired yet. */
  lemma ReportPartitions(rows: Rows, code: Code, hash: Hasher, report: Report, k: Key)
    requires Reports(report, rows, code, hash)
    ensures k in report.registered <==> k in code && k !in rows
    ensures k in report.kept <==> k in code && k in rows && rows[k].contractHash == hash(code[k])
    ensures k in report.rehashed <==> k in code && k in rows && rows[k].contractHash != hash(code[k])
    ensures k in report.retired <==> k in rows && k !in code && !rows[k].lifecycle.Retired?
  {
    FilterMembers(IsNew(rows), InOrder(code.Keys));
    FilterMembers(IsUnchanged(rows, code, hash), InOrder(code.Keys));
    FilterMembers(IsDrifted(rows, code, hash), InOrder(code.Keys));
  }

  // ---- The capability binding invariant ----

  /** The context an invocation of `key` is decided in: the declaration from code, only the lifecycle from the row. */
  function ContextFor(rows: Rows, code: Code, bind: ToolDefinition -> P.BoundTool, key: Key, c: P.Context): P.Context
    requires key in rows
  {
    c.(tool := if key in code then Some(bind(code[key])) else None, lifecycle := rows[key].lifecycle)
  }

  /** No row makes a tool executable: whatever the table holds, only a declared tool whose row is active is allowed,
      and two tables that agree on a row's lifecycle decide its invocations alike. */
  lemma RowsMintNoCapability(rows: Rows, others: Rows, code: Code, bind: ToolDefinition -> P.BoundTool, key: Key, c: P.Context)
    requires key in rows
    ensures P.Evaluate(ContextFor(rows, code, bind, key, c)).allowed ==> key in code && rows[key].lifecycle.Active?
    ensures key in others && others[key].lifecycle == rows[key].lifecycle ==>
      P.Evaluate(ContextFor(others, code, bind, key, c)) == P.Evaluate(ContextFor(rows, code, bind, key, c))
  {
    var context := ContextFor(rows, code, bind, key, c);
    P.FirstFailingGateDecides(context, 1);
    P.AllPassByGate(context);
  }
}
