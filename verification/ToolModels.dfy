/**
 The Pydantic models a tool declares its input with, and the dump of a validated input, which is what is kept. Schema and
 dump name things differently: the schema lists a field under its alias, the dump writes it under its attribute name; the
 schema leaves computed fields out, the dump does not; and nothing declares the keys of a dict.
 */
module ToolModels {
  import opened Base
  import opened CanonicalJson
  import S = DeclaredSchemas
  import R = Redaction

  /** The type of a field. A scalar is dumped as no object or array; a free type (Any, parsed JSON, a custom serializer) may
      be dumped as anything. Both have their own schema keywords. */
  datatype FieldType =
    | Scalar(keywords: map<string, Json>)
    | Free(keywords: map<string, Json>)
    | Ref(model: string)
    | ListOf(items: FieldType)
    | DictOf(values: FieldType)
    | OneOf(options: seq<FieldType>)

  /** `listed` is the name the schema has for the field, its alias if it has one; a computed field is not listed. A field
      that is excluded from dumps is not written. */
  datatype Field = Field(listed: Option<string>, type_: FieldType, written: bool)

  datatype Extra = Forbid | Ignore | Allow

  /** A model: what it does with undeclared keys, and its fields by attribute name. */
  datatype Model = Model(extra: Extra, fields: map<string, Field>)

  datatype Models = Models(models: map<string, Model>, root: string)

  /** The type names the model. */
  predicate Mentions(t: FieldType, n: string) {
    match t
    case Scalar(_) => false
    case Free(_) => false
    case Ref(m) => m == n
    case ListOf(items) => Mentions(items, n)
    case DictOf(values) => Mentions(values, n)
    case OneOf(options) => exists i :: 0 <= i < |options| && Mentions(options[i], n)
  }

  /** No two fields have one name in the schema. */
  ghost predicate DistinctListings(m: Model) {
    forall a, b :: a in m.fields && b in m.fields && m.fields[a].listed.Some? && m.fields[a].listed == m.fields[b].listed ==>
      a == b
  }

  ghost predicate WellFormed(d: Models) {
    && d.root in d.models
    && (forall n :: n in d.models ==> DistinctListings(d.models[n]))
    && (forall n, a, m :: n in d.models && a in d.models[n].fields && Mentions(d.models[n].fields[a].type_, m) ==>
          m in d.models)
  }

  // ---- Values and their dumps ----

  /** A validated value. An instance has what its model declares, and what extra keys it admitted. */
  datatype Value =
    | Leaf(json: Json)
    | Loose(json: Json)
    | Instance(model: string, attributes: map<string, Value>, extras: map<string, Json>)
    | Many(items: seq<Value>)
    | Table(entries: map<string, Value>)

  ghost predicate HasType(d: Models, v: Value, t: FieldType)
    decreases v, t
  {
    match t
    case Scalar(_) => v.Leaf? && !v.json.Object? && !v.json.Array?
    case Free(_) => v.Loose?
    case Ref(n) =>
      && v.Instance? && v.model == n && n in d.models
      && v.attributes.Keys == d.models[n].fields.Keys
      && (v.extras == map[] || d.models[n].extra.Allow?)
      && forall a :: a in v.attributes ==> HasType(d, v.attributes[a], d.models[n].fields[a].type_)
    case ListOf(items) => v.Many? && forall i :: 0 <= i < |v.items| ==> HasType(d, v.items[i], items)
    case DictOf(values) => v.Table? && forall k :: k in v.entries ==> HasType(d, v.entries[k], values)
    case OneOf(options) => exists i :: 0 <= i < |options| && HasType(d, v, options[i])
  }

  predicate Writes(d: Models, n: string, a: string) {
    n in d.models && a in d.models[n].fields && d.models[n].fields[a].written
  }

  /** model_dump(mode="json"): by attribute name. */
  function Dump(d: Models, v: Value): Json
    decreases v
  {
    match v
    case Leaf(json) => json
    case Loose(json) => json
    case Instance(n, attributes, extras) =>
      Object((map a | a in attributes && Writes(d, n, a) :: Dump(d, attributes[a])) + extras)
    case Many(items) => Array(seq(|items|, i requires 0 <= i < |items| => Dump(d, items[i])))
    case Table(entries) => Object(map k | k in entries :: Dump(d, entries[k]))
  }

  /** What the policy engine takes for the canonical input: the dump of an instance of the input model. */
  ghost predicate IsInput(d: Models, v: Value) { HasType(d, v, Ref(d.root)) }

  /** No key at any depth is sensitive. */
  ghost predicate Clean(sensitive: string -> bool, j: Json)
    decreases j
  {
    match j
    case Object(members) => forall k :: k in members ==> !sensitive(k) && Clean(sensitive, members[k])
    case Array(elements) => forall i :: 0 <= i < |elements| ==> Clean(sensitive, elements[i])
    case _ => true
  }

  lemma {:induction false} CleanNamesNothing(sensitive: string -> bool, j: Json, path: seq<R.PathStep>, k: string)
    requires Clean(sensitive, j)
    ensures !R.NamesSecret(sensitive, j, path, k)
    decreases path
  {
    match j
    case Object(members) =>
      if path != [] && path[0].Member? && path[0].key in members {
        CleanNamesNothing(sensitive, members[path[0].key], path[1..], k);
      }
    case Array(elements) =>
      if path != [] && path[0].Element? && path[0].index < |elements| {
        CleanNamesNothing(sensitive, elements[path[0].index], path[1..], k);
      }
    case _ =>
  }

  lemma {:induction false} UncleanNamesSome(sensitive: string -> bool, j: Json) returns (path: seq<R.PathStep>, k: string)
    requires !Clean(sensitive, j)
    ensures R.NamesSecret(sensitive, j, path, k)
    decreases j
  {
    match j
    case Object(members) =>
      if name :| name in members && sensitive(name) {
        path, k := [], name;
      } else {
        var name :| name in members && !Clean(sensitive, members[name]);
        var rest, inner := UncleanNamesSome(sensitive, members[name]);
        path, k := [R.Member(name)] + rest, inner;
        assert path[1..] == rest;
      }
    case Array(elements) =>
      var i: nat :| i < |elements| && !Clean(sensitive, elements[i]);
      var rest, inner := UncleanNamesSome(sensitive, elements[i]);
      path, k := [R.Element(i)] + rest, inner;
      assert path[1..] == rest;
  }

  /** A value has nothing to mask exactly when none of its keys is sensitive. */
  lemma CleanExactly(sensitive: string -> bool, j: Json)
    ensures Clean(sensitive, j) <==> S.NothingToMask(sensitive, j)
  {
    if Clean(sensitive, j) {
      forall path, k ensures !R.NamesSecret(sensitive, j, path, k) { CleanNamesNothing(sensitive, j, path, k); }
      forall k ensures k !in R.Collected(sensitive, j, 0) { R.CollectedExactly(sensitive, j, 0, k); }
    } else {
      var path, k := UncleanNamesSome(sensitive, j);
    }
  }

  // ---- What a dump can hold, and what the schema lists ----

  ghost predicate HasValue(d: Models, t: FieldType) { exists v :: HasType(d, v, t) }

  /** The dump of an n can hold the dump of an m. */
  ghost predicate Holds(d: Models, n: string, m: string) {
    n in d.models && (exists a ::
      a in d.models[n].fields && d.models[n].fields[a].written && Mentions(d.models[n].fields[a].type_, m))
  }

  /** From the input model through models that have values, each held by the one before. */
  ghost predicate DumpPath(d: Models, path: seq<string>) {
    && path != [] && path[0] == d.root
    && (forall i :: 0 <= i < |path| ==> HasValue(d, Ref(path[i])))
    && (forall i, j :: 0 <= i < j < |path| && j == i + 1 ==> Holds(d, path[i], path[j]))
  }

  /** Some dump of the input holds an n. */
  ghost predicate Dumped(d: Models, n: string) { exists path: seq<string> :: DumpPath(d, path) && path[|path| - 1] == n }

  /** The schema of an n refers to the definition of an m. */
  ghost predicate Refers(d: Models, n: string, m: string) {
    n in d.models && (exists a ::
      a in d.models[n].fields && d.models[n].fields[a].listed.Some? && Mentions(d.models[n].fields[a].type_, m))
  }

  ghost predicate SchemaPath(d: Models, path: seq<string>) {
    && path != [] && path[0] == d.root
    && (forall i, j :: 0 <= i < j < |path| && j == i + 1 ==> Refers(d, path[i], path[j]))
  }

  /** The schema has a definition for it: something listed refers to it. */
  ghost predicate Referenced(d: Models, n: string) {
    exists path: seq<string> :: SchemaPath(d, path) && |path| >= 2 && path[|path| - 1] == n
  }

  /** The rules see it: the input model, and what has a definition. */
  ghost predicate Walked(d: Models, n: string) { n == d.root || Referenced(d, n) }

  /** The type can hold an object whose keys nothing declares: a dict, if it can have entries, or a free type. */
  ghost predicate Open(d: Models, t: FieldType) {
    match t
    case Scalar(_) => false
    case Free(_) => true
    case Ref(_) => false
    case ListOf(items) => Open(d, items)
    case DictOf(values) => HasValue(d, values)
    case OneOf(options) => exists i :: 0 <= i < |options| && Open(d, options[i])
  }

  /** What the rules do not look at does no harm: no written field is open, an attribute whose name is a secret is one the
      rules see under that name, and a model they do not see admits no extra keys. */
  ghost predicate ModelKeeps(d: Models, sensitive: string -> bool, n: string)
    requires n in d.models
  {
    && (!Walked(d, n) ==> !d.models[n].extra.Allow?)
    && forall a :: Writes(d, n, a) ==>
         var f := d.models[n].fields[a];
         !Open(d, f.type_) && (sensitive(a) ==> Walked(d, n) && f.listed == Some(a))
  }

  /** Every model a dump can hold keeps to its fields. */
  ghost predicate KeepsToFields(d: Models, sensitive: string -> bool) {
    forall n :: n in d.models && Dumped(d, n) ==> ModelKeeps(d, sensitive, n)
  }

  // ---- What is safe to keep, exactly ----

  /** It forbids extra keys and lists no forbidden name. */
  ghost predicate ModelIsClean(m: Model, forbidden: string -> bool) {
    && m.extra.Forbid?
    && forall a :: a in m.fields && m.fields[a].listed.Some? ==> !forbidden(m.fields[a].listed.value)
  }

  /** What acceptance gives: every walked model is clean. */
  ghost predicate WalkIsClean(d: Models, forbidden: string -> bool) {
    forall n :: n in d.models && Walked(d, n) ==> ModelIsClean(d.models[n], forbidden)
  }

  /** What a dumped model holds is dumped. */
  lemma HeldIsDumped(d: Models, n: string, m: string)
    requires Dumped(d, n) && Holds(d, n, m) && HasValue(d, Ref(m))
    ensures Dumped(d, m)
  {
    var path: seq<string> :| DumpPath(d, path) && path[|path| - 1] == n;
    var longer := path + [m];
    assert forall i | 0 <= i < |path| :: longer[i] == path[i];
    assert DumpPath(d, longer) && longer[|longer| - 1] == m;
  }

  lemma ArrayIsClean(d: Models, sensitive: string -> bool, items: seq<Value>)
    requires forall i :: 0 <= i < |items| ==> Clean(sensitive, Dump(d, items[i]))
    ensures Clean(sensitive, Dump(d, Many(items)))
  {
  }

  lemma InstanceIsClean(d: Models, sensitive: string -> bool, v: Value)
    requires v.Instance? && v.extras == map[]
    requires forall a :: a in v.attributes && Writes(d, v.model, a) ==>
      !sensitive(a) && Clean(sensitive, Dump(d, v.attributes[a]))
    ensures Clean(sensitive, Dump(d, v))
  {
  }

  /** A dumped model's attribute that the condition admits is no secret. */
  lemma KeptNameIsPlain(d: Models, sensitive: string -> bool, forbidden: string -> bool, n: string, a: string)
    requires (forall k :: sensitive(k) ==> forbidden(k)) && WalkIsClean(d, forbidden)
    requires n in d.models && ModelKeeps(d, sensitive, n) && Writes(d, n, a)
    ensures !sensitive(a)
  {
    var f := d.models[n].fields[a];
    assert f.listed.Some? && Walked(d, n) ==> !forbidden(f.listed.value);
  }

  lemma {:induction false} KeptDumpsAreClean(d: Models, sensitive: string -> bool, forbidden: string -> bool, v: Value,
                                             t: FieldType)
    requires (forall k :: sensitive(k) ==> forbidden(k)) && WalkIsClean(d, forbidden) && KeepsToFields(d, sensitive)
    requires HasType(d, v, t) && !Open(d, t)
    requires forall m :: Mentions(t, m) && HasValue(d, Ref(m)) ==> Dumped(d, m)
    ensures Clean(sensitive, Dump(d, v))
    decreases v, t
  {
    match t
    case Scalar(_) =>
    case Ref(n) =>
      assert HasValue(d, t) && Dumped(d, n) && ModelKeeps(d, sensitive, n);
      assert v.extras == map[];
      forall a | a in v.attributes && Writes(d, n, a) ensures !sensitive(a) && Clean(sensitive, Dump(d, v.attributes[a])) {
        KeptNameIsPlain(d, sensitive, forbidden, n, a);
        var inner := d.models[n].fields[a].type_;
        forall m | Mentions(inner, m) && HasValue(d, Ref(m)) ensures Dumped(d, m) { HeldIsDumped(d, n, m); }
        KeptDumpsAreClean(d, sensitive, forbidden, v.attributes[a], inner);
      }
      InstanceIsClean(d, sensitive, v);
    case ListOf(items) =>
      forall i | 0 <= i < |v.items| ensures Clean(sensitive, Dump(d, v.items[i])) {
        KeptDumpsAreClean(d, sensitive, forbidden, v.items[i], items);
      }
      ArrayIsClean(d, sensitive, v.items);
    case DictOf(values) =>
      assert forall k :: k !in v.entries;
    case OneOf(options) =>
      var i :| 0 <= i < |options| && HasType(d, v, options[i]);
      KeptDumpsAreClean(d, sensitive, forbidden, v, options[i]);
  }

  /** Some value of the type is dumped with a sensitive key. */
  ghost predicate Leaks(d: Models, sensitive: string -> bool, t: FieldType) {
    exists v :: HasType(d, v, t) && !Clean(sensitive, Dump(d, v))
  }

  lemma LeakBy(d: Models, sensitive: string -> bool, t: FieldType, v: Value)
    requires HasType(d, v, t) && !Clean(sensitive, Dump(d, v))
    ensures Leaks(d, sensitive, t)
  {
  }

  lemma OneItemLeaks(d: Models, sensitive: string -> bool, items: FieldType)
    requires Leaks(d, sensitive, items)
    ensures Leaks(d, sensitive, ListOf(items))
  {
    var v :| HasType(d, v, items) && !Clean(sensitive, Dump(d, v));
    var w := Many([v]);
    assert Dump(d, w).elements[0] == Dump(d, v);
    LeakBy(d, sensitive, ListOf(items), w);
  }

  lemma OneEntryLeaks(d: Models, sensitive: string -> bool, values: FieldType, k: string, v: Value)
    requires HasType(d, v, values) && (sensitive(k) || !Clean(sensitive, Dump(d, v)))
    ensures Leaks(d, sensitive, DictOf(values))
  {
    var w := Table(map[k := v]);
    assert Dump(d, w).members[k] == Dump(d, v);
    LeakBy(d, sensitive, DictOf(values), w);
  }

  lemma OptionLeaks(d: Models, sensitive: string -> bool, options: seq<FieldType>, i: nat)
    requires i < |options| && Leaks(d, sensitive, options[i])
    ensures Leaks(d, sensitive, OneOf(options))
  {
    var v :| HasType(d, v, options[i]) && !Clean(sensitive, Dump(d, v));
    LeakBy(d, sensitive, OneOf(options), v);
  }

  lemma {:induction false} OpenTypeLeaks(d: Models, sensitive: string -> bool, t: FieldType, secret: string)
    requires Open(d, t) && sensitive(secret)
    ensures Leaks(d, sensitive, t)
    decreases t
  {
    match t
    case Free(_) =>
      var v := Loose(Object(map[secret := Null]));
      LeakBy(d, sensitive, t, v);
    case ListOf(items) =>
      OpenTypeLeaks(d, sensitive, items, secret);
      OneItemLeaks(d, sensitive, items);
    case DictOf(values) =>
      var v :| HasType(d, v, values);
      OneEntryLeaks(d, sensitive, values, secret, v);
    case OneOf(options) =>
      var i: nat :| i < |options| && Open(d, options[i]);
      OpenTypeLeaks(d, sensitive, options[i], secret);
      OptionLeaks(d, sensitive, options, i);
  }

  lemma {:induction false} MentionLeaks(d: Models, sensitive: string -> bool, t: FieldType, m: string)
    requires Mentions(t, m) && Leaks(d, sensitive, Ref(m))
    ensures Leaks(d, sensitive, t)
    decreases t
  {
    match t
    case Ref(_) =>
    case ListOf(items) =>
      MentionLeaks(d, sensitive, items, m);
      OneItemLeaks(d, sensitive, items);
    case DictOf(values) =>
      MentionLeaks(d, sensitive, values, m);
      var v :| HasType(d, v, values) && !Clean(sensitive, Dump(d, v));
      OneEntryLeaks(d, sensitive, values, "", v);
    case OneOf(options) =>
      var i: nat :| i < |options| && Mentions(options[i], m);
      MentionLeaks(d, sensitive, options[i], m);
      OptionLeaks(d, sensitive, options, i);
  }

  /** A model with a value leaks what one of its written fields leaks. */
  lemma FieldLeaks(d: Models, sensitive: string -> bool, n: string, a: string)
    requires HasValue(d, Ref(n)) && Writes(d, n, a) && Leaks(d, sensitive, d.models[n].fields[a].type_)
    ensures Leaks(d, sensitive, Ref(n))
  {
    var v :| HasType(d, v, Ref(n));
    var w :| HasType(d, w, d.models[n].fields[a].type_) && !Clean(sensitive, Dump(d, w));
    var u := Instance(n, v.attributes[a := w], map[]);
    assert Dump(d, u).members[a] == Dump(d, w);
    LeakBy(d, sensitive, Ref(n), u);
  }

  lemma BadModelLeaks(d: Models, sensitive: string -> bool, n: string, secret: string)
    requires HasValue(d, Ref(n)) && n in d.models && !ModelKeeps(d, sensitive, n) && sensitive(secret)
    ensures Leaks(d, sensitive, Ref(n))
  {
    var v :| HasType(d, v, Ref(n));
    if d.models[n].extra.Allow? && !Walked(d, n) {
      var u := Instance(n, v.attributes, map[secret := Null]);
      assert secret in Dump(d, u).members;
      LeakBy(d, sensitive, Ref(n), u);
    } else {
      var a :| Writes(d, n, a) && (Open(d, d.models[n].fields[a].type_) || sensitive(a));
      if sensitive(a) {
        assert a in Dump(d, v).members;
        LeakBy(d, sensitive, Ref(n), v);
      } else {
        OpenTypeLeaks(d, sensitive, d.models[n].fields[a].type_, secret);
        FieldLeaks(d, sensitive, n, a);
      }
    }
  }

  /** A model with a value leaks what a model it holds leaks. */
  lemma HolderLeaks(d: Models, sensitive: string -> bool, n: string, m: string)
    requires Holds(d, n, m) && HasValue(d, Ref(n)) && Leaks(d, sensitive, Ref(m))
    ensures Leaks(d, sensitive, Ref(n))
  {
    var a :| a in d.models[n].fields && d.models[n].fields[a].written && Mentions(d.models[n].fields[a].type_, m);
    MentionLeaks(d, sensitive, d.models[n].fields[a].type_, m);
    FieldLeaks(d, sensitive, n, a);
  }

  lemma PathBefore(d: Models, path: seq<string>)
    requires DumpPath(d, path) && |path| > 1
    ensures DumpPath(d, path[..|path| - 1])
    ensures Holds(d, path[|path| - 2], path[|path| - 1]) && HasValue(d, Ref(path[|path| - 2]))
  {
  }

  lemma {:induction false} PathLeaks(d: Models, sensitive: string -> bool, path: seq<string>)
    requires DumpPath(d, path) && Leaks(d, sensitive, Ref(path[|path| - 1]))
    ensures Leaks(d, sensitive, Ref(d.root))
  {
    if |path| > 1 {
      PathBefore(d, path);
      HolderLeaks(d, sensitive, path[|path| - 2], path[|path| - 1]);
      PathLeaks(d, sensitive, path[..|path| - 1]);
    }
  }

  lemma KeptInputsAreClean(d: Models, sensitive: string -> bool, forbidden: string -> bool, v: Value)
    requires (forall k :: sensitive(k) ==> forbidden(k)) && WalkIsClean(d, forbidden) && KeepsToFields(d, sensitive)
    requires IsInput(d, v)
    ensures Clean(sensitive, Dump(d, v))
  {
    forall m | Mentions(Ref(d.root), m) && HasValue(d, Ref(m)) ensures Dumped(d, m) {
      assert DumpPath(d, [m]) && [m][|[m]| - 1] == m;
    }
    KeptDumpsAreClean(d, sensitive, forbidden, v, Ref(d.root));
  }

  lemma ReachedModelLeaks(d: Models, sensitive: string -> bool, n: string, secret: string)
    requires n in d.models && Dumped(d, n) && !ModelKeeps(d, sensitive, n) && sensitive(secret)
    ensures Leaks(d, sensitive, Ref(d.root))
  {
    var path: seq<string> :| DumpPath(d, path) && path[|path| - 1] == n;
    BadModelLeaks(d, sensitive, n, secret);
    PathLeaks(d, sensitive, path);
  }

  /** Models whose walk is clean never dump a sensitive key exactly when every model a dump can hold keeps to its fields. */
  lemma DumpsAreCleanExactly(d: Models, sensitive: string -> bool, forbidden: string -> bool)
    requires WellFormed(d) && WalkIsClean(d, forbidden) && S.Covers(forbidden, sensitive)
    ensures (forall v :: IsInput(d, v) ==> Clean(sensitive, Dump(d, v))) <==> KeepsToFields(d, sensitive)
  {
    if KeepsToFields(d, sensitive) {
      forall v | IsInput(d, v) ensures Clean(sensitive, Dump(d, v)) { KeptInputsAreClean(d, sensitive, forbidden, v); }
    } else {
      var n :| n in d.models && Dumped(d, n) && !ModelKeeps(d, sensitive, n);
      var secret :| sensitive(secret);
      ReachedModelLeaks(d, sensitive, n, secret);
      var v :| HasType(d, v, Ref(d.root)) && !Clean(sensitive, Dump(d, v));
      assert IsInput(d, v);
    }
  }
}
