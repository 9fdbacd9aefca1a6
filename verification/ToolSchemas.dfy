/**
 The JSON Schema that is written for a tool's models, which is all the import rules read of them: what passes, what stays
 open, and when an input that passed is safe to keep.
 */
module ToolSchemas {
  import opened Base
  import opened CanonicalJson
  import S = DeclaredSchemas
  import opened ToolModels

  // ---- The schema that is written ----

  /** The schema of a type; a dict's is an object schema written in place. */
  function TypeSchema(t: FieldType): Json {
    match t
    case Scalar(keywords) => Object(keywords)
    case Free(keywords) => Object(keywords)
    case Ref(m) => Object(Reference(m))
    case ListOf(items) => Object(map["type" := Text("array"), "items" := TypeSchema(items)])
    case DictOf(values) => Object(map["type" := Text("object"), "additionalProperties" := TypeSchema(values)])
    case OneOf(options) =>
      Object(map["anyOf" := Array(seq(|options|, i requires 0 <= i < |options| => TypeSchema(options[i])))])
  }

  ghost function Properties(m: Model): map<string, Json>
    requires DistinctListings(m)
  {
    map a | a in m.fields && m.fields[a].listed.Some? :: m.fields[a].listed.value := TypeSchema(m.fields[a].type_)
  }

  /** The block of a model with these properties, as far as the rules read it. */
  function Block(extra: Extra, properties: map<string, Json>): map<string, Json> {
    match extra
    case Forbid => map["type" := Text("object"), "properties" := Object(properties), "additionalProperties" := Bool(false)]
    case Ignore => map["type" := Text("object"), "properties" := Object(properties)]
    case Allow => map["type" := Text("object"), "properties" := Object(properties), "additionalProperties" := Bool(true)]
  }

  ghost function ModelBlock(m: Model): map<string, Json>
    requires DistinctListings(m)
  {
    Block(m.extra, Properties(m))
  }

  function WithDefinitions(block: map<string, Json>, definitions: map<string, Json>): map<string, Json> {
    block["$defs" := Object(definitions)]
  }

  function Reference(n: string): map<string, Json> { map["$ref" := Text("#/$defs/" + n)] }

  ghost function Definitions(d: Models): map<string, Json>
    requires WellFormed(d)
  {
    map n | n in d.models && Referenced(d, n) :: Object(ModelBlock(d.models[n]))
  }

  /** model_json_schema(): the input model in place, or by reference when it refers to itself, and the definitions of the
      models that are referred to. */
  ghost function Schema(d: Models): Json
    requires WellFormed(d)
  {
    if Referenced(d, d.root) then Object(WithDefinitions(Reference(d.root), Definitions(d)))
    else if Definitions(d) == map[] then Object(ModelBlock(d.models[d.root]))
    else Object(WithDefinitions(ModelBlock(d.models[d.root]), Definitions(d)))
  }

  /** What the rules read in a block. */
  ghost predicate Reads(b: Json, extra: Extra, properties: map<string, Json>) {
    S.GetDict(b, "properties") == properties && S.IsObjectBlock(b) && (S.RefusesUndeclared(b) <==> extra.Forbid?)
  }

  lemma KeywordsDiffer()
    ensures "$defs" != "type" && "$defs" != "properties" && "$defs" != "additionalProperties" && "$ref" != "type"
    ensures "$ref" != "properties" && "$defs" != "$ref"
  {
    assert |"type"| == 4 && |"properties"| == 10 && |"additionalProperties"| == 20 && |"$defs"| == 5 && |"$ref"| == 4;
    assert "type"[0] != "$ref"[0];
  }

  lemma BlockReads(extra: Extra, properties: map<string, Json>)
    ensures Reads(Object(Block(extra, properties)), extra, properties)
    ensures S.Get(Object(Block(extra, properties)), "$defs") == None
  {
    assert |"type"| == 4 && |"properties"| == 10 && |"additionalProperties"| == 20 && |"$defs"| == 5;
  }

  lemma DefinitionsRead(block: map<string, Json>, definitions: map<string, Json>)
    ensures var more := Object(WithDefinitions(block, definitions));
      && S.GetDict(more, "$defs") == definitions
      && S.Get(more, "properties") == S.Get(Object(block), "properties")
      && S.Get(more, "type") == S.Get(Object(block), "type")
      && S.Get(more, "additionalProperties") == S.Get(Object(block), "additionalProperties")
  {
    KeywordsDiffer();
  }

  lemma ReferenceReads(n: string)
    ensures S.Get(Object(Reference(n)), "properties") == None && S.Get(Object(Reference(n)), "type") == None
  {
    KeywordsDiffer();
  }

  /** What the rules can tell of a schema: its definitions are those of the models referred to, and the top is the input
      model's block, or a reference to it when the input model is referred to itself. */
  ghost predicate Shape(d: Models, schema: Json, definitions: map<string, Json>)
    requires WellFormed(d)
  {
    && S.GetDict(schema, "$defs") == definitions
    && (forall n :: n in definitions <==> n in d.models && Referenced(d, n))
    && (forall n :: n in definitions ==> Reads(definitions[n], d.models[n].extra, Properties(d.models[n])))
    && (if Referenced(d, d.root) then S.GetDict(schema, "properties") == map[] && !S.IsObjectBlock(schema)
        else Reads(schema, d.models[d.root].extra, Properties(d.models[d.root])))
  }

  lemma TopShape(schema: Json, block: map<string, Json>, definitions: map<string, Json>, extra: Extra,
                 properties: map<string, Json>)
    requires Reads(Object(block), extra, properties) && S.Get(Object(block), "$defs") == None
    requires schema == if definitions == map[] then Object(block) else Object(WithDefinitions(block, definitions))
    ensures Reads(schema, extra, properties) && S.GetDict(schema, "$defs") == definitions
  {
    if definitions != map[] { DefinitionsRead(block, definitions); }
  }

  lemma DefinitionReads(d: Models, n: string)
    requires WellFormed(d) && n in Definitions(d)
    ensures Reads(Definitions(d)[n], d.models[n].extra, Properties(d.models[n]))
  {
    BlockReads(d.models[n].extra, Properties(d.models[n]));
  }

  lemma ReferenceShape(schema: Json, n: string, definitions: map<string, Json>)
    requires schema == Object(WithDefinitions(Reference(n), definitions))
    ensures S.GetDict(schema, "$defs") == definitions
    ensures S.GetDict(schema, "properties") == map[] && !S.IsObjectBlock(schema)
  {
    ReferenceReads(n);
    DefinitionsRead(Reference(n), definitions);
  }

  lemma RootShape(d: Models)
    requires WellFormed(d) && !Referenced(d, d.root)
    ensures Reads(Schema(d), d.models[d.root].extra, Properties(d.models[d.root]))
    ensures S.GetDict(Schema(d), "$defs") == Definitions(d)
  {
    var root := d.models[d.root];
    BlockReads(root.extra, Properties(root));
    TopShape(Schema(d), ModelBlock(root), Definitions(d), root.extra, Properties(root));
  }

  lemma DefinitionsReadAll(d: Models)
    requires WellFormed(d)
    ensures forall n :: n in Definitions(d) ==> Reads(Definitions(d)[n], d.models[n].extra, Properties(d.models[n]))
  {
    forall n | n in Definitions(d) ensures Reads(Definitions(d)[n], d.models[n].extra, Properties(d.models[n])) {
      DefinitionReads(d, n);
    }
  }

  lemma SchemaHasShape(d: Models)
    requires WellFormed(d)
    ensures Shape(d, Schema(d), Definitions(d))
  {
    DefinitionsReadAll(d);
    if Referenced(d, d.root) {
      ReferenceShape(Schema(d), d.root, Definitions(d));
    } else {
      RootShape(d);
    }
  }

  lemma PropertiesExactly(m: Model, forbidden: string -> bool)
    requires DistinctListings(m)
    ensures (forall name :: name in Properties(m) ==> !forbidden(name)) <==>
      forall a :: a in m.fields && m.fields[a].listed.Some? ==> !forbidden(m.fields[a].listed.value)
  {
    forall a | a in m.fields && m.fields[a].listed.Some? ensures m.fields[a].listed.value in Properties(m) {
    }
  }

  /** One block passes the rules. */
  ghost predicate BlockPasses(b: Json, forbidden: string -> bool) {
    S.RefusesUndeclared(b) && forall name :: name in S.GetDict(b, "properties") ==> !forbidden(name)
  }

  lemma RulesByBlock(schema: Json, forbidden: string -> bool)
    ensures S.FieldsAreClean(forbidden, schema) && S.Closed(schema) <==>
      forall b :: b in S.Blocks(schema) ==> Passing(forbidden)(b)
  {
    if S.FieldsAreClean(forbidden, schema) && S.Closed(schema) {
      forall b | b in S.Blocks(schema) ensures BlockPasses(b, forbidden) {
        forall name | name in S.GetDict(b, "properties") ensures !forbidden(name) { assert name in S.FieldNames(schema); }
      }
    }
    if forall b :: b in S.Blocks(schema) ==> BlockPasses(b, forbidden) {
      forall name | name in S.FieldNames(schema) ensures !forbidden(name) {
        var b :| b in S.Blocks(schema) && name in S.GetDict(b, "properties");
        assert BlockPasses(b, forbidden);
      }
      forall b | b in S.Blocks(schema) ensures S.RefusesUndeclared(b) { assert BlockPasses(b, forbidden); }
    }
  }

  lemma BlockPassesExactly(b: Json, m: Model, forbidden: string -> bool)
    requires DistinctListings(m) && Reads(b, m.extra, Properties(m))
    ensures BlockPasses(b, forbidden) <==> ModelIsClean(m, forbidden)
  {
    PropertiesExactly(m, forbidden);
  }

  /** The blocks of a schema are its top and its definitions. */
  lemma AllBlocks(schema: Json, definitions: map<string, Json>, p: Json -> bool)
    requires S.GetDict(schema, "$defs") == definitions
    ensures (forall b :: b in S.Blocks(schema) ==> p(b)) <==>
      p(schema) && forall n :: n in definitions ==> p(definitions[n])
  {
    assert S.Blocks(schema) == {schema} + definitions.Values;
    forall n | n in definitions ensures definitions[n] in S.Blocks(schema) {
    }
  }

  ghost function Passing(forbidden: string -> bool): Json -> bool { b => BlockPasses(b, forbidden) }

  /** The definitions pass exactly when the models referred to are clean. */
  lemma DefinitionsPass(d: Models, definitions: map<string, Json>, forbidden: string -> bool)
    requires WellFormed(d)
    requires forall n :: n in definitions <==> n in d.models && Referenced(d, n)
    requires forall n :: n in definitions ==> Reads(definitions[n], d.models[n].extra, Properties(d.models[n]))
    ensures (forall n :: n in definitions ==> Passing(forbidden)(definitions[n])) <==>
      forall n :: n in d.models && Referenced(d, n) ==> ModelIsClean(d.models[n], forbidden)
  {
    forall n | n in definitions ensures Passing(forbidden)(definitions[n]) <==> ModelIsClean(d.models[n], forbidden) {
      BlockPassesExactly(definitions[n], d.models[n], forbidden);
    }
  }

  lemma TopPasses(d: Models, schema: Json, definitions: map<string, Json>, forbidden: string -> bool)
    requires WellFormed(d) && Shape(d, schema, definitions)
    ensures Passing(forbidden)(schema) <==> Referenced(d, d.root) || ModelIsClean(d.models[d.root], forbidden)
  {
    if !Referenced(d, d.root) { BlockPassesExactly(schema, d.models[d.root], forbidden); }
  }

  /** The rules pass a schema exactly when every walked model forbids extra keys and lists no forbidden name. */
  lemma WalkExactly(d: Models, schema: Json, definitions: map<string, Json>, forbidden: string -> bool)
    requires WellFormed(d) && Shape(d, schema, definitions)
    ensures S.FieldsAreClean(forbidden, schema) && S.Closed(schema) <==> WalkIsClean(d, forbidden)
  {
    RulesByBlock(schema, forbidden);
    AllBlocks(schema, definitions, Passing(forbidden));
    DefinitionsPass(d, definitions, forbidden);
    TopPasses(d, schema, definitions, forbidden);
    CleanByParts(d, forbidden);
  }

  lemma CleanByParts(d: Models, forbidden: string -> bool)
    requires WellFormed(d)
    ensures WalkIsClean(d, forbidden) <==>
      && (Referenced(d, d.root) || ModelIsClean(d.models[d.root], forbidden))
      && forall n :: n in d.models && Referenced(d, n) ==> ModelIsClean(d.models[n], forbidden)
  {
  }

  /** The import rules pass the written schema. */
  ghost predicate Passes(d: Models, forbidden: string -> bool)
    requires WellFormed(d)
  {
    S.FieldsAreClean(forbidden, Schema(d)) && S.Closed(Schema(d))
  }

  lemma PassesExactly(d: Models, forbidden: string -> bool)
    requires WellFormed(d)
    ensures Passes(d, forbidden) <==> WalkIsClean(d, forbidden)
  {
    SchemaHasShape(d);
    WalkExactly(d, Schema(d), Definitions(d), forbidden);
  }

  /** Whatever the input, the canonical form has nothing to mask at any depth. */
  ghost predicate SafeToKeep(d: Models, sensitive: string -> bool) {
    forall v :: IsInput(d, v) ==> S.NothingToMask(sensitive, Dump(d, v))
  }

  /** Models whose schema passes the rules never dump a sensitive key, whatever the input, exactly when every model a dump
      can hold keeps to its fields. */
  lemma SafeToKeepExactly(d: Models, sensitive: string -> bool, forbidden: string -> bool)
    requires WellFormed(d) && Passes(d, forbidden) && S.Covers(forbidden, sensitive)
    ensures SafeToKeep(d, sensitive) <==> KeepsToFields(d, sensitive)
  {
    PassesExactly(d, forbidden);
    DumpsAreCleanExactly(d, sensitive, forbidden);
    forall v ensures Clean(sensitive, Dump(d, v)) <==> S.NothingToMask(sensitive, Dump(d, v)) {
      CleanExactly(sensitive, Dump(d, v));
    }
  }

  // ---- What the rules leave open, exactly ----

  /** The schema of the type is closed throughout: it has no dict in it. */
  ghost predicate TypeClosed(t: FieldType) {
    match t
    case Scalar(keywords) => S.ClosedThroughout(Object(keywords))
    case Free(keywords) => S.ClosedThroughout(Object(keywords))
    case Ref(_) => true
    case ListOf(items) => TypeClosed(items)
    case DictOf(_) => false
    case OneOf(options) => forall i :: 0 <= i < |options| ==> TypeClosed(options[i])
  }

  lemma ListSchemaCloses(items: Json)
    ensures S.ClosedThroughout(Object(map["type" := Text("array"), "items" := items])) <==> S.ClosedThroughout(items)
  {
    var m: map<string, Json> := map["type" := Text("array"), "items" := items];
    assert |"type"| == 4 && |"items"| == 5 && |"array"| == 5 && |"object"| == 6;
    assert m["type"] == Text("array") && m["items"] == items;
  }

  lemma DictSchemaIsOpen(values: Json)
    requires values != Bool(false)
    ensures !S.ClosedThroughout(Object(map["type" := Text("object"), "additionalProperties" := values]))
  {
    assert |"type"| == 4 && |"additionalProperties"| == 20;
  }

  lemma OneOfSchemaCloses(options: seq<Json>)
    ensures S.ClosedThroughout(Object(map["anyOf" := Array(options)])) <==>
      forall i :: 0 <= i < |options| ==> S.ClosedThroughout(options[i])
  {
    var m: map<string, Json> := map["anyOf" := Array(options)];
    assert |"type"| == 4 && |"anyOf"| == 5;
    assert m["anyOf"] == Array(options);
  }

  lemma ReferenceCloses(n: string)
    ensures S.ClosedThroughout(Object(Reference(n)))
  {
    KeywordsDiffer();
  }

  lemma {:induction false} TypeClosedExactly(t: FieldType)
    ensures S.ClosedThroughout(TypeSchema(t)) <==> TypeClosed(t)
    ensures TypeSchema(t).Object?
    decreases t
  {
    match t
    case Scalar(_) =>
    case Free(_) =>
    case Ref(m) => ReferenceCloses(m);
    case ListOf(items) =>
      TypeClosedExactly(items);
      ListSchemaCloses(TypeSchema(items));
    case DictOf(values) =>
      TypeClosedExactly(values);
      DictSchemaIsOpen(TypeSchema(values));
    case OneOf(options) =>
      var schemas := seq(|options|, i requires 0 <= i < |options| => TypeSchema(options[i]));
      forall i | 0 <= i < |options| ensures S.ClosedThroughout(schemas[i]) <==> TypeClosed(options[i]) {
        TypeClosedExactly(options[i]);
      }
      OneOfSchemaCloses(schemas);
  }

  /** A dict of schemas is no object schema, whatever its keys. */
  lemma SchemaDictCloses(m: map<string, Json>)
    requires forall k :: k in m ==> m[k].Object?
    ensures S.ClosedThroughout(Object(m)) <==> forall k :: k in m ==> S.ClosedThroughout(m[k])
  {
  }

  lemma BlockCloses(extra: Extra, properties: map<string, Json>)
    requires forall k :: k in properties ==> properties[k].Object?
    ensures S.ClosedThroughout(Object(Block(extra, properties))) <==>
      extra.Forbid? && forall k :: k in properties ==> S.ClosedThroughout(properties[k])
  {
    var b := Block(extra, properties);
    BlockReads(extra, properties);
    SchemaDictCloses(properties);
    assert |"type"| == 4 && |"properties"| == 10 && |"additionalProperties"| == 20;
    assert b["properties"] == Object(properties);
  }

  lemma WithDefinitionsCloses(block: map<string, Json>, definitions: map<string, Json>)
    requires S.Get(Object(block), "$defs") == None && forall k :: k in definitions ==> definitions[k].Object?
    ensures S.ClosedThroughout(Object(WithDefinitions(block, definitions))) <==>
      S.ClosedThroughout(Object(block)) && forall k :: k in definitions ==> S.ClosedThroughout(definitions[k])
  {
    var more := WithDefinitions(block, definitions);
    DefinitionsRead(block, definitions);
    SchemaDictCloses(definitions);
    assert more["$defs"] == Object(definitions);
    assert forall k | k in block :: k in more && more[k] == block[k];
    assert forall k | k in more :: k == "$defs" || k in block;
  }

  /** The model's block is closed throughout. */
  ghost predicate ModelCloses(m: Model) {
    m.extra.Forbid? && forall a :: a in m.fields && m.fields[a].listed.Some? ==> TypeClosed(m.fields[a].type_)
  }

  lemma ModelClosesExactly(m: Model)
    requires DistinctListings(m)
    ensures S.ClosedThroughout(Object(ModelBlock(m))) <==> ModelCloses(m)
  {
    var properties := Properties(m);
    forall a | a in m.fields && m.fields[a].listed.Some?
      ensures m.fields[a].listed.value in properties && properties[m.fields[a].listed.value].Object?
      ensures S.ClosedThroughout(properties[m.fields[a].listed.value]) <==> TypeClosed(m.fields[a].type_)
    {
      TypeClosedExactly(m.fields[a].type_);
    }
    BlockCloses(m.extra, properties);
  }

  lemma DefinitionsClose(d: Models)
    requires WellFormed(d)
    ensures forall n :: n in Definitions(d) ==>
      Definitions(d)[n].Object? && (S.ClosedThroughout(Definitions(d)[n]) <==> ModelCloses(d.models[n]))
  {
    forall n | n in Definitions(d)
      ensures Definitions(d)[n].Object? && (S.ClosedThroughout(Definitions(d)[n]) <==> ModelCloses(d.models[n]))
    {
      ModelClosesExactly(d.models[n]);
    }
  }

  lemma TopCloses(d: Models)
    requires WellFormed(d)
    ensures S.ClosedThroughout(Schema(d)) <==>
      && (Referenced(d, d.root) || ModelCloses(d.models[d.root]))
      && forall n :: n in Definitions(d) ==> S.ClosedThroughout(Definitions(d)[n])
  {
    var root := d.models[d.root];
    DefinitionsClose(d);
    if Referenced(d, d.root) {
      ReferenceCloses(d.root);
      KeywordsDiffer();
      WithDefinitionsCloses(Reference(d.root), Definitions(d));
    } else {
      ModelClosesExactly(root);
      BlockReads(root.extra, Properties(root));
      WithDefinitionsCloses(ModelBlock(root), Definitions(d));
    }
  }

  /** The whole schema tree is closed exactly when every walked model forbids extra keys and none of its listed fields has a
      dict in its type: dicts are all that the walk over the top and the definitions does not close. */
  lemma ClosedThroughoutExactly(d: Models)
    requires WellFormed(d)
    ensures S.ClosedThroughout(Schema(d)) <==> forall n :: n in d.models && Walked(d, n) ==> ModelCloses(d.models[n])
  {
    DefinitionsClose(d);
    TopCloses(d);
    assert forall n :: n in d.models && Referenced(d, n) <==> n in Definitions(d);
  }

  // ---- The witnesses ----

  /** A model with one field. */
  function OneField(name: string, field: Field): Models { Models(map["Input" := Model(Forbid, map[name := field])], "Input") }

  lemma OneFieldIsAlone(name: string, field: Field)
    requires forall m :: !Mentions(field.type_, m)
    ensures WellFormed(OneField(name, field))
    ensures forall n :: !Referenced(OneField(name, field), n)
  {
    var d := OneField(name, field);
    forall n | Referenced(d, n) ensures false { var a, b := ReferenceRefers(d, n); }
  }

  lemma ReferenceRefers(d: Models, n: string) returns (a: string, b: string)
    requires Referenced(d, n)
    ensures Refers(d, a, b)
  {
    var path: seq<string> :| SchemaPath(d, path) && |path| >= 2 && path[|path| - 1] == n;
    a, b := path[0], path[1];
  }

  lemma OneFieldPasses(name: string, field: Field, forbidden: string -> bool)
    requires (forall m :: !Mentions(field.type_, m)) && (field.listed.Some? ==> !forbidden(field.listed.value))
    ensures WellFormed(OneField(name, field)) && Passes(OneField(name, field), forbidden)
  {
    OneFieldIsAlone(name, field);
    PassesExactly(OneField(name, field), forbidden);
  }

  lemma OneFieldCloses(name: string, field: Field)
    requires (forall m :: !Mentions(field.type_, m)) && field.listed.Some? && !TypeClosed(field.type_)
    ensures WellFormed(OneField(name, field)) && !S.ClosedThroughout(Schema(OneField(name, field)))
  {
    var d := OneField(name, field);
    OneFieldIsAlone(name, field);
    ClosedThroughoutExactly(d);
    assert name in d.models[d.root].fields && !ModelCloses(d.models[d.root]) && Walked(d, d.root);
  }

  function DictField(name: string): Field { Field(Some(name), DictOf(Scalar(map[])), true) }

  /** An input whose dict has the key. */
  function DictInput(name: string, key: string): Value {
    Instance("Input", map[name := Table(map[key := Leaf(Null)])], map[])
  }

  lemma DictInputLeaks(sensitive: string -> bool, name: string, secret: string)
    requires sensitive(secret)
    ensures var d, v := OneField(name, DictField(name)), DictInput(name, secret);
      IsInput(d, v) && !Clean(sensitive, Dump(d, v))
  {
    var d, v := OneField(name, DictField(name)), DictInput(name, secret);
    assert HasType(d, v.attributes[name].entries[secret], Scalar(map[]));
    assert HasType(d, v.attributes[name], DictOf(Scalar(map[])));
    var labels := Dump(d, v.attributes[name]);
    assert secret in labels.members;
    assert Writes(d, "Input", name) && Dump(d, v).members[name] == labels;
  }

  /** A dict field passes the rules whatever keys it then admits: the tree is open, and some input keeps a secret. */
  lemma DictFieldLeaks(sensitive: string -> bool, forbidden: string -> bool, name: string, secret: string)
    requires !forbidden(name) && sensitive(secret)
    ensures var d := OneField(name, DictField(name));
      && WellFormed(d) && Passes(d, forbidden) && !S.ClosedThroughout(Schema(d))
      && !SafeToKeep(d, sensitive)
  {
    OneFieldPasses(name, DictField(name), forbidden);
    OneFieldCloses(name, DictField(name));
    DictInputLeaks(sensitive, name, secret);
    CleanExactly(sensitive, Dump(OneField(name, DictField(name)), DictInput(name, secret)));
  }

  lemma RenamedInputLeaks(sensitive: string -> bool, attribute: string, listed: Option<string>, v: Value)
    requires sensitive(attribute) && IsInput(OneField(attribute, Field(listed, Scalar(map[]), true)), v)
    ensures !Clean(sensitive, Dump(OneField(attribute, Field(listed, Scalar(map[]), true)), v))
  {
    var d := OneField(attribute, Field(listed, Scalar(map[]), true));
    assert Writes(d, "Input", attribute) && attribute in Dump(d, v).members;
  }

  lemma RenamedFieldHasInput(attribute: string, listed: Option<string>)
    ensures exists v :: IsInput(OneField(attribute, Field(listed, Scalar(map[]), true)), v)
  {
    var v := Instance("Input", map[attribute := Leaf(Null)], map[]);
    assert HasType(OneField(attribute, Field(listed, Scalar(map[]), true)), v.attributes[attribute], Scalar(map[]));
    assert IsInput(OneField(attribute, Field(listed, Scalar(map[]), true)), v);
  }

  /** A field whose attribute is named as a secret passes the rules under a harmless alias, or computed and so under no name
      at all; every input then keeps the secret's name. */
  lemma RenamedFieldLeaks(sensitive: string -> bool, forbidden: string -> bool, attribute: string, listed: Option<string>)
    requires sensitive(attribute) && (listed.Some? ==> !forbidden(listed.value))
    ensures var d := OneField(attribute, Field(listed, Scalar(map[]), true));
      && WellFormed(d) && Passes(d, forbidden)
      && (exists v :: IsInput(d, v))
      && forall v :: IsInput(d, v) ==> !S.NothingToMask(sensitive, Dump(d, v))
  {
    var field := Field(listed, Scalar(map[]), true);
    OneFieldPasses(attribute, field, forbidden);
    RenamedFieldHasInput(attribute, listed);
    var d := OneField(attribute, field);
    forall v | IsInput(d, v) ensures !S.NothingToMask(sensitive, Dump(d, v)) {
      RenamedInputLeaks(sensitive, attribute, listed, v);
      CleanExactly(sensitive, Dump(d, v));
    }
  }
}
