/**
 What the import rules read in a tool's JSON Schema: the names of its fields and whether its objects are closed. They look
 at the schema's top level and at each of its `$defs`.
 */
module DeclaredSchemas {
  import opened Base
  import opened CanonicalJson
  import R = Redaction

  const NETWORK_LOCATOR_FIELDS: set<string> := {
    "host", "hostname", "ip", "ip_address", "address", "url", "uri", "endpoint", "dsn", "connection_string", "server",
    "target_host"
  }

  const COMMAND_FIELDS: set<string> := {
    "command", "cmd", "commands", "script", "shell", "exec", "execute", "query", "sql", "statement", "payload", "raw",
    "body", "powershell"
  }

  /** dict.get on what may be no dict. */
  function Get(j: Json, key: string): Option<Json> {
    if j.Object? && key in j.members then Some(j.members[key]) else None
  }

  /** dict.get(key, {}), as the items of a dict. */
  function GetDict(j: Json, key: string): map<string, Json> {
    match Get(j, key) case Some(Object(members)) => members case _ => map[]
  }

  /** The blocks the rules walk: the schema and its definitions. */
  function Blocks(schema: Json): set<Json> { {schema} + GetDict(schema, "$defs").Values }

  /** _schema_field_names, as a set. */
  function FieldNames(schema: Json): set<string> {
    set b, name | b in Blocks(schema) && name in GetDict(b, "properties") :: name
  }

  /** Rules 9 to 11 for one name; `lower` stands for str.lower(). The secrets are the fragments redaction masks by. */
  function ForbiddenField(lower: string -> string): string -> bool {
    name => R.IsSensitiveKey(lower)(name) || lower(name) in NETWORK_LOCATOR_FIELDS || lower(name) in COMMAND_FIELDS
  }

  predicate IsObjectBlock(b: Json) { Get(b, "type") == Some(Text("object")) }

  predicate RefusesUndeclared(b: Json) { IsObjectBlock(b) ==> Get(b, "additionalProperties") == Some(Bool(false)) }

  /** _forbids_additional_properties. */
  predicate Closed(schema: Json) { forall b :: b in Blocks(schema) ==> RefusesUndeclared(b) }

  /** Rules 9 to 11. */
  predicate FieldsAreClean(forbidden: string -> bool, schema: Json) {
    forall name :: name in FieldNames(schema) ==> !forbidden(name)
  }

  /** No field the rules walk names a secret, a place or a command. */
  ghost predicate PlainNames(lower: string -> string, schema: Json) {
    forall name :: name in FieldNames(schema) ==>
      !R.IsSensitiveKey(lower)(name) && lower(name) !in NETWORK_LOCATOR_FIELDS && lower(name) !in COMMAND_FIELDS
  }

  /** The value names no secret at any depth, and the collector finds nothing. */
  ghost predicate NothingToMask(sensitive: string -> bool, j: Json) {
    && R.Collected(sensitive, j, 0) == {}
    && forall path, k :: !R.NamesSecret(sensitive, j, path, k)
  }

  /** Every sensitive name is forbidden, and there are such names. */
  ghost predicate Covers(forbidden: string -> bool, sensitive: string -> bool) {
    (forall name :: sensitive(name) ==> forbidden(name)) && exists name :: sensitive(name)
  }

  /** What is forbidden includes secrets, places and commands. */
  ghost predicate Forbids(lower: string -> string, forbidden: string -> bool) {
    && (forall name :: R.IsSensitiveKey(lower)(name) ==> forbidden(name))
    && (forall name :: lower(name) in NETWORK_LOCATOR_FIELDS || lower(name) in COMMAND_FIELDS ==> forbidden(name))
  }

  lemma RulesForbid(lower: string -> string)
    ensures Forbids(lower, ForbiddenField(lower))
  {
  }

  lemma RulesCover(lower: string -> string, sensitive: string -> bool, secret: string)
    requires sensitive == R.IsSensitiveKey(lower) && sensitive(secret)
    ensures Covers(ForbiddenField(lower), sensitive)
  {
    RulesForbid(lower);
  }

  lemma CleanNames(lower: string -> string, forbidden: string -> bool, schema: Json)
    requires Forbids(lower, forbidden) && FieldsAreClean(forbidden, schema)
    ensures PlainNames(lower, schema)
  {
  }

  // ---- What the walk does not reach ----

  /** Every object schema, wherever it stands, is closed. */
  ghost predicate ClosedThroughout(j: Json)
    decreases j
  {
    && RefusesUndeclared(j)
    && match j
       case Object(members) => forall k :: k in members ==> ClosedThroughout(members[k])
       case Array(elements) => forall i :: 0 <= i < |elements| ==> ClosedThroughout(elements[i])
       case _ => true
  }
}
