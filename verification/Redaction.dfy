/** Redaction of JSON by key name, and the screen that applies it to facts before they are stored. */
module Redaction {
  import opened Base
  import opened CanonicalJson
  import Orders

  const REDACTED := "***REDACTED***"
  const TRUNCATED := "***TRUNCATED***"
  const MAX_DEPTH := 12

  const SENSITIVE_KEY_FRAGMENTS: set<string> := {
    "password", "passwd", "secret", "token", "api_key", "apikey", "authorization", "auth_header", "credential",
    "private_key", "privatekey", "ssh_key", "community", "enable_secret", "session_key", "cookie"
  }

  predicate Contains(s: string, fragment: string) { fragment <= s || (s != "" && Contains(s[1..], fragment)) }

  ghost predicate StandsAt(s: string, fragment: string, i: nat) { i + |fragment| <= |s| && s[i..i + |fragment|] == fragment }

  lemma {:induction false} ContainsExactly(s: string, fragment: string)
    ensures Contains(s, fragment) <==> exists i: nat :: StandsAt(s, fragment, i)
  {
    if fragment <= s {
      assert StandsAt(s, fragment, 0);
    } else if s != "" {
      ContainsExactly(s[1..], fragment);
      forall i: nat ensures StandsAt(s[1..], fragment, i) <==> StandsAt(s, fragment, i + 1) {
        assert i + |fragment| <= |s[1..]| ==> s[1..][i..i + |fragment|] == s[i + 1..i + 1 + |fragment|];
      }
      if i: nat :| StandsAt(s, fragment, i) { assert i > 0 && StandsAt(s[1..], fragment, i - 1); }
      if i: nat :| StandsAt(s[1..], fragment, i) { assert StandsAt(s, fragment, i + 1); }
    }
  }

  /** is_sensitive_key; `lower` stands for str.lower(). */
  function IsSensitiveKey(lower: string -> string): string -> bool {
    key => exists f :: f in SENSITIVE_KEY_FRAGMENTS && Contains(lower(key), f)
  }

  /** A key is sensitive exactly when some fragment stands somewhere in it, in lower case. */
  lemma SensitiveExactly(lower: string -> string, key: string)
    ensures IsSensitiveKey(lower)(key) <==>
      exists f: string, i: nat :: f in SENSITIVE_KEY_FRAGMENTS && StandsAt(lower(key), f, i)
  {
    forall f ensures Contains(lower(key), f) <==> exists i: nat :: StandsAt(lower(key), f, i) { ContainsExactly(lower(key), f); }
  }

  /** redact: values under sensitive keys masked, everything at the depth limit cut off. */
  function Redact(sensitive: string -> bool, j: Json, depth: nat): Json
    decreases j
  {
    if depth >= MAX_DEPTH then Text(TRUNCATED)
    else
      match j
      case Object(members) =>
        Object(map k | k in members :: if sensitive(k) then Text(REDACTED) else Redact(sensitive, members[k], depth + 1))
      case Array(elements) =>
        Array(seq(|elements|, i requires 0 <= i < |elements| => Redact(sensitive, elements[i], depth + 1)))
      case _ => j
  }

  /** _collect_redacted_keys, as a set. It stops one level below the redactor. */
  function Collected(sensitive: string -> bool, j: Json, depth: nat): set<string>
    decreases j
  {
    if depth > 12 then {}
    else
      var below := depth + 1;
      match j
      case Object(members) =>
        (set k | k in members && sensitive(k))
        + (set k, inner | k in members && !sensitive(k) && inner in Collected(sensitive, members[k], below) :: inner)
      case Array(elements) =>
        set i, inner | 0 <= i < |elements| && inner in Collected(sensitive, elements[i], below) :: inner
      case _ => {}
  }

  // ---- What redaction hides, exactly ----

  /** Two trees agree wherever redaction looks: outside sensitive keys and above the depth limit. */
  ghost predicate AgreeWhereVisible(sensitive: string -> bool, a: Json, b: Json, depth: nat)
    decreases a
  {
    depth >= MAX_DEPTH
    || match (a, b)
       case (Object(m), Object(n)) =>
         m.Keys == n.Keys && forall k :: k in m && !sensitive(k) ==> AgreeWhereVisible(sensitive, m[k], n[k], depth + 1)
       case (Array(xs), Array(ys)) =>
         |xs| == |ys| && forall i :: 0 <= i < |xs| ==> AgreeWhereVisible(sensitive, xs[i], ys[i], depth + 1)
       case _ => a == b
  }

  /** The result says nothing about what is under a sensitive key or too deep, and everything about the rest. */
  lemma {:induction false} RedactionHidesExactly(sensitive: string -> bool, a: Json, b: Json, depth: nat)
    ensures Redact(sensitive, a, depth) == Redact(sensitive, b, depth) <==> AgreeWhereVisible(sensitive, a, b, depth)
    decreases a
  {
    if depth < MAX_DEPTH {
      match (a, b)
      case (Object(m), Object(n)) =>
        forall k | k in m && k in n
          ensures Redact(sensitive, m[k], depth + 1) == Redact(sensitive, n[k], depth + 1) <==>
            AgreeWhereVisible(sensitive, m[k], n[k], depth + 1)
        {
          RedactionHidesExactly(sensitive, m[k], n[k], depth + 1);
        }
        MembersAgree(sensitive, m, n, depth);
      case (Array(xs), Array(ys)) =>
        forall i | 0 <= i < |xs| && i < |ys|
          ensures Redact(sensitive, xs[i], depth + 1) == Redact(sensitive, ys[i], depth + 1) <==>
            AgreeWhereVisible(sensitive, xs[i], ys[i], depth + 1)
        {
          RedactionHidesExactly(sensitive, xs[i], ys[i], depth + 1);
        }
        ElementsAgree(sensitive, xs, ys, depth);
      case _ =>
    }
  }

  lemma MembersAgree(sensitive: string -> bool, m: map<string, Json>, n: map<string, Json>, depth: nat)
    requires depth < MAX_DEPTH
    ensures Redact(sensitive, Object(m), depth) == Redact(sensitive, Object(n), depth) <==>
      && m.Keys == n.Keys
      && forall k :: k in m && !sensitive(k) ==> Redact(sensitive, m[k], depth + 1) == Redact(sensitive, n[k], depth + 1)
  {
    var a, b := Redact(sensitive, Object(m), depth).members, Redact(sensitive, Object(n), depth).members;
    assert a.Keys == m.Keys && b.Keys == n.Keys;
    if a == b {
      forall k | k in m && !sensitive(k)
        ensures k in n && Redact(sensitive, m[k], depth + 1) == Redact(sensitive, n[k], depth + 1)
      {
        assert k in a.Keys && a[k] == b[k];
      }
    }
  }

  lemma ElementsAgree(sensitive: string -> bool, xs: seq<Json>, ys: seq<Json>, depth: nat)
    requires depth < MAX_DEPTH
    ensures Redact(sensitive, Array(xs), depth) == Redact(sensitive, Array(ys), depth) <==>
      |xs| == |ys| && forall i :: 0 <= i < |xs| ==> Redact(sensitive, xs[i], depth + 1) == Redact(sensitive, ys[i], depth + 1)
  {
    var a, b := Redact(sensitive, Array(xs), depth).elements, Redact(sensitive, Array(ys), depth).elements;
    assert |a| == |xs| && |b| == |ys|;
    if a == b {
      forall i | 0 <= i < |xs| ensures Redact(sensitive, xs[i], depth + 1) == Redact(sensitive, ys[i], depth + 1) {
        assert a[i] == b[i];
      }
    }
  }

  lemma RedactedMember(sensitive: string -> bool, members: map<string, Json>, depth: nat, k: string)
    requires depth < MAX_DEPTH
    ensures var r := Redact(sensitive, Object(members), depth);
      && r.Object? && (k in r.members <==> k in members)
      && (k in members ==> r.members[k] == if sensitive(k) then Text(REDACTED) else Redact(sensitive, members[k], depth + 1))
  {
  }

  lemma RedactedElement(sensitive: string -> bool, elements: seq<Json>, depth: nat, i: nat)
    requires depth < MAX_DEPTH
    ensures var r := Redact(sensitive, Array(elements), depth);
      && r.Array? && |r.elements| == |elements|
      && (i < |elements| ==> r.elements[i] == Redact(sensitive, elements[i], depth + 1))
  {
  }

  lemma {:induction false} RedactedAgrees(sensitive: string -> bool, j: Json, depth: nat)
    ensures AgreeWhereVisible(sensitive, Redact(sensitive, j, depth), j, depth)
    decreases j
  {
    if depth < MAX_DEPTH {
      var r := Redact(sensitive, j, depth);
      match j
      case Object(members) =>
        forall k ensures k in r.members <==> k in members { RedactedMember(sensitive, members, depth, k); }
        forall k | k in r.members && !sensitive(k) ensures AgreeWhereVisible(sensitive, r.members[k], members[k], depth + 1) {
          RedactedMember(sensitive, members, depth, k);
          RedactedAgrees(sensitive, members[k], depth + 1);
        }
      case Array(elements) =>
        RedactedElement(sensitive, elements, depth, 0);
        forall i | 0 <= i < |r.elements| ensures AgreeWhereVisible(sensitive, r.elements[i], elements[i], depth + 1) {
          RedactedElement(sensitive, elements, depth, i);
          RedactedAgrees(sensitive, elements[i], depth + 1);
        }
      case _ =>
    }
  }

  /** Redacting twice redacts no more. */
  lemma RedactIsIdempotent(sensitive: string -> bool, j: Json, depth: nat)
    ensures Redact(sensitive, Redact(sensitive, j, depth), depth) == Redact(sensitive, j, depth)
  {
    RedactedAgrees(sensitive, j, depth);
    RedactionHidesExactly(sensitive, Redact(sensitive, j, depth), j, depth);
  }

  // ---- Which keys are masked, and which are reported ----

  datatype PathStep = Member(key: string) | Element(index: nat)

  /** One step down, not through a sensitive key. */
  function Enter(sensitive: string -> bool, j: Json, step: PathStep): Option<Json> {
    match step
    case Member(k) => if j.Object? && k in j.members && !sensitive(k) then Some(j.members[k]) else None
    case Element(i) => if j.Array? && i < |j.elements| then Some(j.elements[i]) else None
  }

  /** The value at the end of a path that goes through no sensitive key. */
  function Reach(sensitive: string -> bool, j: Json, path: seq<PathStep>): Option<Json>
    decreases |path|
  {
    if path == [] then Some(j)
    else
      match Enter(sensitive, j, path[0])
      case None => None
      case Some(v) => Reach(sensitive, v, path[1..])
  }

  /** The path leads to an object that has k, and k names a secret. */
  ghost predicate NamesSecret(sensitive: string -> bool, j: Json, path: seq<PathStep>, k: string) {
    sensitive(k) && match Reach(sensitive, j, path) case Some(Object(members)) => k in members case _ => false
  }

  lemma RedactedEnter(sensitive: string -> bool, j: Json, depth: nat, step: PathStep)
    requires depth < MAX_DEPTH
    ensures Enter(sensitive, Redact(sensitive, j, depth), step)
         == match Enter(sensitive, j, step) case None => None case Some(v) => Some(Redact(sensitive, v, depth + 1))
  {
    match j
    case Object(members) => if step.Member? { RedactedMember(sensitive, members, depth, step.key); }
    case Array(elements) => if step.Element? { RedactedElement(sensitive, elements, depth, step.index); }
    case _ =>
  }

  /** Redaction goes along paths: down to the limit, what is reached in the result is the redaction of what is reached. */
  lemma {:induction false} RedactAlong(sensitive: string -> bool, j: Json, depth: nat, path: seq<PathStep>)
    requires depth + |path| <= MAX_DEPTH
    ensures Reach(sensitive, Redact(sensitive, j, depth), path)
         == match Reach(sensitive, j, path) case None => None case Some(v) => Some(Redact(sensitive, v, depth + |path|))
    decreases |path|
  {
    if path != [] {
      RedactedEnter(sensitive, j, depth, path[0]);
      var next := Enter(sensitive, j, path[0]);
      if next.Some? { RedactAlong(sensitive, next.value, depth + 1, path[1..]); }
    }
  }

  lemma CollectedFromObject(sensitive: string -> bool, members: map<string, Json>, depth: nat, k: string)
    requires depth <= 12
    ensures k in Collected(sensitive, Object(members), depth) <==>
      || (k in members && sensitive(k))
      || exists name :: name in members && !sensitive(name) && k in Collected(sensitive, members[name], depth + 1)
  {
  }

  lemma CollectedFromArray(sensitive: string -> bool, elements: seq<Json>, depth: nat, k: string)
    requires depth <= 12
    ensures k in Collected(sensitive, Array(elements), depth) <==>
      exists i :: 0 <= i < |elements| && k in Collected(sensitive, elements[i], depth + 1)
  {
  }

  /** Some object within reach, no deeper than 12, has the key. */
  ghost predicate Within(sensitive: string -> bool, j: Json, depth: nat, k: string) {
    exists p :: depth + |p| <= 12 && NamesSecret(sensitive, j, p, k)
  }

  /** The collector reports exactly the sensitive keys of objects reached at depth 12 or above. */
  lemma {:induction false} CollectedExactly(sensitive: string -> bool, j: Json, depth: nat, k: string)
    ensures k in Collected(sensitive, j, depth) <==> Within(sensitive, j, depth, k)
    decreases j
  {
    if depth <= 12 {
      match j
      case Object(members) =>
        forall name | name in members && !sensitive(name)
          ensures k in Collected(sensitive, members[name], depth + 1) <==> Within(sensitive, members[name], depth + 1, k)
        {
          CollectedExactly(sensitive, members[name], depth + 1, k);
        }
        CollectedFromObject(sensitive, members, depth, k);
        ObjectNames(sensitive, members, depth, k);
      case Array(elements) =>
        forall i | 0 <= i < |elements|
          ensures k in Collected(sensitive, elements[i], depth + 1) <==> Within(sensitive, elements[i], depth + 1, k)
        {
          CollectedExactly(sensitive, elements[i], depth + 1, k);
        }
        CollectedFromArray(sensitive, elements, depth, k);
        ArrayNames(sensitive, elements, depth, k);
      case _ =>
        forall p ensures !NamesSecret(sensitive, j, p, k) { }
    }
  }

  lemma ObjectNames(sensitive: string -> bool, members: map<string, Json>, depth: nat, k: string)
    requires depth <= 12
    ensures Within(sensitive, Object(members), depth, k) <==>
      || (k in members && sensitive(k))
      || exists name :: name in members && !sensitive(name) && Within(sensitive, members[name], depth + 1, k)
  {
    if p: seq<PathStep> :| depth + |p| <= 12 && NamesSecret(sensitive, Object(members), p, k) {
      if p != [] { assert NamesSecret(sensitive, members[p[0].key], p[1..], k); }
    }
    if k in members && sensitive(k) { assert NamesSecret(sensitive, Object(members), [], k); }
    if name :| name in members && !sensitive(name) && Within(sensitive, members[name], depth + 1, k) {
      var p: seq<PathStep> :| depth + 1 + |p| <= 12 && NamesSecret(sensitive, members[name], p, k);
      assert ([Member(name)] + p)[1..] == p;
      assert NamesSecret(sensitive, Object(members), [Member(name)] + p, k);
    }
  }

  lemma ArrayNames(sensitive: string -> bool, elements: seq<Json>, depth: nat, k: string)
    requires depth <= 12
    ensures Within(sensitive, Array(elements), depth, k) <==>
      exists i :: 0 <= i < |elements| && Within(sensitive, elements[i], depth + 1, k)
  {
    if p: seq<PathStep> :| depth + |p| <= 12 && NamesSecret(sensitive, Array(elements), p, k) {
      assert p != [] && NamesSecret(sensitive, elements[p[0].index], p[1..], k);
    }
    if i :| 0 <= i < |elements| && Within(sensitive, elements[i], depth + 1, k) {
      var p: seq<PathStep> :| depth + 1 + |p| <= 12 && NamesSecret(sensitive, elements[i], p, k);
      assert ([Element(i)] + p)[1..] == p;
      assert NamesSecret(sensitive, Array(elements), [Element(i)] + p, k);
    }
  }

  /** The redacted tree holds, at the path, an object whose k is masked. */
  ghost predicate MaskedAt(sensitive: string -> bool, redacted: Json, path: seq<PathStep>, k: string) {
    match Reach(sensitive, redacted, path)
    case Some(Object(members)) => k in members && members[k] == Text(REDACTED)
    case _ => false
  }

  /** A sensitive key is masked where it stands exactly when it stands above depth 12; at 12 its object is cut off. */
  lemma MaskedAboveTheLimit(sensitive: string -> bool, j: Json, path: seq<PathStep>, k: string)
    requires NamesSecret(sensitive, j, path, k) && |path| <= MAX_DEPTH
    ensures MaskedAt(sensitive, Redact(sensitive, j, 0), path, k) <==> |path| < MAX_DEPTH
  {
    RedactAlong(sensitive, j, 0, path);
  }

  /** Every masked key is reported. The report names more only for objects at depth exactly 12, which are cut off whole;
      without one, reported and masked are the same keys. */
  lemma ReportCoversMask(sensitive: string -> bool, j: Json, k: string)
    ensures var out := Redact(sensitive, j, 0);
      k in Collected(sensitive, j, 0) <==>
        || (exists p :: |p| < MAX_DEPTH && NamesSecret(sensitive, j, p, k) && MaskedAt(sensitive, out, p, k))
        || (exists p :: |p| == MAX_DEPTH && NamesSecret(sensitive, j, p, k))
  {
    CollectedExactly(sensitive, j, 0, k);
    if k in Collected(sensitive, j, 0) {
      var p :| |p| <= 12 && NamesSecret(sensitive, j, p, k);
      MaskedAboveTheLimit(sensitive, j, p, k);
    }
  }

  /** Whatever the tree, no path into the redacted one meets a secret: under every sensitive key there is only the mask. */
  lemma RedactedIsClean(sensitive: string -> bool, j: Json, path: seq<PathStep>, k: string)
    requires NamesSecret(sensitive, Redact(sensitive, j, 0), path, k)
    ensures MaskedAt(sensitive, Redact(sensitive, j, 0), path, k)
  {
    var out := Redact(sensitive, j, 0);
    if |path| < MAX_DEPTH {
      RedactAlong(sensitive, j, 0, path);
    } else {
      ReachInTwo(sensitive, out, path, MAX_DEPTH);
      RedactAlong(sensitive, j, 0, path[..MAX_DEPTH]);
    }
  }

  lemma {:induction false} ReachInTwo(sensitive: string -> bool, j: Json, path: seq<PathStep>, n: nat)
    requires n <= |path|
    decreases n
    ensures Reach(sensitive, j, path)
         == match Reach(sensitive, j, path[..n]) case None => None case Some(v) => Reach(sensitive, v, path[n..])
  {
    if n > 0 {
      assert path[..n][1..] == path[1..][..n - 1] && path[1..][n - 1..] == path[n..];
      var next := Enter(sensitive, j, path[0]);
      if next.Some? { ReachInTwo(sensitive, next.value, path[1..], n - 1); }
    } else {
      assert path[0..] == path;
    }
  }

  // ---- The value screen ----

  const MAX_TEXT_VALUE_LENGTH := 64_000
  const MAX_JSON_VALUE_BYTES := 64_000

  const SENSITIVE_PREDICATE_COMPONENTS: set<string> := {
    "password", "passwd", "secret", "token", "api_key", "apikey", "authorization", "auth_header", "credential",
    "private_key", "privatekey", "community", "enable_secret", "session_key", "cookie"
  }

  const SAFE_PREDICATES: set<string> := {"ssh_key.public", "cert.ssh_key_fingerprint", "community.edition"}

  /** What stands between the dots; the empty parts do not count. */
  function Components(s: string, current: string): set<string> {
    if s == "" then {current}
    else if s[0] == '.' then {current} + Components(s[1..], "")
    else Components(s[1..], current + [s[0]])
  }

  function Join(parts: seq<string>): string
    requires parts != []
  {
    if |parts| == 1 then parts[0] else parts[0] + "." + Join(parts[1..])
  }

  lemma {:induction false} ComponentsAfter(part: string, rest: string, current: string)
    requires '.' !in part
    ensures Components(part + rest, current) == Components(rest, current + part)
  {
    if part == "" {
      assert part + rest == rest && current + part == current;
    } else {
      assert (part + rest)[1..] == part[1..] + rest;
      ComponentsAfter(part[1..], rest, current + [part[0]]);
      assert current + [part[0]] + part[1..] == current + part;
    }
  }

  /** Splitting a dotted name gives back its parts. */
  lemma {:induction false} ComponentsOfJoin(parts: seq<string>)
    requires parts != [] && forall i :: 0 <= i < |parts| ==> '.' !in parts[i]
    ensures Components(Join(parts), "") == set part | part in parts
  {
    if |parts| == 1 {
      ComponentsAfter(parts[0], "", "");
      assert parts[0] + "" == parts[0] && "" + parts[0] == parts[0];
    } else {
      var rest := Join(parts[1..]);
      ComponentsAfter(parts[0], "." + rest, "");
      assert "" + parts[0] == parts[0] && parts[0] + ("." + rest) == parts[0] + "." + rest;
      assert ("." + rest)[1..] == rest;
      ComponentsOfJoin(parts[1..]);
      assert forall p :: p in parts <==> p == parts[0] || p in parts[1..];
    }
  }

  /** The stretch of the text is one component: it holds no dot and stands between dots or ends. */
  ghost predicate IsComponent(s: string, from: nat, to: nat)
    requires from <= to <= |s|
  {
    '.' !in s[from..to] && (from == 0 || s[from - 1] == '.') && (to == |s| || s[to] == '.')
  }

  /** The component begins where the current one does or later, and does not end before the position. */
  ghost predicate FromHere(s: string, from: nat, at: nat, i: int, j: int, c: string) {
    from <= i <= j <= |s| && (i == from || i > at) && j >= at && IsComponent(s, i, j) && s[i..j] == c
  }

  ghost predicate SomeFrom(s: string, from: nat, at: nat, c: string) { exists i, j :: FromHere(s, from, at, i, j, c) }

  lemma DotSplits(s: string, from: nat, at: nat, c: string)
    requires from <= at < |s| && s[at] == '.' && '.' !in s[from..at] && (from == 0 || s[from - 1] == '.')
    ensures SomeFrom(s, from, at, c) <==> c == s[from..at] || SomeFrom(s, at + 1, at + 1, c)
  {
    var next := at + 1;
    if i, j :| FromHere(s, from, at, i, j, c) { DotEnds(s, from, at, i, j, c); }
    if i, j :| FromHere(s, next, next, i, j, c) { DotEnds(s, from, at, i, j, c); }
    DotEnds(s, from, at, from, at, s[from..at]);
  }

  lemma DotEnds(s: string, from: nat, at: nat, i: int, j: int, c: string)
    requires from <= at < |s| && s[at] == '.' && '.' !in s[from..at] && (from == 0 || s[from - 1] == '.')
    ensures FromHere(s, from, at, i, j, c) <==> (i == from && j == at && c == s[from..at]) || FromHere(s, at + 1, at + 1, i, j, c)
  {
    assert i == from && at < j <= |s| ==> s[from..j][at - from] == '.';
  }

  lemma NoDotGoesOn(s: string, from: nat, at: nat, i: int, j: int, c: string)
    requires from <= at < |s| && s[at] != '.'
    ensures FromHere(s, from, at, i, j, c) <==> FromHere(s, from, at + 1, i, j, c)
  {
  }

  lemma NoDotPasses(s: string, from: nat, at: nat, c: string)
    requires from <= at < |s| && s[at] != '.'
    ensures SomeFrom(s, from, at, c) <==> SomeFrom(s, from, at + 1, c)
  {
    var next := at + 1;
    if i, j :| FromHere(s, from, at, i, j, c) { NoDotGoesOn(s, from, at, i, j, c); }
    if i, j :| FromHere(s, from, next, i, j, c) { NoDotGoesOn(s, from, at, i, j, c); }
  }

  /** From a position on, the components are the stretch that goes on from `current` and those that begin later. */
  lemma {:induction false} ComponentsFrom(s: string, from: nat, at: nat, c: string)
    requires from <= at <= |s| && '.' !in s[from..at] && (from == 0 || s[from - 1] == '.')
    ensures c in Components(s[at..], s[from..at]) <==> SomeFrom(s, from, at, c)
    decreases |s| - at
  {
    var rest, current := s[at..], s[from..at];
    if at == |s| {
      assert Components(rest, current) == {current} && FromHere(s, from, at, from, at, current);
    } else if s[at] == '.' {
      assert rest[1..] == s[at + 1..] && s[at + 1..at + 1] == "";
      assert Components(rest, current) == {current} + Components(s[at + 1..], s[at + 1..at + 1]);
      ComponentsFrom(s, at + 1, at + 1, c);
      DotSplits(s, from, at, c);
    } else {
      assert rest[1..] == s[at + 1..] && current + [s[at]] == s[from..at + 1];
      assert Components(rest, current) == Components(s[at + 1..], s[from..at + 1]);
      ComponentsFrom(s, from, at + 1, c);
      NoDotPasses(s, from, at, c);
    }
  }

  /** Splitting at the dots gives exactly what stands between them. */
  lemma ComponentsExactly(s: string, c: string)
    ensures c in Components(s, "") <==> exists i, j :: 0 <= i <= j <= |s| && IsComponent(s, i, j) && s[i..j] == c
  {
    ComponentsFrom(s, 0, 0, c);
    assert s[0..] == s && s[0..0] == "";
    if i, j :| 0 <= i <= j <= |s| && IsComponent(s, i, j) && s[i..j] == c { assert FromHere(s, 0, 0, i, j, c); }
    if i, j :| FromHere(s, 0, 0, i, j, c) { assert IsComponent(s, i, j); }
  }

  predicate PredicateNamesSecret(lower: string -> string, name: string) {
    var lowered := lower(name);
    lowered !in SAFE_PREDICATES
    && exists c :: c in Components(lowered, "") && c != "" && c in SENSITIVE_PREDICATE_COMPONENTS
  }

  /** What the screen lets through: the value to store and the keys it masked, in order. */
  datatype Screened = Accepted(json: Option<Json>, redactedKeys: seq<string>) | SecretRejected

  /** FactValueScreen.screen; `size` stands for the bytes of a value's rendering. */
  function Screen(lower: string -> string, size: Json -> nat, name: string, text: Option<string>, json: Option<Json>): Screened {
    if PredicateNamesSecret(lower, name) then SecretRejected
    else if text.Some? && |text.value| > MAX_TEXT_VALUE_LENGTH then SecretRejected
    else if json.None? then Accepted(None, [])
    else if size(json.value) > MAX_JSON_VALUE_BYTES then SecretRejected
    else
      var sensitive := IsSensitiveKey(lower);
      Accepted(Some(Redact(sensitive, json.value, 0)), Orders.SortedStrings(Collected(sensitive, json.value, 0)))
  }

  /** The predicate, in lower case, is none of those known to be safe and has a component that names a secret. */
  ghost predicate SaysSecret(lowered: string) {
    && lowered !in SAFE_PREDICATES
    && exists i, j :: 0 <= i <= j <= |lowered| && IsComponent(lowered, i, j) && lowered[i..j] in SENSITIVE_PREDICATE_COMPONENTS
  }

  lemma SaysSecretExactly(lower: string -> string, name: string)
    ensures PredicateNamesSecret(lower, name) <==> SaysSecret(lower(name))
  {
    var lowered := lower(name);
    NoEmptySecret();
    forall c ensures c in Components(lowered, "") <==>
      exists i, j :: 0 <= i <= j <= |lowered| && IsComponent(lowered, i, j) && lowered[i..j] == c
    {
      ComponentsExactly(lowered, c);
    }
  }

  lemma NoEmptySecret()
    ensures "" !in SENSITIVE_PREDICATE_COMPONENTS
  {
  }

  /** The screen refuses a fact exactly when its predicate names a secret or its text or document is too large. */
  lemma ScreenRefusesExactly(lower: string -> string, size: Json -> nat, name: string, text: Option<string>,
                             json: Option<Json>)
    ensures Screen(lower, size, name, text, json).SecretRejected? <==>
      || SaysSecret(lower(name))
      || (text.Some? && |text.value| > 64_000)
      || (json.Some? && size(json.value) > 64_000)
  {
    SaysSecretExactly(lower, name);
  }

  /** A document it lets through is stored as it was wherever redaction lets see, and the report lists, in ascending order,
      the sensitive keys of its objects down to depth 12; without a document there is neither. */
  lemma ScreenStoresExactly(lower: string -> string, size: Json -> nat, name: string, text: Option<string>, json: Option<Json>)
    requires Screen(lower, size, name, text, json).Accepted?
    ensures var r := Screen(lower, size, name, text, json);
      match json
      case None => r == Accepted(None, [])
      case Some(j) =>
        && r.json.Some? && AgreeWhereVisible(IsSensitiveKey(lower), r.json.value, j, 0)
        && Orders.Ascending(Orders.StringLess, r.redactedKeys)
        && forall k :: k in r.redactedKeys <==> Within(IsSensitiveKey(lower), j, 0, k)
  {
    if json.Some? { CollectedInOrder(IsSensitiveKey(lower), json.value); }
  }

  lemma CollectedInOrder(sensitive: string -> bool, j: Json)
    ensures AgreeWhereVisible(sensitive, Redact(sensitive, j, 0), j, 0)
    ensures Orders.Ascending(Orders.StringLess, Orders.SortedStrings(Collected(sensitive, j, 0)))
    ensures forall k :: k in Orders.SortedStrings(Collected(sensitive, j, 0)) <==> Within(sensitive, j, 0, k)
  {
    RedactedAgrees(sensitive, j, 0);
    Orders.SortedStringsAscend(Collected(sensitive, j, 0));
    forall k ensures k in Collected(sensitive, j, 0) <==> Within(sensitive, j, 0, k) { CollectedExactly(sensitive, j, 0, k); }
  }

  lemma RedactedIsCleanAndReported(sensitive: string -> bool, j: Json, path: seq<PathStep>, k: string)
    ensures var out := Redact(sensitive, j, 0);
      && (NamesSecret(sensitive, out, path, k) ==> MaskedAt(sensitive, out, path, k))
      && (|path| < MAX_DEPTH && NamesSecret(sensitive, j, path, k) ==>
            MaskedAt(sensitive, out, path, k) && k in Collected(sensitive, j, 0))
  {
    if NamesSecret(sensitive, Redact(sensitive, j, 0), path, k) { RedactedIsClean(sensitive, j, path, k); }
    if |path| < MAX_DEPTH && NamesSecret(sensitive, j, path, k) {
      MaskedAboveTheLimit(sensitive, j, path, k);
      CollectedExactly(sensitive, j, 0, k);
    }
  }

  /** What is stored holds no secret under a sensitive key, is what screening it again would store, and whatever was
      masked in it is named in the report. */
  lemma StoredValuesAreClean(lower: string -> string, size: Json -> nat, name: string, text: Option<string>, json: Json,
                             path: seq<PathStep>, k: string)
    requires Screen(lower, size, name, text, Some(json)).Accepted?
    ensures var r := Screen(lower, size, name, text, Some(json)); var sensitive := IsSensitiveKey(lower);
      && r.json.Some? && Redact(sensitive, r.json.value, 0) == r.json.value
      && (NamesSecret(sensitive, r.json.value, path, k) ==> MaskedAt(sensitive, r.json.value, path, k))
      && (|path| < MAX_DEPTH && NamesSecret(sensitive, json, path, k) ==>
            MaskedAt(sensitive, r.json.value, path, k) && k in r.redactedKeys)
  {
    RedactIsIdempotent(IsSensitiveKey(lower), json, 0);
    RedactedIsCleanAndReported(IsSensitiveKey(lower), json, path, k);
  }

  /** _collect_redacted_keys: the names appended as they are met. */
  method CollectRedactedKeys(sensitive: string -> bool, j: Json, depth: nat) returns (found: seq<string>)
    ensures (set k | k in found) == Collected(sensitive, j, depth)
    decreases j, 1
  {
    found := [];
    if depth > 12 { return; }
    match j {
      case Object(members) => found := CollectFromMembers(sensitive, members, depth);
      case Array(elements) => found := CollectFromElements(sensitive, elements, depth);
      case _ =>
    }
  }

  method CollectFromMembers(sensitive: string -> bool, members: map<string, Json>, depth: nat) returns (found: seq<string>)
    requires depth <= 12
    ensures (set k | k in found) == Collected(sensitive, Object(members), depth)
    decreases Object(members), 0
  {
    found := [];
    var rest := members.Keys;
    while rest != {}
      invariant rest <= members.Keys
      invariant (set k | k in found) == NamesFrom(sensitive, members, members.Keys - rest, depth)
      decreases rest
    {
      var key :| key in rest;
      ghost var before, done := found, members.Keys - rest;
      rest := rest - {key};
      assert members.Keys - rest == done + {key};
      NamesFromNext(sensitive, members, done, key, depth);
      if sensitive(key) {
        found := found + [key];
      } else {
        var inner := CollectRedactedKeys(sensitive, members[key], depth + 1);
        found := found + inner;
        assert (set k | k in found) == (set k | k in before) + (set k | k in inner);
      }
    }
    assert members.Keys - {} == members.Keys;
    NamesFromAll(sensitive, members, depth);
  }

  method CollectFromElements(sensitive: string -> bool, elements: seq<Json>, depth: nat) returns (found: seq<string>)
    requires depth <= 12
    ensures (set k | k in found) == Collected(sensitive, Array(elements), depth)
    decreases Array(elements), 0
  {
    found := [];
    var n := 0;
    while n < |elements|
      invariant n <= |elements|
      invariant (set k | k in found) == NamesWithin(sensitive, elements, n, depth)
    {
      var inner := CollectRedactedKeys(sensitive, elements[n], depth + 1);
      ghost var before := found;
      found := found + inner;
      assert (set k | k in found) == (set k | k in before) + (set k | k in inner);
      NamesWithinNext(sensitive, elements, n, depth);
      n := n + 1;
    }
    NamesWithinAll(sensitive, elements, depth);
  }

  /** What the first n elements contribute. */
  ghost function NamesWithin(sensitive: string -> bool, elements: seq<Json>, n: nat, depth: nat): set<string>
    requires n <= |elements|
  {
    var below := depth + 1;
    set i, inner | 0 <= i < n && inner in Collected(sensitive, elements[i], below) :: inner
  }

  lemma NamesWithinNext(sensitive: string -> bool, elements: seq<Json>, n: nat, depth: nat)
    requires n < |elements|
    ensures NamesWithin(sensitive, elements, n + 1, depth)
         == NamesWithin(sensitive, elements, n, depth) + Collected(sensitive, elements[n], depth + 1)
  {
  }

  lemma NamesWithinAll(sensitive: string -> bool, elements: seq<Json>, depth: nat)
    requires depth <= 12
    ensures NamesWithin(sensitive, elements, |elements|, depth) == Collected(sensitive, Array(elements), depth)
  {
  }

  /** What the keys in `done` contribute. */
  ghost function NamesFrom(sensitive: string -> bool, members: map<string, Json>, done: set<string>, depth: nat): set<string>
    requires done <= members.Keys
  {
    var below := depth + 1;
    (set k | k in done && sensitive(k))
    + (set k, inner | k in done && !sensitive(k) && inner in Collected(sensitive, members[k], below) :: inner)
  }

  lemma NamesFromNext(sensitive: string -> bool, members: map<string, Json>, done: set<string>, key: string, depth: nat)
    requires done <= members.Keys && key in members
    ensures NamesFrom(sensitive, members, done + {key}, depth)
         == NamesFrom(sensitive, members, done, depth)
              + (if sensitive(key) then {key} else Collected(sensitive, members[key], depth + 1))
  {
  }

  lemma NamesFromAll(sensitive: string -> bool, members: map<string, Json>, depth: nat)
    requires depth <= 12
    ensures NamesFrom(sensitive, members, members.Keys, depth) == Collected(sensitive, Object(members), depth)
  {
  }
}
