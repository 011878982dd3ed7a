/** What the validator accepts, said of the raw members of a document. */
module FrontendAudit {
  import J = Json
  import opened OrderedJson
  import opened FrontendDocument
  import opened FrontendValidator

  // ----- text -----

  predicate OccursAt(s: string, part: string, i: int) {
    0 <= i <= |s| - |part| && s[i..i + |part|] == part
  }

  lemma {:induction false} ContainsExactly(s: string, part: string)
    ensures Contains(s, part) <==> exists i :: OccursAt(s, part, i)
  {
    assert part <= s <==> OccursAt(s, part, 0);
    if s != "" {
      ContainsExactly(s[1..], part);
      forall i ensures OccursAt(s[1..], part, i) ==> OccursAt(s, part, i + 1) {
        assert OccursAt(s[1..], part, i) ==> s[i + 1..i + 1 + |part|] == part;
      }
      forall i | i != 0 ensures OccursAt(s, part, i) ==> OccursAt(s[1..], part, i - 1) {
        assert OccursAt(s, part, i) ==> s[1..][i - 1..i - 1 + |part|] == part;
      }
    }
  }

  /** The part before the first occurrence of a character, or everything. */
  lemma {:induction false} UpToExactly(s: string, stop: char)
    ensures UpTo(s, stop) <= s && stop !in UpTo(s, stop)
    ensures |UpTo(s, stop)| < |s| ==> s[|UpTo(s, stop)|] == stop
  {
    if s != "" && s[0] != stop {
      UpToExactly(s[1..], stop);
      assert UpTo(s, stop) == s[..|UpTo(s, stop)|];
    }
  }

  // ----- every place inside a document -----

  /** The `n`-th child of an array or an object. */
  function Child(d: Doc, n: nat): J.Option<Doc> {
    if d.Arr? && n < |d.items| then J.Some(d.items[n])
    else if d.Obj? && n < |d.members| then J.Some(d.members[n].value)
    else J.None
  }

  function Below(d: Doc, steps: seq<nat>): J.Option<Doc> {
    if steps == [] then J.Some(d)
    else if Child(d, steps[0]).Some? then Below(Child(d, steps[0]).value, steps[1..])
    else J.None
  }

  /** An object with one of the obsolete compiler repair extensions among its keys. */
  predicate Repaired(d: Doc) {
    || Has(d, "x-part-crm-request-digest")
    || Has(d, "x-part-crm-required-response-headers")
    || Has(d, "x-part-crm-browser-transport")
  }

  lemma {:induction false} RepairFound(d: Doc) returns (steps: seq<nat>)
    requires !RepairFree(d)
    ensures Below(d, steps).Some? && Repaired(Below(d, steps).value)
    decreases d
  {
    if Repaired(d) {
      return [];
    }
    var n: nat;
    if d.Arr? {
      n :| n < |d.items| && !RepairFree(d.items[n]);
    } else {
      forall i | 0 <= i < |d.members| ensures d.members[i].key !in FORBIDDEN_REPAIR_EXTENSIONS {
        assert d.members[i].key in Keys(d.members);
      }
      n :| n < |d.members| && !RepairFree(d.members[n].value);
    }
    var rest := RepairFound(Child(d, n).value);
    steps := [n] + rest;
  }

  lemma {:induction false} RepairNowhere(d: Doc, steps: seq<nat>)
    requires RepairFree(d) && Below(d, steps).Some?
    ensures !Repaired(Below(d, steps).value)
    decreases |steps|
  {
    if steps != [] {
      RepairNowhere(Child(d, steps[0]).value, steps[1..]);
    }
  }

  /** The search for obsolete extensions looks at every object, however deep. */
  lemma RepairFreeExactly(d: Doc)
    ensures RepairFree(d) <==> forall steps :: Below(d, steps).Some? ==> !Repaired(Below(d, steps).value)
  {
    if RepairFree(d) {
      forall steps | Below(d, steps).Some? ensures !Repaired(Below(d, steps).value) { RepairNowhere(d, steps); }
    } else {
      var steps := RepairFound(d);
    }
  }

  // ----- every subschema -----

  /** A step from a schema to one of its subschemas. */
  datatype Step = Property(name: string) | Single(key: string) | Branch(key: string, index: nat)

  function Subschema(schema: Doc, step: Step): J.Option<Doc> {
    match step
    case Property(name) => if Has(GetOr(schema, "properties", Null), name) then Get(GetOr(schema, "properties", Null), name) else J.None
    case Single(key) =>
      if key in {"items", "not", "additionalProperties"} && GetOr(schema, key, Null).Obj? then Get(schema, key) else J.None
    case Branch(key, n) =>
      var all := GetOr(schema, key, Null);
      if key in {"oneOf", "anyOf", "allOf"} && all.Arr? && n < |all.items| then J.Some(all.items[n]) else J.None
  }

  function Inside(schema: Doc, steps: seq<Step>): J.Option<Doc> {
    if steps == [] then J.Some(schema)
    else if Subschema(schema, steps[0]).Some? then Inside(Subschema(schema, steps[0]).value, steps[1..])
    else J.None
  }

  /** What is asked of a schema itself: known keywords or extensions, no `nullable`, a
      reference that resolves, and containers of the right kind. */
  predicate OnItsOwn(document: Doc, schema: Doc) {
    && schema.Obj?
    && (forall i :: 0 <= i < |schema.members| ==>
          schema.members[i].key != "nullable" && (schema.members[i].key in SCHEMA_KEYS || "x-" <= schema.members[i].key))
    && (Has(schema, "$ref") ==> Resolve(document, schema).Some?)
    && (GetOr(schema, "properties", Null) == Null || GetOr(schema, "properties", Null).Obj?)
    && (GetOr(schema, "oneOf", Null) == Null || GetOr(schema, "oneOf", Null).Arr?)
    && (GetOr(schema, "anyOf", Null) == Null || GetOr(schema, "anyOf", Null).Arr?)
    && (GetOr(schema, "allOf", Null) == Null || GetOr(schema, "allOf", Null).Arr?)
  }

  lemma OneLevel(document: Doc, schema: Doc)
    ensures SchemaValid(document, schema) <==>
      OnItsOwn(document, schema) && forall step :: Subschema(schema, step).Some? ==> SchemaValid(document, Subschema(schema, step).value)
  {
    if SchemaValid(document, schema) {
      LevelDown(document, schema);
    } else if OnItsOwn(document, schema) {
      var step := InvalidChild(document, schema);
    }
  }

  lemma LevelDown(document: Doc, schema: Doc)
    requires SchemaValid(document, schema)
    ensures OnItsOwn(document, schema)
    ensures forall step :: Subschema(schema, step).Some? ==> SchemaValid(document, Subschema(schema, step).value)
  {
    forall i | 0 <= i < |schema.members| ensures KeyAllowed(schema.members[i].key) {
      assert schema.members[i].key in Keys(schema.members);
    }
    forall step | Subschema(schema, step).Some? ensures SchemaValid(document, Subschema(schema, step).value) {
      ChildValid(document, schema, step);
    }
  }

  lemma ChildValid(document: Doc, schema: Doc, step: Step)
    requires SchemaValid(document, schema) && Subschema(schema, step).Some?
    ensures SchemaValid(document, Subschema(schema, step).value)
  {
  }

  lemma InvalidChild(document: Doc, schema: Doc) returns (step: Step)
    requires !SchemaValid(document, schema) && OnItsOwn(document, schema)
    ensures Subschema(schema, step).Some? && !SchemaValid(document, Subschema(schema, step).value)
  {
    if !PropertiesValid(document, schema) {
      step := InvalidProperty(document, schema);
    } else if key :| key in SINGLE_CHILD && BadSingle(document, schema, key) {
      step := Single(key);
    } else {
      NoBadChild(document, schema);
      var key :| key in MANY_CHILDREN && BadMany(document, schema, key);
      step := InvalidBranch(document, schema, key);
    }
  }

  lemma InvalidProperty(document: Doc, schema: Doc) returns (step: Step)
    requires OnItsOwn(document, schema) && !PropertiesValid(document, schema)
    ensures Subschema(schema, step).Some? && !SchemaValid(document, Subschema(schema, step).value)
  {
    var properties := At(schema.members, "properties");
    var name :| name in Keys(properties.members) && !SchemaValid(document, At(properties.members, name));
    step := Property(name);
  }

  lemma InvalidBranch(document: Doc, schema: Doc, key: string) returns (step: Step)
    requires key in MANY_CHILDREN && BadMany(document, schema, key)
    ensures Subschema(schema, step).Some? && !SchemaValid(document, Subschema(schema, step).value)
  {
    var i: nat :| i < |At(schema.members, key).items| && !SchemaValid(document, At(schema.members, key).items[i]);
    step := Branch(key, i);
  }

  lemma NoBadChild(document: Doc, schema: Doc)
    requires OnItsOwn(document, schema) && PropertiesValid(document, schema)
    requires forall key :: key in SINGLE_CHILD ==> !BadSingle(document, schema, key)
    ensures SchemaValid(document, schema) || exists key :: key in MANY_CHILDREN && BadMany(document, schema, key)
  {
    forall k | k in Keys(schema.members) ensures KeyAllowed(k) {
      var i :| 0 <= i < |schema.members| && schema.members[i].key == k;
    }
    if forall key :: key in MANY_CHILDREN ==> !BadMany(document, schema, key) {
      forall key | key in MANY_CHILDREN && key in Keys(schema.members) && At(schema.members, key) != Null
        ensures At(schema.members, key).Arr? && forall i :: 0 <= i < |At(schema.members, key).items| ==> SchemaValid(document, At(schema.members, key).items[i])
      {
        assert !BadMany(document, schema, key);
      }
      forall key | key in SINGLE_CHILD && key in Keys(schema.members) && At(schema.members, key).Obj?
        ensures SchemaValid(document, At(schema.members, key))
      {
        assert !BadSingle(document, schema, key);
      }
    }
  }

  predicate BadSingle(document: Doc, schema: Doc, key: string) {
    Has(schema, key) && At(schema.members, key).Obj? && !SchemaValid(document, At(schema.members, key))
  }

  predicate BadMany(document: Doc, schema: Doc, key: string) {
    && Has(schema, key) && At(schema.members, key).Arr?
    && exists i :: 0 <= i < |At(schema.members, key).items| && !SchemaValid(document, At(schema.members, key).items[i])
  }

  lemma {:induction false} Nested(document: Doc, schema: Doc, steps: seq<Step>)
    requires SchemaValid(document, schema) && Inside(schema, steps).Some?
    ensures OnItsOwn(document, Inside(schema, steps).value)
    decreases |steps|
  {
    OneLevel(document, schema);
    if steps != [] {
      Nested(document, Subschema(schema, steps[0]).value, steps[1..]);
    }
  }

  lemma SubschemaSmaller(schema: Doc, step: Step)
    requires Subschema(schema, step).Some?
    ensures Subschema(schema, step).value < schema
  {
  }

  lemma {:induction false} Offender(document: Doc, schema: Doc) returns (steps: seq<Step>)
    requires !SchemaValid(document, schema)
    ensures Inside(schema, steps).Some? && !OnItsOwn(document, Inside(schema, steps).value)
    decreases schema
  {
    if !OnItsOwn(document, schema) {
      return [];
    }
    var step := InvalidChild(document, schema);
    SubschemaSmaller(schema, step);
    var rest := Offender(document, Subschema(schema, step).value);
    steps := [step] + rest;
  }

  /** A schema is valid exactly when each of its subschemas, at every depth, is fine on its own. */
  lemma SchemaValidExactly(document: Doc, schema: Doc)
    ensures SchemaValid(document, schema) <==>
      forall steps :: Inside(schema, steps).Some? ==> OnItsOwn(document, Inside(schema, steps).value)
  {
    if SchemaValid(document, schema) {
      forall steps | Inside(schema, steps).Some? ensures OnItsOwn(document, Inside(schema, steps).value) {
        Nested(document, schema, steps);
      }
    } else {
      var steps := Offender(document, schema);
    }
  }

  // ----- contents -----

  /** A problem schema that says nothing. */
  predicate SaysNothing(d: Doc) {
    d == Obj([]) || d == Obj([Member("type", Str("object"))])
  }

  predicate MediaAccepted(u: Unicode, document: Doc, m: Member, problemOnly: bool) {
    var kind, schema := u.lower(u.strip(UpTo(m.key, ';'))), Get(m.value, "schema");
    && (kind == "application/problem+json" || (kind == "application/json" && !problemOnly))
    && schema.Some? && SchemaValid(document, schema.value)
    && (kind == "application/problem+json" ==>
          Resolve(document, schema.value).Some? && !SaysNothing(Resolve(document, schema.value).value))
  }

  /** A content is a non-empty object whose media types are JSON or problem JSON, parameters,
      white space and case aside; each has a valid schema, and that of a problem says something. */
  lemma ContentExactly(u: Unicode, document: Doc, content: Doc, problemOnly: bool)
    requires content.Obj? ==> DistinctMembers(content.members)
    ensures ContentValid(u, document, content, problemOnly) <==>
      content.Obj? && content.members != [] && forall m :: m in content.members ==> MediaAccepted(u, document, m, problemOnly)
  {
    if content.Obj? {
      forall m | m in content.members
        ensures MediaValid(u, document, m.key, At(content.members, m.key), problemOnly) <==> MediaAccepted(u, document, m, problemOnly)
      {
        AtMember(content.members, m);
        MediaExactly(u, document, m, problemOnly);
      }
    }
  }

  lemma AtMember(members: seq<Member>, m: Member)
    requires DistinctMembers(members) && m in members
    ensures m.key in Keys(members) && At(members, m.key) == m.value
  {
    var i :| 0 <= i < |members| && members[i] == m;
    assert IndexOf(members, m.key) == i by {
      assert members[i].key in Keys(members);
    }
  }

  lemma MediaExactly(u: Unicode, document: Doc, m: Member, problemOnly: bool)
    ensures MediaValid(u, document, m.key, m.value, problemOnly) <==> MediaAccepted(u, document, m, problemOnly)
  {
    if Has(m.value, "schema") && Resolve(document, At(m.value.members, "schema")).Some? {
      PermissiveExactly(Resolve(document, At(m.value.members, "schema")).value);
    }
  }

  lemma PermissiveExactly(d: Doc)
    ensures Permissive(d) <==> SaysNothing(d)
  {
    if d.Obj? && |d.members| == 1 {
      assert d.members == [d.members[0]];
      assert Keys(d.members) == {d.members[0].key};
    }
  }

  // ----- parameters and headers -----

  predicate Unset(value: J.Option<Doc>, default: Doc) {
    value == J.None || value == J.Some(default)
  }

  /** Simple style outside the query, form style and exploded inside it; a path parameter
      says that it is required. */
  predicate ParameterAccepted(document: Doc, p: Doc) {
    && Get(p, "name").Some? && Get(p, "name").value.Str? && Get(p, "name").value != Str("")
    && (|| (Get(p, "in") == J.Some(Str("path")) && Get(p, "required") == J.Some(Bool(true))
            && Unset(Get(p, "style"), Str("simple")) && Unset(Get(p, "explode"), Bool(false)))
        || (Get(p, "in") == J.Some(Str("header"))
            && Unset(Get(p, "style"), Str("simple")) && Unset(Get(p, "explode"), Bool(false)))
        || (Get(p, "in") == J.Some(Str("query"))
            && Unset(Get(p, "style"), Str("form")) && Unset(Get(p, "explode"), Bool(true))))
    && Get(p, "schema").Some? && SchemaValid(document, Get(p, "schema").value)
  }

  /** A parameter is valid exactly when what it resolves to is accepted. */
  lemma ParameterExactly(document: Doc, raw: Doc)
    ensures ParameterValid(document, raw) <==>
      Resolve(document, raw).Some? && ParameterAccepted(document, Resolve(document, raw).value)
  {
    if Resolve(document, raw).Some? {
      var p := Resolve(document, raw).value;
      if Get(p, "in") == J.Some(Str("query")) {
        QueryExactly(document, p);
      } else if Get(p, "in") in {J.Some(Str("path")), J.Some(Str("header"))} {
        OthersExactly(document, p, Get(p, "in").value.s);
      }
    }
  }

  lemma QueryExactly(document: Doc, p: Doc)
    requires Get(p, "in") == J.Some(Str("query"))
    ensures ParameterShaped(document, p) <==> ParameterAccepted(document, p)
  {
    assert GetOr(p, "in", Null) == Str("query");
  }

  lemma OthersExactly(document: Doc, p: Doc, location: string)
    requires location in {"path", "header"} && Get(p, "in") == J.Some(Str(location))
    ensures ParameterShaped(document, p) <==> ParameterAccepted(document, p)
  {
    assert GetOr(p, "in", Null) == Str(location);
  }

  predicate HeaderAccepted(document: Doc, m: Member) {
    && m.key != "" && Resolve(document, m.value).Some?
    && var h := Resolve(document, m.value).value;
    && Get(h, "content") == J.None
    && Unset(Get(h, "style"), Str("simple")) && Unset(Get(h, "explode"), Bool(false))
    && Get(h, "schema").Some? && SchemaValid(document, Get(h, "schema").value)
  }

  lemma HeadersExactly(document: Doc, headers: Doc)
    requires headers.Obj? ==> DistinctMembers(headers.members)
    ensures HeadersValid(document, headers) <==>
      headers == Null || (headers.Obj? && forall m :: m in headers.members ==> HeaderAccepted(document, m))
  {
    if headers.Obj? {
      forall m | m in headers.members ensures HeaderValid(document, m.key, At(headers.members, m.key)) <==> HeaderAccepted(document, m) {
        AtMember(headers.members, m);
        HeaderExactly(document, m);
      }
    }
  }

  lemma HeaderExactly(document: Doc, m: Member)
    ensures HeaderValid(document, m.key, m.value) <==> HeaderAccepted(document, m)
  {
  }

  // ----- responses, bodies, security -----

  /** Three digits, the first of them from one to five. */
  lemma StatusExactly(status: string)
    ensures StatusShaped(status) <==>
      |status| == 3 && status[0] in "12345" && status[1] in "0123456789" && status[2] in "0123456789"
    ensures StatusShaped(status) ==> (StatusNumber(status) >= 400 <==> status[0] in "45")
  {
    if |status| == 3 {
      Digit(status[0]);
      Digit(status[1]);
      Digit(status[2]);
    }
  }

  lemma Digit(c: char)
    ensures c in "0123456789" <==> '0' <= c <= '9'
    ensures c in "12345" <==> '1' <= c <= '5'
    ensures c in "45" <==> '4' <= c <= '5'
  {
    var digits := "0123456789";
    if '0' <= c <= '9' { assert digits[c as int - '0' as int] == c; }
    if '1' <= c <= '5' { assert "12345"[c as int - '1' as int] == c; }
    if '4' <= c <= '5' { assert "45"[c as int - '4' as int] == c; }
  }

  /** What a response of this status resolves to: an object without content where the status
      says so, with problem contents alone where it is an error, and accepted headers. */
  predicate ResponseAccepted(u: Unicode, document: Doc, status: string, r: Doc)
    requires status != ""
  {
    && r.Obj?
    && (status == "204" ==> Get(r, "content") == J.None)
    && HeadersValid(document, GetOr(r, "headers", Obj([])))
    && (Unset(Get(r, "content"), Null) || ContentValid(u, document, At(r.members, "content"), status[0] == '4' || status[0] == '5'))
  }

  lemma ProblemContent(u: Unicode, document: Doc, content: Doc)
    ensures ContentValid(u, document, content, true) ==> ContentValid(u, document, content, false)
  {
    if ContentValid(u, document, content, true) {
      forall t | t in Keys(content.members) ensures MediaValid(u, document, t, At(content.members, t), false) {
        assert MediaValid(u, document, t, At(content.members, t), true);
      }
    }
  }

  lemma ResponseExactly(u: Unicode, document: Doc, status: string, raw: Doc)
    ensures ResponseValid(u, document, status, raw) <==>
      StatusShaped(status) && Resolve(document, raw).Some? && ResponseAccepted(u, document, status, Resolve(document, raw).value)
  {
    if StatusShaped(status) && Resolve(document, raw).Some? {
      StatusExactly(status);
      var r := Resolve(document, raw).value;
      ProblemContent(u, document, GetOr(r, "content", Null));
      assert status[0] in "45" <==> status[0] == '4' || status[0] == '5' by { Digit(status[0]); }
    }
  }

  lemma ResponsesExactly(u: Unicode, document: Doc, responses: Doc)
    requires responses.Obj? ==> DistinctMembers(responses.members)
    ensures ResponsesValid(u, document, responses) <==>
      responses.Obj? && responses.members != [] && forall m :: m in responses.members ==> ResponseValid(u, document, m.key, m.value)
  {
    if responses.Obj? {
      forall m | m in responses.members ensures m.key in Keys(responses.members) && At(responses.members, m.key) == m.value {
        AtMember(responses.members, m);
      }
    }
  }

  /** A request body, where there is one, is explicitly required. */
  lemma BodyExactly(u: Unicode, document: Doc, raw: Doc)
    ensures BodyValid(u, document, raw) <==>
      raw == Null
      || (Resolve(document, raw).Some? && Get(Resolve(document, raw).value, "required") == J.Some(Bool(true))
          && Get(Resolve(document, raw).value, "content").Some?
          && ContentValid(u, document, Get(Resolve(document, raw).value, "content").value, false))
  {
  }

  /** Every alternative asks for nothing or for the one accepted scheme, without scopes. */
  lemma SecurityExactly(security: Doc)
    requires WellFormed(security)
    ensures SecurityValid(security) <==>
      security == Null
      || (security.Arr? && forall r :: r in security.items ==> r in {Obj([]), Obj([Member("cloudflareAccessJwt", Arr([]))])})
  {
    if security.Arr? {
      forall r | r in security.items
        ensures RequirementValid(r) <==> r in {Obj([]), Obj([Member("cloudflareAccessJwt", Arr([]))])}
      {
        RequirementExactly(r);
      }
    }
  }

  lemma RequirementExactly(r: Doc)
    requires WellFormed(r)
    ensures RequirementValid(r) <==> r in {Obj([]), Obj([Member("cloudflareAccessJwt", Arr([]))])}
  {
    if r.Obj? && r.members != [] {
      var first := r.members[0];
      assert first.key in Keys(r.members);
      AtMember(r.members, first);
      if |r.members| == 1 {
        assert r.members == [first];
      } else {
        assert r.members[1].key in Keys(r.members);
      }
    }
  }

  // ----- the whole document -----

  /** A parameter that resolves to the path location under this name. */
  predicate PathParameter(document: Doc, raw: Doc, name: string) {
    && Resolve(document, raw).Some?
    && Get(Resolve(document, raw).value, "in") == J.Some(Str("path"))
    && Get(Resolve(document, raw).value, "name") == J.Some(Str(name))
  }

  /** Every operation of an accepted document stands under a relative path of the interface,
      has an identifier, valid parameters, security, body and responses, and declares exactly
      the path parameters its path has places for. */
  lemma AcceptedOperation(u: Unicode, document: Doc, path: string, verb: string)
    requires DocumentValid(u, document) && IsOperation(At(document.members, "paths"), path, verb)
    ensures "/api/v1/" <= path && !Contains(path, "://") && verb in {"get", "post", "put", "patch", "delete"}
    ensures var pathItem, operation := At(At(document.members, "paths").members, path), OperationAt(At(document.members, "paths"), path, verb);
      && operation.Obj? && Get(operation, "operationId").Some?
      && Get(operation, "operationId").value.Str? && Get(operation, "operationId").value != Str("")
      && (forall raw :: raw in AllParameters(pathItem, operation) ==> ParameterValid(document, raw))
      && SecurityValid(if Has(operation, "security") then At(operation.members, "security")
                       else if Has(document, "security") then At(document.members, "security") else Arr([]))
      && (Has(operation, "requestBody") ==> BodyValid(u, document, At(operation.members, "requestBody")))
      && Has(operation, "responses") && ResponsesValid(u, document, At(operation.members, "responses"))
    ensures var pathItem, operation := At(At(document.members, "paths").members, path), OperationAt(At(document.members, "paths"), path, verb);
      forall name :: name in Placeholders(path) <==> exists raw :: raw in AllParameters(pathItem, operation) && PathParameter(document, raw, name)
  {
    var pathItem, operation := At(At(document.members, "paths").members, path), OperationAt(At(document.members, "paths"), path, verb);
    assert PathValid(u, document, path, pathItem);
    assert OperationValid(u, document, path, pathItem, operation);
    forall name ensures name in PathNames(document, AllParameters(pathItem, operation)) <==>
      exists raw :: raw in AllParameters(pathItem, operation) && PathParameter(document, raw, name)
    {
      PathNameExactly(document, AllParameters(pathItem, operation), name);
    }
  }

  lemma PathNameExactly(document: Doc, parameters: seq<Doc>, name: string)
    ensures name in PathNames(document, parameters) <==> exists raw :: raw in parameters && PathParameter(document, raw, name)
  {
    forall raw ensures PathName(document, raw) == J.Some(name) <==> PathParameter(document, raw, name) {
    }
  }

  /** An accepted document is of version 3.1.0 and free of the obsolete extensions at every
      depth; it knows one security scheme at most, and its component schemas are valid. */
  lemma AcceptedDocument(u: Unicode, document: Doc)
    requires DocumentValid(u, document)
    ensures Get(document, "openapi") == J.Some(Str("3.1.0"))
    ensures forall steps :: Below(document, steps).Some? ==> !Repaired(Below(document, steps).value)
    ensures Has(document, "components") && At(document.members, "components").Obj?
    ensures var schemes := GetOr(At(document.members, "components"), "securitySchemes", Null);
      forall name :: Has(schemes, name) ==> name == "cloudflareAccessJwt"
    ensures var schemas := GetOr(At(document.members, "components"), "schemas", Null);
      forall name :: Has(schemas, name) ==> SchemaValid(document, At(schemas.members, name))
  {
    RepairFreeExactly(document);
    assert ComponentsValid(document, At(document.members, "components"));
  }

  /** No identifier names two operations of an accepted document. */
  lemma OneOperationAnId(u: Unicode, document: Doc, p: string, v: string, q: string, w: string)
    requires DocumentValid(u, document)
    requires var paths := At(document.members, "paths");
      && IsOperation(paths, p, v) && IsOperation(paths, q, w)
      && Get(OperationAt(paths, p, v), "operationId") == Get(OperationAt(paths, q, w), "operationId")
    ensures p == q && v == w
  {
    var paths := At(document.members, "paths");
    assert IdAt(paths, p, v) == IdAt(paths, q, w);
  }
}
