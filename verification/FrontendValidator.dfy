/** What the frontend compiler's validator accepts. */
module FrontendValidator {
  import J = Json
  import opened OrderedJson
  import opened FrontendDocument

  /** The parts of Python's Unicode tables the scripts call: `str.lower` and `str.strip`. */
  datatype Unicode = Unicode(lower: string -> string, strip: string -> string)

  const HTTP_METHODS := {"get", "post", "put", "patch", "delete"}
  const ALLOWED_SECURITY := {"cloudflareAccessJwt"}
  const PROBLEM := "application/problem+json"
  const ALLOWED_MEDIA_TYPES := {"application/json", PROBLEM}
  const FORBIDDEN_REPAIR_EXTENSIONS := {
    "x-part-crm-request-digest", "x-part-crm-required-response-headers", "x-part-crm-browser-transport"}
  const SCHEMA_KEYS := {
    "$ref", "$comment", "title", "description", "type", "format", "enum", "const", "default", "examples",
    "properties", "required", "additionalProperties", "items", "oneOf", "anyOf", "allOf", "not",
    "minimum", "maximum", "exclusiveMinimum", "exclusiveMaximum", "multipleOf", "minLength", "maxLength",
    "pattern", "minItems", "maxItems", "uniqueItems", "minProperties", "maxProperties", "readOnly", "writeOnly"}
  const SINGLE_CHILD := {"items", "not", "additionalProperties"}
  const MANY_CHILDREN := {"oneOf", "anyOf", "allOf"}

  // ----- text -----

  predicate Contains(s: string, part: string) {
    part <= s || (s != "" && Contains(s[1..], part))
  }

  /** Length of the longest prefix without a brace. */
  function Run(s: string): (n: nat)
    ensures n <= |s|
    ensures forall i :: 0 <= i < n ==> s[i] != '{' && s[i] != '}'
    ensures n < |s| ==> s[n] == '{' || s[n] == '}'
  {
    if s == "" || s[0] == '{' || s[0] == '}' then 0 else 1 + Run(s[1..])
  }

  /** `set(re.findall(r"\\{([^{}]+)\\}", s))`. */
  function Placeholders(s: string): set<string>
    decreases |s|
  {
    if s == "" then {}
    else if s[0] != '{' then Placeholders(s[1..])
    else
      var n := Run(s[1..]);
      if n > 0 && n + 1 < |s| && s[n + 1] == '}' then {s[1..n + 1]} + Placeholders(s[n + 2..])
      else Placeholders(s[1..])
  }

  /** `{name}` stands at position `i`. */
  ghost predicate Stands(s: string, i: nat, name: string) {
    && name != "" && '{' !in name && '}' !in name
    && i + |name| + 1 < |s|
    && s[i] == '{' && s[i + 1..i + 1 + |name|] == name && s[i + 1 + |name|] == '}'
  }

  lemma StandsTail(s: string, k: nat, i: nat, name: string)
    requires k <= |s|
    ensures Stands(s[k..], i, name) <==> Stands(s, k + i, name)
  {
    if i + |name| + 1 < |s| - k {
      assert s[k..][i + 1..i + 1 + |name|] == s[k + i + 1..k + i + 1 + |name|];
    }
  }

  ghost predicate StandsSomewhere(s: string, name: string) {
    exists i: nat :: Stands(s, i, name)
  }

  lemma {:induction false} RunIs(s: string, n: nat, name: string)
    requires n < |s| && s[..n] == name && '{' !in name && '}' !in name && (s[n] == '{' || s[n] == '}')
    ensures Run(s) == n
  {
    assert forall j :: 0 <= j < n ==> s[j] == name[j];
  }

  lemma SameRun(s: string, n: nat, name: string)
    requires s != "" && n == Run(s[1..]) && Stands(s, 0, name)
    ensures name == s[1..n + 1]
  {
    assert s[1..][..|name|] == name;
    RunIs(s[1..], |name|, name);
  }

  predicate OpensName(s: string) {
    s != "" && s[0] == '{' && Run(s[1..]) > 0 && Run(s[1..]) + 1 < |s| && s[Run(s[1..]) + 1] == '}'
  }

  lemma OpenedName(s: string, name: string)
    requires OpensName(s)
    ensures var n := Run(s[1..]);
      StandsSomewhere(s, name) <==> name == s[1..n + 1] || StandsSomewhere(s[n + 2..], name)
  {
    var n := Run(s[1..]);
    assert forall j :: 1 <= j <= n ==> s[j] == s[1..][j - 1];
    if name == s[1..n + 1] { assert Stands(s, 0, name); }
    var rest := s[n + 2..];
    if i: nat :| Stands(rest, i, name) { StandsTail(s, n + 2, i, name); }
    if i: nat :| Stands(s, i, name) {
      if i == 0 { SameRun(s, n, name); }
      if i >= n + 2 { StandsTail(s, n + 2, i - n - 2, name); }
    }
  }

  lemma NoNameOpened(s: string, name: string)
    requires s != "" && !OpensName(s)
    ensures StandsSomewhere(s, name) <==> StandsSomewhere(s[1..], name)
  {
    if i: nat :| Stands(s[1..], i, name) { StandsTail(s, 1, i, name); }
    if i: nat :| Stands(s, i, name) {
      if i == 0 {
        assert s[1..][|name|] == '}' && s[1..][..|name|] == name;
        RunIs(s[1..], |name|, name);
      } else {
        StandsTail(s, 1, i - 1, name);
      }
    }
  }

  /** The scan finds exactly the brace-free non-empty names that stand in braces somewhere. */
  lemma {:induction false} PlaceholdersExactly(s: string, name: string)
    ensures name in Placeholders(s) <==> StandsSomewhere(s, name)
    decreases |s|
  {
    if s != "" {
      if OpensName(s) {
        PlaceholdersExactly(s[Run(s[1..]) + 2..], name);
        OpenedName(s, name);
      } else {
        PlaceholdersExactly(s[1..], name);
        NoNameOpened(s, name);
      }
    }
  }

  // ----- schemas -----

  predicate KeyAllowed(key: string) {
    (key in SCHEMA_KEYS || "x-" <= key) && key != "nullable"
  }

  predicate SchemaValid(document: Doc, schema: Doc)
    decreases schema
  {
    && schema.Obj?
    && (forall k :: k in Keys(schema.members) ==> KeyAllowed(k))
    && (Has(schema, "$ref") ==> Resolve(document, schema).Some?)
    && PropertiesValid(document, schema)
    && (forall k :: k in SINGLE_CHILD && k in Keys(schema.members) && At(schema.members, k).Obj? ==>
          SchemaValid(document, At(schema.members, k)))
    && (forall k :: k in MANY_CHILDREN && k in Keys(schema.members) && At(schema.members, k) != Null ==>
          && At(schema.members, k).Arr?
          && forall i :: 0 <= i < |At(schema.members, k).items| ==> SchemaValid(document, At(schema.members, k).items[i]))
  }

  predicate PropertiesValid(document: Doc, schema: Doc)
    requires schema.Obj?
    decreases schema, 0
  {
    "properties" in Keys(schema.members) && At(schema.members, "properties") != Null ==>
      && At(schema.members, "properties").Obj?
      && forall p :: p in Keys(At(schema.members, "properties").members) ==>
           SchemaValid(document, At(At(schema.members, "properties").members, p))
  }

  // ----- contents, parameters, headers -----

  /** `media_type.split(";", 1)[0].strip().lower()`. */
  function MediaType(u: Unicode, text: string): string {
    u.lower(u.strip(UpTo(text, ';')))
  }

  function UpTo(s: string, stop: char): string {
    if s == "" || s[0] == stop then "" else [s[0]] + UpTo(s[1..], stop)
  }

  /** An empty schema, or one that says only `type: object`. */
  predicate Permissive(schema: Doc) {
    schema.Obj? && (schema.members == [] || (|schema.members| == 1 && GetOr(schema, "type", Null) == Str("object")))
  }

  predicate MediaValid(u: Unicode, document: Doc, text: string, media: Doc, problemOnly: bool) {
    var kind := MediaType(u, text);
    && kind in ALLOWED_MEDIA_TYPES
    && (problemOnly ==> kind == PROBLEM)
    && Has(media, "schema")
    && SchemaValid(document, At(media.members, "schema"))
    && (kind == PROBLEM ==>
          && Resolve(document, At(media.members, "schema")).Some?
          && !Permissive(Resolve(document, At(media.members, "schema")).value))
  }

  predicate ContentValid(u: Unicode, document: Doc, content: Doc, problemOnly: bool) {
    && content.Obj? && content.members != []
    && forall t :: t in Keys(content.members) ==> MediaValid(u, document, t, At(content.members, t), problemOnly)
  }

  function ExpectedStyle(location: string): string {
    if location == "query" then "form" else "simple"
  }

  predicate ParameterShaped(document: Doc, p: Doc) {
    var location := GetOr(p, "in", Null);
    && p.Obj?
    && location in {Str("path"), Str("query"), Str("header")}
    && GetOr(p, "name", Null).Str? && GetOr(p, "name", Null).s != ""
    && (location == Str("path") ==> GetOr(p, "required", Null) == Bool(true))
    && GetOr(p, "style", Str(ExpectedStyle(location.s))) == Str(ExpectedStyle(location.s))
    && GetOr(p, "explode", Bool(location.s == "query")) == Bool(location.s == "query")
    && Has(p, "schema") && SchemaValid(document, At(p.members, "schema"))
  }

  predicate ParameterValid(document: Doc, raw: Doc) {
    Resolve(document, raw).Some? && ParameterShaped(document, Resolve(document, raw).value)
  }

  predicate HeaderValid(document: Doc, name: string, raw: Doc) {
    var resolved := Resolve(document, raw);
    && resolved.Some? && name != "" && resolved.value.Obj?
    && var h := resolved.value;
    && !Has(h, "content")
    && GetOr(h, "style", Str("simple")) == Str("simple")
    && GetOr(h, "explode", Bool(false)) == Bool(false)
    && Has(h, "schema") && SchemaValid(document, At(h.members, "schema"))
  }

  predicate HeadersValid(document: Doc, headers: Doc) {
    headers != Null ==>
      && headers.Obj?
      && forall name :: name in Keys(headers.members) ==> HeaderValid(document, name, At(headers.members, name))
  }

  // ----- responses, bodies, security -----

  /** `re.fullmatch(r"[1-5][0-9][0-9]", status)`. */
  predicate StatusShaped(status: string) {
    |status| == 3 && '1' <= status[0] <= '5' && '0' <= status[1] <= '9' && '0' <= status[2] <= '9'
  }

  function StatusNumber(status: string): nat
    requires StatusShaped(status)
  {
    (status[0] as int - '0' as int) * 100 + (status[1] as int - '0' as int) * 10 + (status[2] as int - '0' as int)
  }

  predicate ResponseShaped(u: Unicode, document: Doc, status: string, r: Doc)
    requires StatusShaped(status)
  {
    && r.Obj?
    && (status == "204" ==> !Has(r, "content"))
    && HeadersValid(document, GetOr(r, "headers", Obj([])))
    && (GetOr(r, "content", Null) != Null ==>
          && ContentValid(u, document, GetOr(r, "content", Null), false)
          && (StatusNumber(status) >= 400 ==> ContentValid(u, document, GetOr(r, "content", Null), true)))
  }

  predicate ResponseValid(u: Unicode, document: Doc, status: string, raw: Doc) {
    && StatusShaped(status)
    && Resolve(document, raw).Some?
    && ResponseShaped(u, document, status, Resolve(document, raw).value)
  }

  predicate ResponsesValid(u: Unicode, document: Doc, responses: Doc) {
    && responses.Obj? && responses.members != []
    && forall s :: s in Keys(responses.members) ==> ResponseValid(u, document, s, At(responses.members, s))
  }

  predicate BodyValid(u: Unicode, document: Doc, raw: Doc) {
    raw != Null ==>
      var body := Resolve(document, raw);
      && body.Some? && body.value.Obj?
      && GetOr(body.value, "required", Null) == Bool(true)
      && ContentValid(u, document, GetOr(body.value, "content", Null), false)
  }

  function SecurityOf(document: Doc, operation: Doc): Doc {
    GetOr(operation, "security", GetOr(document, "security", Arr([])))
  }

  predicate RequirementValid(requirement: Doc) {
    && requirement.Obj?
    && Keys(requirement.members) <= ALLOWED_SECURITY
    && forall k :: k in Keys(requirement.members) ==> At(requirement.members, k) == Arr([])
  }

  predicate SecurityValid(security: Doc) {
    security != Null ==>
      security.Arr? && forall i :: 0 <= i < |security.items| ==> RequirementValid(security.items[i])
  }

  // ----- operations -----

  function ParametersOf(owner: Doc): Doc {
    GetOr(owner, "parameters", Arr([]))
  }

  /** The parameters of the path item, then those of the operation. */
  function AllParameters(pathItem: Doc, operation: Doc): seq<Doc>
    requires ParametersOf(pathItem).Arr? && ParametersOf(operation).Arr?
  {
    ParametersOf(pathItem).items + ParametersOf(operation).items
  }

  /** The name of a parameter that resolves to the path location. */
  function PathName(document: Doc, raw: Doc): J.Option<string> {
    match Resolve(document, raw)
    case Some(p) =>
      if GetOr(p, "in", Null) == Str("path") && GetOr(p, "name", Null).Str? then J.Some(GetOr(p, "name", Null).s) else J.None
    case None => J.None
  }

  function PathNames(document: Doc, parameters: seq<Doc>): set<string> {
    set i | 0 <= i < |parameters| && PathName(document, parameters[i]).Some? :: PathName(document, parameters[i]).value
  }

  predicate OperationValid(u: Unicode, document: Doc, path: string, pathItem: Doc, operation: Doc) {
    && operation.Obj?
    && GetOr(operation, "operationId", Null).Str? && GetOr(operation, "operationId", Null).s != ""
    && ParametersOf(pathItem).Arr? && ParametersOf(operation).Arr?
    && var parameters := AllParameters(pathItem, operation);
    && (forall i :: 0 <= i < |parameters| ==> ParameterValid(document, parameters[i]))
    && PathNames(document, parameters) == Placeholders(path)
    && SecurityValid(SecurityOf(document, operation))
    && BodyValid(u, document, GetOr(operation, "requestBody", Null))
    && ResponsesValid(u, document, GetOr(operation, "responses", Null))
  }

  /** Path-item keys that are not operations. */
  predicate Skipped(key: string) {
    key == "parameters" || "x-" <= key
  }

  predicate PathValid(u: Unicode, document: Doc, path: string, pathItem: Doc) {
    && "/api/v1/" <= path && !Contains(path, "://")
    && pathItem.Obj?
    && forall verb :: verb in Keys(pathItem.members) && !Skipped(verb) ==>
         verb in HTTP_METHODS && OperationValid(u, document, path, pathItem, At(pathItem.members, verb))
  }

  predicate IsOperation(paths: Doc, path: string, verb: string) {
    && Has(paths, path)
    && Has(At(paths.members, path), verb)
    && !Skipped(verb)
  }

  function OperationAt(paths: Doc, path: string, verb: string): Doc
    requires IsOperation(paths, path, verb)
  {
    At(At(paths.members, path).members, verb)
  }

  function IdAt(paths: Doc, path: string, verb: string): Doc
    requires IsOperation(paths, path, verb)
  {
    GetOr(OperationAt(paths, path, verb), "operationId", Null)
  }

  ghost predicate UniqueIds(paths: Doc) {
    forall p, v, q, w :: IsOperation(paths, p, v) && IsOperation(paths, q, w) && IdAt(paths, p, v) == IdAt(paths, q, w) ==>
      p == q && v == w
  }

  ghost predicate PathsValid(u: Unicode, document: Doc, paths: Doc) {
    && paths.Obj?
    && (forall path :: path in Keys(paths.members) ==> PathValid(u, document, path, At(paths.members, path)))
    && UniqueIds(paths)
  }

  predicate RepairFree(d: Doc) {
    match d
    case Arr(xs) => forall i :: 0 <= i < |xs| ==> RepairFree(xs[i])
    case Obj(ms) => forall i :: 0 <= i < |ms| ==> ms[i].key !in FORBIDDEN_REPAIR_EXTENSIONS && RepairFree(ms[i].value)
    case _ => true
  }

  predicate ComponentsValid(document: Doc, components: Doc) {
    && components.Obj?
    && GetOr(components, "securitySchemes", Obj([])).Obj?
    && Keys(GetOr(components, "securitySchemes", Obj([])).members) <= ALLOWED_SECURITY
    && GetOr(components, "schemas", Obj([])).Obj?
    && var schemas := GetOr(components, "schemas", Obj([]));
       forall name :: name in Keys(schemas.members) ==> SchemaValid(document, At(schemas.members, name))
  }

  ghost predicate DocumentValid(u: Unicode, document: Doc) {
    && document.Obj?
    && GetOr(document, "openapi", Null) == Str("3.1.0")
    && RepairFree(document)
    && ComponentsValid(document, GetOr(document, "components", Null))
    && PathsValid(u, document, GetOr(document, "paths", Null))
  }

  // ----- the operation index -----

  function Upper(verb: string): string {
    match verb
    case "get" => "GET"
    case "post" => "POST"
    case "put" => "PUT"
    case "patch" => "PATCH"
    case "delete" => "DELETE"
    case _ => verb
  }

  datatype Entry = Entry(id: string, verb: string, path: string, operation: Doc, pathItem: Doc)

  function EntryAt(paths: Doc, path: string, verb: string): Entry
    requires IsOperation(paths, path, verb) && IdAt(paths, path, verb).Str?
  {
    Entry(IdAt(paths, path, verb).s, Upper(verb), path, OperationAt(paths, path, verb), At(paths.members, path))
  }

  function Ids(index: seq<Entry>): (r: seq<string>)
    ensures |r| == |index|
    ensures forall i :: 0 <= i < |r| ==> r[i] == index[i].id
  {
    seq(|index|, i requires 0 <= i < |index| => index[i].id)
  }

  ghost predicate Indexed(paths: Doc, index: seq<Entry>, path: string, verb: string) {
    && IsOperation(paths, path, verb) && IdAt(paths, path, verb).Str?
    && EntryAt(paths, path, verb) in index
  }

  /** The index lists every operation once, under its own identifier. */
  ghost predicate IsIndex(paths: Doc, index: seq<Entry>) {
    && (forall i, j :: 0 <= i < j < |index| ==> index[i].id != index[j].id)
    && (forall p, v :: IsOperation(paths, p, v) ==> Indexed(paths, index, p, v))
    && (forall e :: e in index ==> exists v :: Indexed(paths, index, e.path, v) && e == EntryAt(paths, e.path, v))
  }

  /** The loop over an operation's parameters, collecting the names in the path. */
  method ValidateParameters(document: Doc, parameters: seq<Doc>) returns (ok: bool, names: set<string>)
    ensures ok <==> forall i :: 0 <= i < |parameters| ==> ParameterValid(document, parameters[i])
    ensures ok ==> names == PathNames(document, parameters)
  {
    names := {};
    for i := 0 to |parameters|
      invariant forall j :: 0 <= j < i ==> ParameterValid(document, parameters[j])
      invariant names == PathNames(document, parameters[..i])
    {
      var resolved := ResolveValue(document, parameters[i]);
      if !ParameterValid(document, parameters[i]) {
        return false, names;
      }
      PathNamesNext(document, parameters, i);
      if GetOr(resolved.value, "in", Null) == Str("path") {
        names := names + {GetOr(resolved.value, "name", Null).s};
      }
    }
    assert parameters[..|parameters|] == parameters;
    ok := true;
  }

  lemma PathNamesNext(document: Doc, parameters: seq<Doc>, i: nat)
    requires i < |parameters|
    ensures PathNames(document, parameters[..i + 1]) == PathNames(document, parameters[..i]) +
      (if PathName(document, parameters[i]).Some? then {PathName(document, parameters[i]).value} else {})
  {
    var now, before := parameters[..i + 1], parameters[..i];
    assert now[i] == parameters[i];
    assert forall j :: 0 <= j < i ==> now[j] == before[j];
  }

  method ValidateOperation(u: Unicode, document: Doc, path: string, pathItem: Doc, operation: Doc) returns (ok: bool)
    ensures ok <==> OperationValid(u, document, path, pathItem, operation)
  {
    if !operation.Obj? || !GetOr(operation, "operationId", Null).Str? || GetOr(operation, "operationId", Null).s == "" {
      return false;
    }
    if !ParametersOf(pathItem).Arr? || !ParametersOf(operation).Arr? {
      return false;
    }
    var names;
    ok, names := ValidateParameters(document, AllParameters(pathItem, operation));
    ok := ok
      && names == Placeholders(path)
      && SecurityValid(SecurityOf(document, operation))
      && BodyValid(u, document, GetOr(operation, "requestBody", Null))
      && ResponsesValid(u, document, GetOr(operation, "responses", Null));
  }

  /** The index after the operations in `done`. */
  ghost predicate Partial(paths: Doc, index: seq<Entry>, done: set<(string, string)>) {
    && (forall i, j :: 0 <= i < j < |index| ==> index[i].id != index[j].id)
    && (forall p, v :: (p, v) in done ==> Indexed(paths, index, p, v))
    && (forall e :: e in index ==> exists v :: (e.path, v) in done && Indexed(paths, index, e.path, v) && e == EntryAt(paths, e.path, v))
  }

  lemma IndexOne(paths: Doc, index: seq<Entry>, done: set<(string, string)>, path: string, verb: string)
    requires Partial(paths, index, done) && IsOperation(paths, path, verb) && IdAt(paths, path, verb).Str?
    requires forall i :: 0 <= i < |index| ==> index[i].id != IdAt(paths, path, verb).s
    ensures Partial(paths, index + [EntryAt(paths, path, verb)], done + {(path, verb)})
  {
    var now, all := index + [EntryAt(paths, path, verb)], done + {(path, verb)};
    assert now[|index|] == EntryAt(paths, path, verb);
    forall p, v | (p, v) in all ensures Indexed(paths, now, p, v) {
      if (p, v) in done { assert Indexed(paths, index, p, v); }
    }
    forall e | e in now
      ensures exists v :: (e.path, v) in all && Indexed(paths, now, e.path, v) && e == EntryAt(paths, e.path, v)
    {
      if e in index {
        var v :| (e.path, v) in done && Indexed(paths, index, e.path, v) && e == EntryAt(paths, e.path, v);
        assert (e.path, v) in all && Indexed(paths, now, e.path, v);
      } else {
        assert (e.path, verb) in all && Indexed(paths, now, e.path, verb);
      }
    }
  }

  lemma DuplicateId(paths: Doc, index: seq<Entry>, done: set<(string, string)>, path: string, verb: string, i: nat)
    requires Partial(paths, index, done) && IsOperation(paths, path, verb) && (path, verb) !in done
    requires i < |index| && IdAt(paths, path, verb) == Str(index[i].id)
    ensures !UniqueIds(paths)
  {
    var v :| (index[i].path, v) in done && Indexed(paths, index, index[i].path, v) && index[i] == EntryAt(paths, index[i].path, v);
    assert IdAt(paths, index[i].path, v) == IdAt(paths, path, verb);
  }

  lemma UpperInjective(v: string, w: string)
    requires v in HTTP_METHODS && w in HTTP_METHODS && Upper(v) == Upper(w)
    ensures v == w
  {
  }

  lemma AllIndexed(u: Unicode, document: Doc, paths: Doc, index: seq<Entry>, done: set<(string, string)>)
    requires paths.Obj? && Partial(paths, index, done)
    requires forall p, v :: IsOperation(paths, p, v) ==> (p, v) in done && v in HTTP_METHODS
    ensures IsIndex(paths, index) && UniqueIds(paths)
  {
    forall p, v, q, w | IsOperation(paths, p, v) && IsOperation(paths, q, w) && IdAt(paths, p, v) == IdAt(paths, q, w)
      ensures p == q && v == w
    {
      assert Indexed(paths, index, p, v) && Indexed(paths, index, q, w);
      var i :| 0 <= i < |index| && index[i] == EntryAt(paths, p, v);
      var j :| 0 <= j < |index| && index[j] == EntryAt(paths, q, w);
      assert !(i < j) && !(j < i);
      UpperInjective(v, w);
    }
  }

  predicate VerbValid(u: Unicode, document: Doc, path: string, pathItem: Doc, verb: string, operation: Doc) {
    Skipped(verb) || (verb in HTTP_METHODS && OperationValid(u, document, path, pathItem, operation))
  }

  lemma PathVerbs(u: Unicode, document: Doc, path: string, pathItem: Doc)
    requires pathItem.Obj? && DistinctMembers(pathItem.members) && "/api/v1/" <= path && !Contains(path, "://")
    ensures PathValid(u, document, path, pathItem) <==>
      forall i :: 0 <= i < |pathItem.members| ==>
        VerbValid(u, document, path, pathItem, pathItem.members[i].key, pathItem.members[i].value)
  {
    var ms := pathItem.members;
    if PathValid(u, document, path, pathItem) {
      forall i | 0 <= i < |ms| ensures VerbValid(u, document, path, pathItem, ms[i].key, ms[i].value) {
        IndexUnique(ms, i);
      }
    }
    if forall i :: 0 <= i < |ms| ==> VerbValid(u, document, path, pathItem, ms[i].key, ms[i].value) {
      forall v | v in Keys(ms) && !Skipped(v) ensures v in HTTP_METHODS && OperationValid(u, document, path, pathItem, At(ms, v)) {
        var i := IndexOf(ms, v);
        assert VerbValid(u, document, path, pathItem, ms[i].key, ms[i].value);
      }
    }
  }

  /** One operation validated and indexed. */
  method IndexVerb(u: Unicode, document: Doc, paths: Doc, path: string, verb: string, index: seq<Entry>, ghost done: set<(string, string)>)
    returns (ok: bool, extended: seq<Entry>)
    requires IsOperation(paths, path, verb) && Partial(paths, index, done) && (path, verb) !in done
    ensures ok ==> Partial(paths, extended, done + {(path, verb)})
    ensures ok ==> VerbValid(u, document, path, At(paths.members, path), verb, OperationAt(paths, path, verb))
    ensures !ok ==> !VerbValid(u, document, path, At(paths.members, path), verb, OperationAt(paths, path, verb)) || !UniqueIds(paths)
  {
    extended := index;
    if verb !in HTTP_METHODS {
      return false, extended;
    }
    ok := ValidateOperation(u, document, path, At(paths.members, path), OperationAt(paths, path, verb));
    if !ok {
      return;
    }
    var entry := EntryAt(paths, path, verb);
    if i :| 0 <= i < |extended| && extended[i].id == entry.id {
      DuplicateId(paths, extended, done, path, verb, i);
      return false, extended;
    }
    IndexOne(paths, extended, done, path, verb);
    extended := extended + [entry];
  }

  /** The operations recorded for a path item after its first `j` members. */
  ghost predicate Covers(done: set<(string, string)>, covered: set<(string, string)>, path: string, members: seq<Member>, j: nat)
    requires j <= |members|
  {
    && done <= covered
    && (forall p, v :: (p, v) in covered && (p, v) !in done ==> p == path)
    && (forall i :: 0 <= i < j && !Skipped(members[i].key) ==> (path, members[i].key) in covered)
    && (forall i :: j <= i < |members| ==> (path, members[i].key) !in covered)
  }

  lemma CoversNext(done: set<(string, string)>, covered: set<(string, string)>, path: string, members: seq<Member>, j: nat)
    requires j < |members| && DistinctMembers(members) && Covers(done, covered, path, members, j)
    ensures Skipped(members[j].key) ==> Covers(done, covered, path, members, j + 1)
    ensures Covers(done, covered + {(path, members[j].key)}, path, members, j + 1)
  {
  }

  /** One path item: every operation below it is validated and indexed. */
  method IndexPath(u: Unicode, document: Doc, paths: Doc, path: string, index: seq<Entry>, ghost done: set<(string, string)>)
    returns (ok: bool, extended: seq<Entry>, ghost covered: set<(string, string)>)
    requires paths.Obj? && WellFormed(paths) && path in Keys(paths.members) && Partial(paths, index, done)
    requires forall v :: (path, v) !in done
    ensures ok ==> Partial(paths, extended, covered) && PathValid(u, document, path, At(paths.members, path))
    ensures ok ==> At(paths.members, path).Obj?
    ensures ok ==> Covers(done, covered, path, At(paths.members, path).members, |At(paths.members, path).members|)
    ensures !ok ==> !PathValid(u, document, path, At(paths.members, path)) || !UniqueIds(paths)
  {
    var item := At(paths.members, path);
    extended, covered := index, done;
    if !("/api/v1/" <= path) || Contains(path, "://") || !item.Obj? {
      return false, extended, covered;
    }
    PathVerbs(u, document, path, item);
    for j := 0 to |item.members|
      invariant Partial(paths, extended, covered)
      invariant forall i :: 0 <= i < j ==> VerbValid(u, document, path, item, item.members[i].key, item.members[i].value)
      invariant Covers(done, covered, path, item.members, j)
    {
      var verb := item.members[j].key;
      IndexUnique(item.members, j);
      CoversNext(done, covered, path, item.members, j);
      if !Skipped(verb) {
        ok, extended := IndexVerb(u, document, paths, path, verb, extended, covered);
        if !ok {
          return;
        }
        covered := covered + {(path, verb)};
      }
    }
    ok := true;
  }

  /** The operations recorded, and the paths validated, after the first `i` paths. */
  ghost predicate PathsDone(u: Unicode, document: Doc, paths: Doc, done: set<(string, string)>, i: nat)
    requires paths.Obj? && i <= |paths.members|
  {
    && (forall k :: 0 <= k < i ==> PathDone(u, document, paths, done, k))
    && (forall k, v :: i <= k < |paths.members| ==> (paths.members[k].key, v) !in done)
  }

  ghost predicate PathDone(u: Unicode, document: Doc, paths: Doc, done: set<(string, string)>, k: nat)
    requires paths.Obj? && k < |paths.members|
  {
    var path := paths.members[k].key;
    && PathValid(u, document, path, At(paths.members, path))
    && forall v :: v in Keys(At(paths.members, path).members) && !Skipped(v) ==> (path, v) in done
  }

  lemma PathsDoneNext(u: Unicode, document: Doc, paths: Doc, done: set<(string, string)>, covered: set<(string, string)>, i: nat)
    requires paths.Obj? && DistinctMembers(paths.members) && i < |paths.members| && PathsDone(u, document, paths, done, i)
    requires PathValid(u, document, paths.members[i].key, At(paths.members, paths.members[i].key))
    requires var members := At(paths.members, paths.members[i].key).members;
      Covers(done, covered, paths.members[i].key, members, |members|)
    ensures PathsDone(u, document, paths, covered, i + 1)
  {
    var path := paths.members[i].key;
    var members := At(paths.members, path).members;
    forall v | v in Keys(members) && !Skipped(v) ensures (path, v) in covered {
      assert members[IndexOf(members, v)].key == v;
    }
    forall k | 0 <= k < i ensures PathDone(u, document, paths, covered, k) {
      assert PathDone(u, document, paths, done, k);
    }
  }

  lemma AllPathsDone(u: Unicode, document: Doc, paths: Doc, done: set<(string, string)>)
    requires paths.Obj? && PathsDone(u, document, paths, done, |paths.members|)
    ensures forall p :: p in Keys(paths.members) ==> PathValid(u, document, p, At(paths.members, p))
    ensures forall p, v :: IsOperation(paths, p, v) ==> (p, v) in done && v in HTTP_METHODS
  {
    forall p | p in Keys(paths.members)
      ensures PathValid(u, document, p, At(paths.members, p))
      ensures forall v :: IsOperation(paths, p, v) ==> (p, v) in done && v in HTTP_METHODS
    {
      assert PathDone(u, document, paths, done, IndexOf(paths.members, p));
    }
  }

  /** `operation_index`: every path and operation is validated, and each operation is
      entered once under its own identifier. */
  method OperationIndex(u: Unicode, document: Doc) returns (ok: bool, index: seq<Entry>)
    requires WellFormed(document)
    ensures ok <==> PathsValid(u, document, GetOr(document, "paths", Null))
    ensures ok ==> IsIndex(GetOr(document, "paths", Null), index)
  {
    var paths := GetOr(document, "paths", Null);
    index := [];
    if !paths.Obj? {
      return false, index;
    }
    ghost var done: set<(string, string)> := {};
    for i := 0 to |paths.members|
      invariant Partial(paths, index, done)
      invariant PathsDone(u, document, paths, done, i)
    {
      var path := paths.members[i].key;
      ghost var covered;
      ok, index, covered := IndexPath(u, document, paths, path, index, done);
      if !ok {
        return;
      }
      PathsDoneNext(u, document, paths, done, covered, i);
      done := covered;
    }
    AllPathsDone(u, document, paths, done);
    AllIndexed(u, document, paths, index, done);
    ok := true;
  }

  /** `validate_document`: accepts exactly the valid documents, and hands over their index. */
  method ValidateDocument(u: Unicode, document: Doc) returns (ok: bool, index: seq<Entry>)
    requires WellFormed(document)
    ensures ok <==> DocumentValid(u, document)
    ensures ok ==> IsIndex(GetOr(document, "paths", Null), index)
  {
    index := [];
    if !document.Obj? || GetOr(document, "openapi", Null) != Str("3.1.0") { return false, index; }
    if !RepairFree(document) || !ComponentsValid(document, GetOr(document, "components", Null)) { return false, index; }
    ok, index := OperationIndex(u, document);
  }
}
