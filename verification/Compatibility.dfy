/** The schema comparison that decides whether a new API document may replace the
    accepted one: contravariant in request positions, covariant in response positions. */
module Compatibility {
  import opened Json
  import opened Pointers
  import opened SchemaRoles

  datatype Breach =
    | InvalidPaths
    | RemovedPath
    | RemovedOperation
    | ChangedOperationId
    | RemovedSchema
    | RemovedProperties
    | InvalidRequired
    | AddedRequired
    | RemovedRequired
    | ChangedKeyword(keyword: string)
    | AddedKeyword(keyword: string)
    | EnumShape
    | WidenedToAny
    | RemovedEnumValues
    | AddedEnumValues
    | NarrowedToEnum
    | RemovedItems

  const BOTH_ROLES := {Request, Response}

  function When(condition: bool, breach: Breach): seq<Breach> {
    if condition then [breach] else []
  }

  // ----- one pair of schemas -----

  function CompareKeyword(baseline: Json, current: Json, roles: set<Role>, keyword: string): seq<Breach>
    requires baseline.Obj? && current.Obj?
  {
    if keyword in baseline.members then
      When(!PyEq(Get(current, keyword), Get(baseline, keyword)), ChangedKeyword(keyword))
    else
      When(keyword in current.members && Request in roles, AddedKeyword(keyword))
  }

  function CompareEnum(baseline: Json, current: Json, roles: set<Role>): seq<Breach>
    requires baseline.Obj? && current.Obj?
  {
    var before, now := Get(baseline, "enum"), Get(current, "enum");
    if before.Arr? then
      if now.Null? then When(Response in roles, WidenedToAny)
      else if !now.Arr? then [EnumShape]
      else
        When(Request in roles && exists i :: 0 <= i < |before.items| && !PyIn(before.items[i], now.items), RemovedEnumValues)
        + When(Response in roles && exists i :: 0 <= i < |now.items| && !PyIn(now.items[i], before.items), AddedEnumValues)
    else if now.Null? then []
    else if !now.Arr? then [EnumShape]
    else When(Request in roles, NarrowedToEnum)
  }

  /** `items` is looked at only below a baseline whose type is exactly "array". */
  predicate ComparesItems(baseline: Json)
    requires baseline.Obj?
  {
    Get(baseline, "type") == Str("array") && Get(baseline, "items").Obj?
  }

  function CompareSchema(baseline: Json, current: Json, roles: set<Role>): seq<Breach>
    requires baseline.Obj? && current.Obj?
    decreases baseline
  {
    CompareKeyword(baseline, current, roles, "$ref")
    + CompareKeyword(baseline, current, roles, "type")
    + CompareKeyword(baseline, current, roles, "format")
    + CompareEnum(baseline, current, roles)
    + if !ComparesItems(baseline) then []
      else if !Get(current, "items").Obj? then [RemovedItems]
      else CompareSchema(baseline.members["items"], Get(current, "items"), roles)
  }

  predicate Accepts(baseline: Json, current: Json, roles: set<Role>)
    requires baseline.Obj? && current.Obj?
  {
    CompareSchema(baseline, current, roles) == []
  }

  // ----- one pair of component schemas -----

  /** The set of required names, or None when "required" is not a list of strings. */
  function RequiredProperties(schema: Json): Option<set<string>>
    requires schema.Obj?
  {
    var value := GetOr(schema, "required", Arr([]));
    if value.Arr? && AllStrings(value.items) then Some(StringSet(value.items)) else None
  }

  /** The declared properties; a section that is not an object declares none. */
  function Properties(schema: Json): map<string, Json>
    requires schema.Obj?
  {
    var value := GetOr(schema, "properties", Obj(map[]));
    if value.Obj? then value.members else map[]
  }

  predicate PropertiesShaped(schema: Json)
    requires schema.Obj?
  {
    GetOr(schema, "properties", Obj(map[])).Obj?
  }

  predicate PropertiesAccepted(baseline: Json, current: Json, roles: set<Role>)
    requires baseline.Obj? && current.Obj?
  {
    PropertiesShaped(baseline) && PropertiesShaped(current) ==>
      var before, now := Properties(baseline), Properties(current);
      && before.Keys <= now.Keys
      && forall p :: p in before && before[p].Obj? && now[p].Obj? ==> Accepts(before[p], now[p], roles)
  }

  predicate RequiredAccepted(baseline: Json, current: Json, roles: set<Role>)
    requires baseline.Obj? && current.Obj?
  {
    var before, now := RequiredProperties(baseline), RequiredProperties(current);
    && before.Some? && now.Some?
    && (Request in roles ==> now.value <= before.value)
    && (Response in roles ==> before.value <= now.value)
  }

  predicate ComponentAccepted(baseline: Json, current: Json, roles: set<Role>)
    requires baseline.Obj? && current.Obj?
  {
    && Accepts(baseline, current, roles)
    && PropertiesAccepted(baseline, current, roles)
    && RequiredAccepted(baseline, current, roles)
  }

  lemma NoneRemoved<T>(a: set<T>, b: set<T>)
    ensures a - b == {} <==> a <= b
  {
    if exists x :: x in a && x !in b {
      var x :| x in a && x !in b;
      assert x in a - b;
    }
  }

  /** What is found wrong with two sets of properties. */
  predicate PropertyBreach(baseline: Json, current: Json, roles: set<Role>, breach: Breach)
    requires baseline.Obj? && current.Obj?
  {
    && PropertiesShaped(baseline) && PropertiesShaped(current)
    && var before, now := Properties(baseline), Properties(current);
    || (breach == RemovedProperties && exists p :: p in before && p !in now)
    || (exists p :: p in before && before[p].Obj? && p in now && now[p].Obj? && breach in CompareSchema(before[p], now[p], roles))
  }

  predicate RequiredBreach(baseline: Json, current: Json, roles: set<Role>, breach: Breach)
    requires baseline.Obj? && current.Obj?
  {
    var before, now := RequiredProperties(baseline), RequiredProperties(current);
    if before.None? || now.None? then breach == InvalidRequired
    else
      || (breach == AddedRequired && Request in roles && exists name :: name in now.value && name !in before.value)
      || (breach == RemovedRequired && Response in roles && exists name :: name in before.value && name !in now.value)
  }

  /** What is found wrong with a component. */
  predicate ComponentBreach(baseline: Json, current: Json, roles: set<Role>, breach: Breach)
    requires baseline.Obj? && current.Obj?
  {
    || breach in CompareSchema(baseline, current, roles)
    || PropertyBreach(baseline, current, roles, breach)
    || RequiredBreach(baseline, current, roles, breach)
  }

  method CompareComponent(baseline: Json, current: Json, roles: set<Role>) returns (errors: seq<Breach>)
    requires baseline.Obj? && current.Obj?
    ensures errors == [] <==> ComponentAccepted(baseline, current, roles)
    ensures forall b :: b in errors <==> ComponentBreach(baseline, current, roles, b)
  {
    errors := CompareSchema(baseline, current, roles);
    var found := CompareProperties(baseline, current, roles);
    errors := errors + found;
    found := CompareRequired(baseline, current, roles);
    errors := errors + found;
  }

  method CompareProperties(baseline: Json, current: Json, roles: set<Role>) returns (errors: seq<Breach>)
    requires baseline.Obj? && current.Obj?
    ensures errors == [] <==> PropertiesAccepted(baseline, current, roles)
    ensures forall b :: b in errors <==> PropertyBreach(baseline, current, roles, b)
  {
    errors := [];
    var before, now := GetOr(baseline, "properties", Obj(map[])), GetOr(current, "properties", Obj(map[]));
    if before.Obj? && now.Obj? {
      var removed := before.members.Keys - now.members.Keys;
      NoneRemoved(before.members.Keys, now.members.Keys);
      if removed != {} {
        errors := [RemovedProperties];
      }
      var found := CompareShared(before.members, now.members, roles);
      errors := errors + found;
    }
  }

  /** The properties both have. */
  method CompareShared(before: map<string, Json>, now: map<string, Json>, roles: set<Role>) returns (errors: seq<Breach>)
    ensures errors == [] <==> forall p :: p in before && before[p].Obj? && p in now && now[p].Obj? ==> Accepts(before[p], now[p], roles)
    ensures forall b :: b in errors <==>
      exists p :: p in before && before[p].Obj? && p in now && now[p].Obj? && b in CompareSchema(before[p], now[p], roles)
  {
    errors := [];
    var names := before.Keys;
    while names != {}
      invariant names <= before.Keys
      invariant errors == [] <==> forall p :: p in before.Keys - names && before[p].Obj? && p in now && now[p].Obj? ==> Accepts(before[p], now[p], roles)
      invariant forall b :: b in errors <==>
        exists p :: p in before.Keys - names && before[p].Obj? && p in now && now[p].Obj? && b in CompareSchema(before[p], now[p], roles)
      decreases names
    {
      var p :| p in names;
      names := names - {p};
      if before[p].Obj? && p in now && now[p].Obj? {
        errors := errors + CompareSchema(before[p], now[p], roles);
      }
    }
  }

  method CompareRequired(baseline: Json, current: Json, roles: set<Role>) returns (errors: seq<Breach>)
    requires baseline.Obj? && current.Obj?
    ensures errors == [] <==> RequiredAccepted(baseline, current, roles)
    ensures forall b :: b in errors <==> RequiredBreach(baseline, current, roles, b)
  {
    errors := [];
    var needed, asked := RequiredProperties(baseline), RequiredProperties(current);
    if needed.None? || asked.None? {
      return [InvalidRequired];
    }
    NoneRemoved(asked.value, needed.value);
    NoneRemoved(needed.value, asked.value);
    if Request in roles && asked.value - needed.value != {} {
      errors := errors + [AddedRequired];
    }
    if Response in roles && needed.value - asked.value != {} {
      errors := errors + [RemovedRequired];
    }
  }

  // ----- two documents -----

  /** The component schemas; None when the section is not an object, in which case the
      comparison of schemas is silently skipped. */
  function Schemas(document: Json): Option<map<string, Json>>
    requires document.Obj?
  {
    var components := Get(document, "components");
    if !components.Obj? then Some(map[])
    else
      var schemas := GetOr(components, "schemas", Obj(map[]));
      if schemas.Obj? then Some(schemas.members) else None
  }

  /** A schema used nowhere is compared in both roles. */
  function RolesFor(before: RoleMap, now: RoleMap, name: string): set<Role> {
    var observed := (if name in before then before[name] else {}) + (if name in now then now[name] else {});
    if observed == {} then BOTH_ROLES else observed
  }

  predicate OperationKept(baseline: Json, current: Json, verb: string)
    requires baseline.Obj? && current.Obj? && verb in baseline.members
  {
    var operation := baseline.members[verb];
    verb in HTTP_METHODS && operation.Obj? ==>
      && Get(current, verb).Obj?
      && PyEq(Get(current.members[verb], "operationId"), Get(operation, "operationId"))
  }

  predicate PathKept(baseline: Json, current: Json)
  {
    && baseline.Obj? && current.Obj?
    && forall verb :: verb in baseline.members ==> OperationKept(baseline, current, verb)
  }

  predicate PathsKept(baseline: Json, current: Json)
    requires baseline.Obj? && current.Obj?
  {
    var before, now := GetOr(baseline, "paths", Obj(map[])), GetOr(current, "paths", Obj(map[]));
    && before.Obj? && now.Obj?
    && forall route :: route in before.members ==> PathKept(before.members[route], Get(now, route))
  }

  predicate SchemaKept(baseline: map<string, Json>, current: map<string, Json>, name: string, roles: set<Role>)
    requires name in baseline
  {
    && baseline[name].Obj? && name in current && current[name].Obj?
    && ComponentAccepted(baseline[name], current[name], roles)
  }

  /** A role map that records exactly the uses in `document`. */
  ghost predicate IsUsage(document: Json, roles: RoleMap) {
    forall name, role :: HasRole(roles, name, role) <==> Used(document, role, name)
  }

  ghost function UsageOf(document: Json, name: string): set<Role> {
    set role | role in BOTH_ROLES && Used(document, role, name)
  }

  /** The roles a name is compared in: those it has in either document, or both. */
  ghost function ComparedRoles(baseline: Json, current: Json, name: string): set<Role> {
    var observed := UsageOf(baseline, name) + UsageOf(current, name);
    if observed == {} then BOTH_ROLES else observed
  }

  ghost predicate SchemasKept(baseline: Json, current: Json)
    requires baseline.Obj? && current.Obj?
  {
    Schemas(baseline).Some? && Schemas(current).Some? ==>
      forall name :: name in Schemas(baseline).value ==>
        SchemaKept(Schemas(baseline).value, Schemas(current).value, name, ComparedRoles(baseline, current, name))
  }

  /** The verdict "no errors" on two documents. */
  ghost predicate Compatible(baseline: Json, current: Json)
    requires baseline.Obj? && current.Obj?
  {
    PathsKept(baseline, current) && SchemasKept(baseline, current)
  }

  /** What is found wrong with one operation. */
  predicate OperationBreach(baseline: Json, current: Json, verb: string, breach: Breach)
    requires baseline.Obj? && current.Obj?
  {
    && verb in HTTP_METHODS && verb in baseline.members && baseline.members[verb].Obj?
    && var successor := Get(current, verb);
    match breach
    case RemovedOperation => !successor.Obj?
    case ChangedOperationId => successor.Obj? && !PyEq(Get(successor, "operationId"), Get(baseline.members[verb], "operationId"))
    case _ => false
  }

  ghost predicate PathBreach(baseline: Json, current: Json, breach: Breach) {
    if !baseline.Obj? || !current.Obj? then breach == RemovedPath
    else exists verb :: OperationBreach(baseline, current, verb, breach)
  }

  method ComparePath(baseline: Json, current: Json) returns (errors: seq<Breach>)
    ensures errors == [] <==> PathKept(baseline, current)
    ensures forall b :: b in errors <==> PathBreach(baseline, current, b)
  {
    if !baseline.Obj? || !current.Obj? {
      return [RemovedPath];
    }
    errors := [];
    var verbs := baseline.members.Keys;
    while verbs != {}
      invariant verbs <= baseline.members.Keys
      invariant errors == [] <==> forall verb :: verb in baseline.members && verb !in verbs ==> OperationKept(baseline, current, verb)
      invariant forall b :: b in errors <==> exists verb :: verb !in verbs && OperationBreach(baseline, current, verb, b)
      decreases verbs
    {
      var verb :| verb in verbs;
      verbs := verbs - {verb};
      var operation := baseline.members[verb];
      if verb in HTTP_METHODS && operation.Obj? {
        var successor := Get(current, verb);
        if !successor.Obj? {
          errors := errors + [RemovedOperation];
        } else if !PyEq(Get(successor, "operationId"), Get(operation, "operationId")) {
          errors := errors + [ChangedOperationId];
        }
      }
    }
  }

  method ComparePaths(baseline: Json, current: Json) returns (errors: seq<Breach>)
    requires baseline.Obj? && current.Obj?
    ensures errors == [] <==> forall route :: route in baseline.members ==> PathKept(baseline.members[route], Get(current, route))
    ensures forall b :: b in errors <==> exists route :: route in baseline.members && PathBreach(baseline.members[route], Get(current, route), b)
  {
    errors := [];
    var routes := baseline.members.Keys;
    while routes != {}
      invariant routes <= baseline.members.Keys
      invariant errors == [] <==> forall route :: route in baseline.members && route !in routes ==>
        PathKept(baseline.members[route], Get(current, route))
      invariant forall b :: b in errors <==>
        exists route :: route in baseline.members && route !in routes && PathBreach(baseline.members[route], Get(current, route), b)
      decreases routes
    {
      var route :| route in routes;
      routes := routes - {route};
      var found := ComparePath(baseline.members[route], Get(current, route));
      errors := errors + found;
    }
  }

  /** What is found wrong with one named schema. */
  predicate SchemaBreach(baseline: map<string, Json>, current: map<string, Json>, name: string, roles: set<Role>, breach: Breach)
    requires name in baseline
  {
    if !baseline[name].Obj? || name !in current || !current[name].Obj? then breach == RemovedSchema
    else ComponentBreach(baseline[name], current[name], roles, breach)
  }

  method CompareSchemas(baseline: map<string, Json>, current: map<string, Json>, before: RoleMap, now: RoleMap)
    returns (errors: seq<Breach>)
    ensures errors == [] <==> forall name :: name in baseline ==> SchemaKept(baseline, current, name, RolesFor(before, now, name))
    ensures forall b :: b in errors <==> exists name :: name in baseline && SchemaBreach(baseline, current, name, RolesFor(before, now, name), b)
  {
    errors := [];
    var names := baseline.Keys;
    while names != {}
      invariant names <= baseline.Keys
      invariant errors == [] <==> forall name :: name in baseline && name !in names ==>
        SchemaKept(baseline, current, name, RolesFor(before, now, name))
      invariant forall b :: b in errors <==>
        exists name :: name in baseline && name !in names && SchemaBreach(baseline, current, name, RolesFor(before, now, name), b)
      decreases names
    {
      var name :| name in names;
      names := names - {name};
      if !baseline[name].Obj? || name !in current || !current[name].Obj? {
        errors := errors + [RemovedSchema];
      } else {
        var found := CompareComponent(baseline[name], current[name], RolesFor(before, now, name));
        errors := errors + found;
      }
    }
  }

  /** What is found wrong with a document. */
  ghost predicate DocumentBreach(baseline: Json, current: Json, breach: Breach)
    requires baseline.Obj? && current.Obj?
  {
    var before, now := GetOr(baseline, "paths", Obj(map[])), GetOr(current, "paths", Obj(map[]));
    if !before.Obj? || !now.Obj? then breach == InvalidPaths
    else
      || (exists route :: route in before.members && PathBreach(before.members[route], Get(now, route), breach))
      || (Schemas(baseline).Some? && Schemas(current).Some?
          && var olds, news := Schemas(baseline).value, Schemas(current).value;
          exists name :: name in olds && SchemaBreach(olds, news, name, ComparedRoles(baseline, current, name), breach))
  }

  method CompareOpenapi(baseline: Json, current: Json) returns (errors: seq<Breach>)
    requires baseline.Obj? && current.Obj?
    ensures errors == [] <==> Compatible(baseline, current)
    ensures forall b :: b in errors <==> DocumentBreach(baseline, current, b)
  {
    var before, now := GetOr(baseline, "paths", Obj(map[])), GetOr(current, "paths", Obj(map[]));
    if !before.Obj? || !now.Obj? {
      return [InvalidPaths];
    }
    errors := ComparePaths(before, now);
    var baselineUsage := SchemaUsageRoles(baseline);
    var currentUsage := SchemaUsageRoles(current);
    if Schemas(baseline).Some? && Schemas(current).Some? {
      var found := CompareSchemas(Schemas(baseline).value, Schemas(current).value, baselineUsage, currentUsage);
      errors := errors + found;
    }
    forall name ensures RolesFor(baselineUsage, currentUsage, name) == ComparedRoles(baseline, current, name) {
      RolesAgree(baseline, current, baselineUsage, currentUsage, name);
    }
  }

  lemma UsageRecorded(document: Json, roles: RoleMap, name: string)
    requires IsUsage(document, roles)
    ensures (if name in roles then roles[name] else {}) == UsageOf(document, name)
  {
    var recorded := if name in roles then roles[name] else {};
    assert Request in recorded <==> HasRole(roles, name, Request);
    assert Response in recorded <==> HasRole(roles, name, Response);
    assert Request in UsageOf(document, name) <==> HasRole(roles, name, Request);
    assert Response in UsageOf(document, name) <==> HasRole(roles, name, Response);
    forall role ensures role in recorded <==> role in UsageOf(document, name) {
      match role case Request => case Response =>
    }
  }

  lemma RolesAgree(baseline: Json, current: Json, before: RoleMap, now: RoleMap, name: string)
    requires IsUsage(baseline, before) && IsUsage(current, now)
    ensures RolesFor(before, now, name) == ComparedRoles(baseline, current, name)
  {
    UsageRecorded(baseline, before, name);
    UsageRecorded(current, now, name);
  }
}
