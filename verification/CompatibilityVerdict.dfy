/** What the verdict "no errors" says, rule by rule, about the members of the two documents:
    every removal and change that must be reported is, and nothing else. */
module CompatibilityVerdict {
  import opened Json
  import opened SchemaRoles
  import opened Compatibility

  // ----- paths and operations -----

  /** The path item of a route, where the paths are an object. */
  function Item(document: Json, route: string): Option<Json> {
    match Member(document, "paths")
    case Some(paths) => Member(paths, route)
    case None => None
  }

  /** Absent paths count as an empty object. */
  predicate PathsShaped(document: Json) {
    match Member(document, "paths")
    case Some(paths) => paths.Obj?
    case None => true
  }

  predicate IsObject(j: Option<Json>) {
    j.Some? && j.value.Obj?
  }

  /** The operation is still there, with an equal identifier. */
  predicate Survives(baseline: Json, current: Json, route: string, verb: string) {
    var before, now := Operation(baseline, route, verb), Operation(current, route, verb);
    before.Some? ==> now.Some? && PyEq(Get(now.value, "operationId"), Get(before.value, "operationId"))
  }

  lemma OperationInItem(document: Json, route: string, verb: string)
    ensures Operation(document, route, verb) ==
      if IsObject(Item(document, route)) && verb in Item(document, route).value.members && verb in HTTP_METHODS
         && Item(document, route).value.members[verb].Obj?
      then Some(Item(document, route).value.members[verb]) else None
  {
  }

  lemma ItemSurvives(baseline: Json, current: Json, route: string)
    requires IsObject(Item(baseline, route)) && IsObject(Item(current, route))
    ensures PathKept(Item(baseline, route).value, Item(current, route).value) <==>
      forall verb :: Survives(baseline, current, route, verb)
  {
    var before, now := Item(baseline, route).value, Item(current, route).value;
    forall verb ensures Survives(baseline, current, route, verb) <==> (verb in before.members ==> OperationKept(before, now, verb)) {
      OperationInItem(baseline, route, verb);
      OperationInItem(current, route, verb);
    }
  }

  /** The paths are kept exactly when they are objects, every baseline path item and its
      successor are, and every baseline operation survives. */
  lemma PathsKeptExactly(baseline: Json, current: Json)
    requires baseline.Obj? && current.Obj?
    ensures PathsKept(baseline, current) <==>
      && PathsShaped(baseline) && PathsShaped(current)
      && (forall route :: Item(baseline, route).Some? ==> IsObject(Item(baseline, route)) && IsObject(Item(current, route)))
      && forall route, verb :: Survives(baseline, current, route, verb)
  {
    if PathsShaped(baseline) && PathsShaped(current) {
      var before, now := GetOr(baseline, "paths", Obj(map[])), GetOr(current, "paths", Obj(map[]));
      forall route
        ensures (route in before.members ==> PathKept(before.members[route], Get(now, route))) <==>
          (Item(baseline, route).Some? ==>
             && IsObject(Item(baseline, route)) && IsObject(Item(current, route))
             && forall verb :: Survives(baseline, current, route, verb))
      {
        if IsObject(Item(baseline, route)) && IsObject(Item(current, route)) {
          ItemSurvives(baseline, current, route);
        }
      }
      forall route, verb ensures Item(baseline, route).None? ==> Survives(baseline, current, route, verb) {
        OperationInItem(baseline, route, verb);
      }
    }
  }

  /** No operation of a baseline is missing from a compatible successor. */
  lemma OperationsSurvive(baseline: Json, current: Json, route: string, verb: string)
    requires baseline.Obj? && current.Obj? && Compatible(baseline, current)
    requires Operation(baseline, route, verb).Some?
    ensures Operation(current, route, verb).Some?
    ensures PyEq(Get(Operation(current, route, verb).value, "operationId"), Get(Operation(baseline, route, verb).value, "operationId"))
  {
    PathsKeptExactly(baseline, current);
    assert Survives(baseline, current, route, verb);
  }

  // ----- one pair of schemas -----

  /** An absent keyword and an explicit null are one in the current schema. */
  predicate KeywordHolds(baseline: Json, current: Json, roles: set<Role>, keyword: string)
    requires baseline.Obj? && current.Obj?
  {
    match (Member(baseline, keyword), Member(current, keyword))
    case (Some(b), Some(c)) => PyFold(b) == PyFold(c)
    case (Some(b), None) => b.Null?
    case (None, Some(_)) => Request !in roles
    case (None, None) => true
  }

  /** The values of a list as Python tells them apart. */
  function Folded(xs: seq<Json>): set<Json> {
    set x | x in xs :: PyFold(x)
  }

  predicate EnumHolds(baseline: Json, current: Json, roles: set<Role>)
    requires baseline.Obj? && current.Obj?
  {
    match (Member(baseline, "enum"), Member(current, "enum"))
    case (Some(Arr(xs)), Some(Arr(ys))) =>
      (Request in roles ==> Folded(xs) <= Folded(ys)) && (Response in roles ==> Folded(ys) <= Folded(xs))
    case (Some(Arr(_)), Some(Null)) => Response !in roles
    case (Some(Arr(_)), None) => Response !in roles
    case (_, Some(Arr(_))) => Request !in roles
    case (_, Some(c)) => c.Null?
    case (_, None) => true
  }

  lemma InFolded(x: Json, ys: seq<Json>)
    ensures PyIn(x, ys) <==> PyFold(x) in Folded(ys)
  {
    if PyFold(x) in Folded(ys) {
      var y :| y in ys && PyFold(y) == PyFold(x);
      var i :| 0 <= i < |ys| && ys[i] == y;
      assert PyEq(x, ys[i]);
    }
  }

  lemma AllIn(xs: seq<Json>, ys: seq<Json>)
    ensures (forall i :: 0 <= i < |xs| ==> PyIn(xs[i], ys)) <==> Folded(xs) <= Folded(ys)
  {
    forall x ensures PyIn(x, ys) <==> PyFold(x) in Folded(ys) { InFolded(x, ys); }
    if forall i :: 0 <= i < |xs| ==> PyIn(xs[i], ys) {
      forall f | f in Folded(xs) ensures f in Folded(ys) {
        var x :| x in xs && PyFold(x) == f;
        var i :| 0 <= i < |xs| && xs[i] == x;
      }
    }
    if Folded(xs) <= Folded(ys) {
      forall i | 0 <= i < |xs| ensures PyIn(xs[i], ys) {
        assert xs[i] in xs;
        assert PyFold(xs[i]) in Folded(xs);
      }
    }
  }

  lemma EnumExactly(baseline: Json, current: Json, roles: set<Role>)
    requires baseline.Obj? && current.Obj?
    ensures CompareEnum(baseline, current, roles) == [] <==> EnumHolds(baseline, current, roles)
  {
    var before, now := Get(baseline, "enum"), Get(current, "enum");
    if before.Arr? && now.Arr? {
      AllIn(before.items, now.items);
      AllIn(now.items, before.items);
    }
  }

  lemma KeywordExactly(baseline: Json, current: Json, roles: set<Role>, keyword: string)
    requires baseline.Obj? && current.Obj?
    ensures CompareKeyword(baseline, current, roles, keyword) == [] <==> KeywordHolds(baseline, current, roles, keyword)
  {
  }

  /** What the comparison of two schemas asks of their items. */
  predicate ItemsHold(baseline: Json, current: Json, roles: set<Role>)
    requires baseline.Obj? && current.Obj?
  {
    Member(baseline, "type") == Some(Str("array")) && IsObject(Member(baseline, "items")) ==>
      IsObject(Member(current, "items")) && Accepts(baseline.members["items"], current.members["items"], roles)
  }

  /** Two schemas are accepted exactly when `$ref`, `type`, `format`, `enum` and, of arrays,
      `items` hold. */
  lemma SchemaExactly(baseline: Json, current: Json, roles: set<Role>)
    requires baseline.Obj? && current.Obj?
    ensures Accepts(baseline, current, roles) <==>
      && KeywordHolds(baseline, current, roles, "$ref")
      && KeywordHolds(baseline, current, roles, "type")
      && KeywordHolds(baseline, current, roles, "format")
      && EnumHolds(baseline, current, roles)
      && ItemsHold(baseline, current, roles)
  {
    KeywordExactly(baseline, current, roles, "$ref");
    KeywordExactly(baseline, current, roles, "type");
    KeywordExactly(baseline, current, roles, "format");
    EnumExactly(baseline, current, roles);
  }

  // ----- component schemas -----

  /** The property, where the properties are an object. */
  function Property(schema: Json, name: string): Option<Json> {
    match Member(schema, "properties")
    case Some(properties) => Member(properties, name)
    case None => None
  }

  /** Absent properties count as an empty object; other shapes are not compared. */
  predicate ComparesProperties(schema: Json) {
    match Member(schema, "properties")
    case Some(properties) => properties.Obj?
    case None => true
  }

  ghost predicate PropertiesHold(baseline: Json, current: Json, roles: set<Role>) {
    ComparesProperties(baseline) && ComparesProperties(current) ==>
      && (forall name :: Property(baseline, name).Some? ==> Property(current, name).Some?)
      && forall name :: IsObject(Property(baseline, name)) && IsObject(Property(current, name)) ==>
           Accepts(Property(baseline, name).value, Property(current, name).value, roles)
  }

  /** The name is required, or the section is no list of strings. */
  predicate Requires(schema: Json, name: string) {
    match Member(schema, "required")
    case Some(Arr(names)) => Str(name) in names
    case _ => false
  }

  predicate RequiredShaped(schema: Json) {
    match Member(schema, "required")
    case Some(Arr(names)) => forall j :: j in names ==> j.Str?
    case Some(_) => false
    case None => true
  }

  ghost predicate NoneNewlyRequired(before: Json, now: Json) {
    match Member(now, "required")
    case Some(Arr(names)) => forall j :: j in names && j.Str? ==> Requires(before, j.s)
    case _ => true
  }

  lemma RequiredNames(schema: Json)
    requires schema.Obj?
    ensures RequiredProperties(schema).Some? <==> RequiredShaped(schema)
    ensures RequiredShaped(schema) ==> forall name :: name in RequiredProperties(schema).value <==> Requires(schema, name)
  {
    var value := GetOr(schema, "required", Arr([]));
    if value.Arr? {
      assert AllStrings(value.items) <==> forall j :: j in value.items ==> j.Str?;
    }
    if RequiredShaped(schema) {
      forall name ensures name in RequiredProperties(schema).value <==> Requires(schema, name) {
        if Requires(schema, name) {
          var i :| 0 <= i < |value.items| && value.items[i] == Str(name);
        }
      }
    }
  }

  ghost predicate RequiredHold(baseline: Json, current: Json, roles: set<Role>) {
    && RequiredShaped(baseline) && RequiredShaped(current)
    && (Request in roles ==> NoneNewlyRequired(baseline, current))
    && (Response in roles ==> NoneNewlyRequired(current, baseline))
  }

  lemma RequiredWithin(a: Json, b: Json)
    requires a.Obj? && b.Obj? && RequiredShaped(a) && RequiredShaped(b)
    ensures RequiredProperties(a).value <= RequiredProperties(b).value <==> NoneNewlyRequired(b, a)
  {
    RequiredNames(a);
    RequiredNames(b);
    if RequiredProperties(a).value <= RequiredProperties(b).value {
      assert forall name :: Requires(a, name) ==> Requires(b, name);
    }
  }

  /** A component is accepted exactly when its own keywords hold, no property is removed,
      each kept property holds, and the required names move only as the roles allow. */
  lemma ComponentExactly(baseline: Json, current: Json, roles: set<Role>)
    requires baseline.Obj? && current.Obj?
    ensures ComponentAccepted(baseline, current, roles) <==>
      Accepts(baseline, current, roles) && PropertiesHold(baseline, current, roles) && RequiredHold(baseline, current, roles)
  {
    RequiredNames(baseline);
    RequiredNames(current);
    if RequiredShaped(baseline) && RequiredShaped(current) {
      RequiredWithin(baseline, current);
      RequiredWithin(current, baseline);
    }
    PropertiesExactly(baseline, current, roles);
  }

  lemma PropertiesExactly(baseline: Json, current: Json, roles: set<Role>)
    requires baseline.Obj? && current.Obj?
    ensures PropertiesAccepted(baseline, current, roles) <==> PropertiesHold(baseline, current, roles)
  {
    if ComparesProperties(baseline) && ComparesProperties(current) {
      var before, now := Properties(baseline), Properties(current);
      forall name
        ensures name in before <==> Property(baseline, name) == Some(if name in before then before[name] else Null)
        ensures name in now <==> Property(current, name) == Some(if name in now then now[name] else Null)
      {
      }
    }
  }

  // ----- the whole verdict -----

  /** The named schema, where the component schemas are an object. */
  function Component(document: Json, name: string): Option<Json> {
    match Member(document, "components")
    case Some(components) =>
      (match Member(components, "schemas")
       case Some(schemas) => Member(schemas, name)
       case None => None)
    case None => None
  }

  /** Component schemas that are no object are not compared. */
  predicate ComparesSchemas(document: Json) {
    match Member(document, "components")
    case Some(components) => (match Member(components, "schemas") case Some(schemas) => schemas.Obj? case None => true)
    case None => true
  }

  lemma ComponentsFound(document: Json)
    requires document.Obj?
    ensures Schemas(document).Some? <==> ComparesSchemas(document)
    ensures Schemas(document).Some? ==> forall name ::
      (name in Schemas(document).value <==> Component(document, name).Some?)
      && (name in Schemas(document).value ==> Component(document, name) == Some(Schemas(document).value[name]))
  {
  }

  lemma UsageIs(document: Json, name: string, role: Role)
    ensures role in UsageOf(document, name) <==> Used(document, role, name)
  {
    assert role in BOTH_ROLES by { match role case Request => case Response => }
  }

  lemma BothOrObserved(observed: set<Role>, role: Role)
    ensures role in (if observed == {} then BOTH_ROLES else observed) <==>
      role in observed || (Request !in observed && Response !in observed)
  {
    assert role in BOTH_ROLES by { match role case Request => case Response => }
    assert observed == {} <==> Request !in observed && Response !in observed by {
      if other :| other in observed { match other case Request => case Response => }
    }
  }

  ghost predicate UsedInEither(baseline: Json, current: Json, role: Role, name: string) {
    Used(baseline, role, name) || Used(current, role, name)
  }

  /** A name is compared in the roles it has in either document; used in neither, in both. */
  lemma RolesCompared(baseline: Json, current: Json, name: string, role: Role)
    ensures role in ComparedRoles(baseline, current, name) <==>
      || UsedInEither(baseline, current, role, name)
      || (!UsedInEither(baseline, current, Request, name) && !UsedInEither(baseline, current, Response, name))
  {
    var before, now := UsageOf(baseline, name), UsageOf(current, name);
    forall r: Role ensures r in before + now <==> UsedInEither(baseline, current, r, name) {
      UsageIs(baseline, name, r);
      UsageIs(current, name, r);
    }
    BothOrObserved(before + now, role);
  }

  ghost predicate ComponentHolds(baseline: Option<Json>, current: Option<Json>, roles: set<Role>) {
    && IsObject(baseline) && IsObject(current)
    && Accepts(baseline.value, current.value, roles)
    && PropertiesHold(baseline.value, current.value, roles)
    && RequiredHold(baseline.value, current.value, roles)
  }

  /** No errors exactly when paths and operations survive and, unless the component schemas
      of one document are no object, every baseline component has a successor that holds. */
  lemma VerdictExactly(baseline: Json, current: Json)
    requires baseline.Obj? && current.Obj?
    ensures Compatible(baseline, current) <==>
      && PathsShaped(baseline) && PathsShaped(current)
      && (forall route :: Item(baseline, route).Some? ==> IsObject(Item(baseline, route)) && IsObject(Item(current, route)))
      && (forall route, verb :: Survives(baseline, current, route, verb))
      && (ComparesSchemas(baseline) && ComparesSchemas(current) ==>
            forall name :: Component(baseline, name).Some? ==>
              ComponentHolds(Component(baseline, name), Component(current, name), ComparedRoles(baseline, current, name)))
  {
    PathsKeptExactly(baseline, current);
    SchemasKeptExactly(baseline, current);
  }

  lemma SchemasKeptExactly(baseline: Json, current: Json)
    requires baseline.Obj? && current.Obj?
    ensures SchemasKept(baseline, current) <==>
      (ComparesSchemas(baseline) && ComparesSchemas(current) ==>
         forall name :: Component(baseline, name).Some? ==>
           ComponentHolds(Component(baseline, name), Component(current, name), ComparedRoles(baseline, current, name)))
  {
    ComponentsFound(baseline);
    ComponentsFound(current);
    if ComparesSchemas(baseline) && ComparesSchemas(current) {
      forall name | name in Schemas(baseline).value
        ensures SchemaKept(Schemas(baseline).value, Schemas(current).value, name, ComparedRoles(baseline, current, name)) <==>
          ComponentHolds(Component(baseline, name), Component(current, name), ComparedRoles(baseline, current, name))
      {
        if IsObject(Component(baseline, name)) && IsObject(Component(current, name)) {
          ComponentExactly(Component(baseline, name).value, Component(current, name).value, ComparedRoles(baseline, current, name));
        }
      }
    }
  }

  // ----- the errors -----

  /** When each kind of error is due at one level of two schemas. */
  predicate KeywordBreach(baseline: Json, current: Json, roles: set<Role>, breach: Breach)
    requires baseline.Obj? && current.Obj?
  {
    var before, now := Get(baseline, "enum"), Get(current, "enum");
    match breach
    case ChangedKeyword(k) =>
      k in {"$ref", "type", "format"} && k in baseline.members && !PyEq(Get(current, k), baseline.members[k])
    case AddedKeyword(k) =>
      k in {"$ref", "type", "format"} && k !in baseline.members && k in current.members && Request in roles
    case WidenedToAny => before.Arr? && now == Null && Response in roles
    case EnumShape => now != Null && !now.Arr?
    case RemovedEnumValues => before.Arr? && now.Arr? && Request in roles && exists v :: v in before.items && !PyIn(v, now.items)
    case AddedEnumValues => before.Arr? && now.Arr? && Response in roles && exists v :: v in now.items && !PyIn(v, before.items)
    case NarrowedToEnum => !before.Arr? && now.Arr? && Request in roles
    case _ => false
  }

  /** The errors of two schemas are exactly those due at their own level and, of arrays, the
      loss of the items or the errors of the items. */
  lemma SchemaBreaches(baseline: Json, current: Json, roles: set<Role>, breach: Breach)
    requires baseline.Obj? && current.Obj?
    ensures breach in CompareSchema(baseline, current, roles) <==>
      || KeywordBreach(baseline, current, roles, breach)
      || (&& Get(baseline, "type") == Str("array") && Get(baseline, "items").Obj?
          && if Get(current, "items").Obj? then breach in CompareSchema(Get(baseline, "items"), Get(current, "items"), roles)
             else breach == RemovedItems)
  {
    EnumBreaches(baseline, current, roles, breach);
    assert breach in CompareKeyword(baseline, current, roles, "$ref") <==> KeywordBreach(baseline, current, roles, breach) && OfKeyword(breach, "$ref");
    assert breach in CompareKeyword(baseline, current, roles, "type") <==> KeywordBreach(baseline, current, roles, breach) && OfKeyword(breach, "type");
    assert breach in CompareKeyword(baseline, current, roles, "format") <==> KeywordBreach(baseline, current, roles, breach) && OfKeyword(breach, "format");
  }

  predicate OfKeyword(breach: Breach, keyword: string) {
    breach in {ChangedKeyword(keyword), AddedKeyword(keyword)}
  }

  lemma EnumBreaches(baseline: Json, current: Json, roles: set<Role>, breach: Breach)
    requires baseline.Obj? && current.Obj?
    ensures breach in CompareEnum(baseline, current, roles) <==>
      KeywordBreach(baseline, current, roles, breach) && !breach.ChangedKeyword? && !breach.AddedKeyword?
  {
  }
}
