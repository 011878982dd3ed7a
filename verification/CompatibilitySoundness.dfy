/** What an accepted change of the API document guarantees about values: requests that
    were valid stay valid, and responses that are valid were valid before. */
module CompatibilitySoundness {
  import opened Json
  import opened Pointers
  import opened SchemaRoles
  import opened Compatibility

  // ----- which values a schema admits -----

  /** The named schemas of a document, a meaning for "format", and for each name the
      property names its values are assumed not to use. */
  datatype Context = Context(schemas: map<string, Json>, format: (Json, Json) -> bool, barred: map<string, set<string>>)

  function Cut(ctx: Context, name: string): set<string> {
    if name in ctx.barred then ctx.barred[name] else {}
  }

  predicate TypeNameAdmits(name: string, v: Json) {
    match v
    case Null => name == "null"
    case Bool(_) => name == "boolean"
    case Num(n) => name == "number" || (name == "integer" && n == n.Floor as real)
    case Str(_) => name == "string"
    case Arr(_) => name == "array"
    case Obj(_) => name == "object"
  }

  predicate TypeAdmits(t: Json, v: Json) {
    match t
    case Str(name) => TypeNameAdmits(name, v)
    case Arr(names) => exists i :: 0 <= i < |names| && names[i].Str? && TypeNameAdmits(names[i].s, v)
    case _ => false
  }

  ghost predicate KeywordsAdmit(ctx: Context, schema: Json, v: Json)
    requires schema.Obj?
  {
    && ("type" in schema.members ==> TypeAdmits(schema.members["type"], v))
    && ("format" in schema.members ==> ctx.format(schema.members["format"], v))
    && (Get(schema, "enum").Arr? ==> v in Get(schema, "enum").items)
  }

  /** `v` is valid under `schema` by a derivation of depth at most `n`: every step into
      a referenced schema, an item or a property uses up one. */
  ghost predicate Conforms(ctx: Context, cut: set<string>, schema: Json, v: Json, n: nat)
    decreases n, 1
  {
    && n > 0 && schema.Obj?
    && KeywordsAdmit(ctx, schema, v)
    && RefAdmits(ctx, schema, v, n)
    && ItemsAdmit(ctx, schema, v, n)
    && MembersAdmit(ctx, cut, schema, v, n)
  }

  /** The component a schema refers to, if its reference is one. */
  function RefName(schema: Json): Option<string>
    requires schema.Obj?
  {
    var reference := Get(schema, "$ref");
    if reference.Str? then SchemaName(reference.s) else None
  }

  ghost predicate RefAdmits(ctx: Context, schema: Json, v: Json, n: nat)
    requires n > 0 && schema.Obj?
    decreases n, 0
  {
    "$ref" in schema.members ==>
      RefName(schema).Some? && ConformsNamed(ctx, RefName(schema).value, v, n - 1)
  }

  ghost predicate ItemsAdmit(ctx: Context, schema: Json, v: Json, n: nat)
    requires n > 0 && schema.Obj?
    decreases n, 0
  {
    "items" in schema.members && v.Arr? ==>
      forall i :: 0 <= i < |v.items| ==> Conforms(ctx, {}, schema.members["items"], v.items[i], n - 1)
  }

  ghost predicate MembersAdmit(ctx: Context, cut: set<string>, schema: Json, v: Json, n: nat)
    requires n > 0 && schema.Obj?
    decreases n, 0
  {
    v.Obj? ==>
      && v.members.Keys !! cut
      && (RequiredProperties(schema).Some? ==> RequiredProperties(schema).value <= v.members.Keys)
      && forall p :: p in Properties(schema) && p in v.members ==>
           Conforms(ctx, {}, Properties(schema)[p], v.members[p], n - 1)
  }

  ghost predicate ConformsNamed(ctx: Context, name: string, v: Json, n: nat)
    decreases n, 2
  {
    name in ctx.schemas && Conforms(ctx, Cut(ctx, name), ctx.schemas[name], v, n)
  }

  /** `v` is valid under the named schema. */
  ghost predicate Valid(ctx: Context, name: string, v: Json) {
    exists n :: ConformsNamed(ctx, name, v, n)
  }

  // ----- the schemas the comparison understands -----

  predicate NamesComponent(reference: string) {
    SCHEMA_PREFIX <= reference && '/' !in reference[|SCHEMA_PREFIX|..]
  }

  predicate KeywordShapes(schema: Json)
    requires schema.Obj?
  {
    && ("$ref" in schema.members ==> schema.members["$ref"].Str? && NamesComponent(schema.members["$ref"].s))
    && ("type" in schema.members ==>
          schema.members["type"].Str? || (schema.members["type"].Arr? && AllStrings(schema.members["type"].items)))
    && ("format" in schema.members ==> schema.members["format"].Str?)
  }

  /** `items` only under type "array"; properties only at component level, and none of
      them named "$ref". */
  predicate Shaped(schema: Json, component: bool) {
    && schema.Obj? && KeywordShapes(schema)
    && ("items" in schema.members ==>
          Get(schema, "type") == Str("array") && Shaped(schema.members["items"], false))
    && if component then
         && PropertiesShaped(schema) && "$ref" !in Properties(schema)
         && forall p :: p in Properties(schema) ==> Shaped(Properties(schema)[p], false)
       else
         "properties" !in schema.members && "required" !in schema.members
  }

  ghost predicate Fragment(document: Json) {
    && document.Obj? && Schemas(document).Some?
    && forall name :: name in Schemas(document).value ==> Shaped(Schemas(document).value[name], true)
  }

  /** Every array schema says what its items are. */
  predicate ArraysTyped(schema: Json) {
    schema.Obj? && Get(schema, "type") == Str("array") ==>
      "items" in schema.members && ArraysTyped(schema.members["items"])
  }

  /** Every value that has an equal in the other enum, in Python's sense, has itself there. */
  predicate Twinned(xs: seq<Json>, ys: seq<Json>) {
    forall i :: 0 <= i < |xs| && PyIn(xs[i], ys) ==> xs[i] in ys
  }

  /** Every reference names one of the given components. */
  predicate Resolves(names: set<string>, schema: Json) {
    schema.Obj? ==>
      && ("$ref" in schema.members ==> RefName(schema).Some? && RefName(schema).value in names)
      && ("items" in schema.members ==> Resolves(names, schema.members["items"]))
  }

  /** What the role asks of two enums: a request's values are kept from the baseline on,
      a response's back to it. */
  predicate EnumTwinned(role: Role, before: Json, now: Json)
    requires before.Arr? && now.Arr?
  {
    match role
    case Request => Twinned(before.items, now.items)
    case Response => Twinned(now.items, before.items)
  }

  predicate EnumsTwinned(role: Role, a: Json, b: Json) {
    a.Obj? && b.Obj? ==>
      && (Get(a, "enum").Arr? && Get(b, "enum").Arr? ==> EnumTwinned(role, Get(a, "enum"), Get(b, "enum")))
      && ("items" in a.members && "items" in b.members ==> EnumsTwinned(role, a.members["items"], b.members["items"]))
  }

  // ----- two documents compared -----

  datatype Change = Change(baseline: Json, current: Json, format: (Json, Json) -> bool)

  /** Some reference to exactly this component is met in the role in either document. */
  ghost predicate MetAs(w: Change, role: Role, reference: string) {
    NamesComponent(reference) && (UsedRef(w.baseline, role, reference) || UsedRef(w.current, role, reference))
  }

  ghost predicate Reachable(w: Change, role: Role, name: string) {
    exists r :: MetAs(w, role, r) && SchemaName(r) == Some(name)
  }

  /** No errors between two documents of the fragment, and no enum met in the role whose
      values Python confuses. */
  ghost predicate Comparable(w: Change, role: Role) {
    && Fragment(w.baseline) && Fragment(w.current)
    && Compatible(w.baseline, w.current)
    && forall name :: name in Old(w) && name in New(w) && Reachable(w, role, name) ==>
         && EnumsTwinned(role, Old(w)[name], New(w)[name])
         && forall p :: p in Properties(Old(w)[name]) && p in Properties(New(w)[name]) ==>
              EnumsTwinned(role, Properties(Old(w)[name])[p], Properties(New(w)[name])[p])
  }

  /** Every array schema of the baseline met from a request body says what its items are. */
  ghost predicate BaselineArraysTyped(w: Change)
    requires Fragment(w.baseline)
  {
    forall name :: name in Old(w) && Reachable(w, Request, name) ==>
      && ArraysTyped(Old(w)[name])
      && forall p :: p in Properties(Old(w)[name]) ==> ArraysTyped(Properties(Old(w)[name])[p])
  }

  /** Every baseline schema met from responses refers to components the baseline has. */
  ghost predicate BaselineRefsResolve(w: Change)
    requires Fragment(w.baseline)
  {
    forall name :: name in Old(w) && Reachable(w, Response, name) ==>
      && Resolves(Old(w).Keys, Old(w)[name])
      && forall p :: p in Properties(Old(w)[name]) ==> Resolves(Old(w).Keys, Properties(Old(w)[name])[p])
  }

  ghost function Old(w: Change): map<string, Json>
    requires Fragment(w.baseline)
  {
    Schemas(w.baseline).value
  }

  ghost function New(w: Change): map<string, Json>
    requires Fragment(w.current)
  {
    Schemas(w.current).value
  }

  /** The properties only the current document declares under a name. */
  ghost function NewlyDeclared(w: Change): map<string, set<string>>
    requires Fragment(w.baseline) && Fragment(w.current)
  {
    map name | name in New(w) ::
      Properties(New(w)[name]).Keys - (if name in Old(w) then Properties(Old(w)[name]).Keys else {})
  }

  ghost function OldContext(w: Change): Context
    requires Fragment(w.baseline)
  {
    Context(Old(w), w.format, map[])
  }

  ghost function NewContext(w: Change): Context
    requires Fragment(w.current)
  {
    Context(New(w), w.format, map[])
  }

  /** The baseline's view of values that use no newly declared property. */
  ghost function GuardedContext(w: Change): Context
    requires Fragment(w.baseline) && Fragment(w.current)
  {
    Context(Old(w), w.format, NewlyDeclared(w))
  }

  /** All references of one of the two schemas are used in the role in its document. */
  ghost predicate Covered(w: Change, role: Role, before: Json, now: Json) {
    || (forall r :: r in TreeRefs(before) ==> UsedRef(w.baseline, role, r))
    || (forall r :: r in TreeRefs(now) ==> UsedRef(w.current, role, r))
  }

  // ----- references to components -----

  lemma WalkThree(document: Json, a: string, b: string, c: string)
    requires document.Obj? && a in document.members
    requires document.members[a].Obj? && b in document.members[a].members
    requires document.members[a].members[b].Obj? && c in document.members[a].members[b].members
    ensures Walk(document, [a, b, c]) == Some(document.members[a].members[b].members[c])
  {
    assert [a, b, c][1..] == [b, c] && [b, c][1..] == [c] && [c][1..] == [];
    assert Walk(document.members[a].members[b], [c]) == Some(document.members[a].members[b].members[c]);
  }

  lemma SplitThree(a: string, b: string, c: string)
    requires '/' !in a && '/' !in b && '/' !in c
    ensures Split(a + "/" + b + "/" + c, '/') == [a, b, c]
  {
    SplitFirst(a, b + "/" + c, '/');
    SplitFirst(b, c, '/');
    SplitWord(c, '/');
    assert a + "/" + b + "/" + c == a + ['/'] + (b + "/" + c);
    assert b + "/" + c == b + ['/'] + c;
  }

  lemma PlainTokens(a: string, b: string, rest: string, text: string)
    requires '/' !in a && '/' !in b && '/' !in rest && '~' !in a && '~' !in b
    requires text == a + "/" + b + "/" + rest
    ensures UnescapeAll(Split(text, '/')) == [a, b, Unescape(rest)]
  {
    SplitThree(a, b, rest);
    UnescapePlain(a);
    UnescapePlain(b);
  }

  lemma ComponentTokens(rest: string)
    requires '/' !in rest
    ensures UnescapeAll(Split("components/schemas/" + rest, '/')) == ["components", "schemas", Unescape(rest)]
  {
    var a, b, text := "components", "schemas", "components/schemas/" + rest;
    assert a + "/" + b + "/" + rest == (a + "/" + b + "/") + rest;
    assert a + "/" + b + "/" == "components/schemas/";
    PlainTokens(a, b, rest, text);
  }

  lemma SchemaWalk(document: Json, name: string)
    requires document.Obj? && Schemas(document).Some? && name in Schemas(document).value
    ensures Walk(document, ["components", "schemas", name]) == Some(Schemas(document).value[name])
  {
    WalkThree(document, "components", "schemas", name);
  }

  lemma ComponentReference(reference: string, rest: string)
    requires NamesComponent(reference) && rest == reference[|SCHEMA_PREFIX|..]
    ensures "#/" <= reference && reference[2..] == "components/schemas/" + rest && '/' !in rest
    ensures SchemaName(reference) == Some(Unescape(rest))
  {
    assert reference == SCHEMA_PREFIX + rest;
  }

  lemma ComponentTarget(document: Json, reference: string)
    requires document.Obj? && Schemas(document).Some? && NamesComponent(reference)
    requires SchemaName(reference).value in Schemas(document).value
    ensures Target(document, reference) == Some(Schemas(document).value[SchemaName(reference).value])
  {
    var rest := reference[|SCHEMA_PREFIX|..];
    ComponentReference(reference, rest);
    ComponentTokens(rest);
    SchemaWalk(document, Unescape(rest));
  }

  lemma UsedRefNext(document: Json, role: Role, via: string, reference: string)
    requires UsedRef(document, role, via) && reference in NextRefs(document, via)
    ensures UsedRef(document, role, reference)
  {
    var route, verb :| UsedBy(document, route, verb, role, via);
    ReachesNext(document, RoleRoot(Operation(document, route, verb).value, role).value, via, reference);
    assert UsedBy(document, route, verb, role, reference);
  }

  /** The references of a used component are themselves used. */
  lemma ComponentRefsUsed(document: Json, role: Role, reference: string)
    requires Fragment(document) && NamesComponent(reference) && UsedRef(document, role, reference)
    requires SchemaName(reference).value in Schemas(document).value
    ensures forall r :: r in TreeRefs(Schemas(document).value[SchemaName(reference).value]) ==> UsedRef(document, role, r)
  {
    ComponentTarget(document, reference);
    forall r | r in TreeRefs(Schemas(document).value[SchemaName(reference).value]) ensures UsedRef(document, role, r) {
      UsedRefNext(document, role, reference, r);
    }
  }

  lemma PropertyRefs(schema: Json, p: string)
    requires Shaped(schema, true) && p in Properties(schema)
    ensures TreeRefs(Properties(schema)[p]) <= TreeRefs(schema)
  {
    MemberRefs(schema.members["properties"], p);
    MemberRefs(schema, "properties");
  }

  lemma ItemsRefs(schema: Json)
    requires schema.Obj? && "items" in schema.members
    ensures TreeRefs(schema.members["items"]) <= TreeRefs(schema)
  {
    MemberRefs(schema, "items");
  }

  // ----- keywords -----

  lemma PyEqOfStrings(a: Json, b: Json)
    requires PyEq(a, b)
    requires a.Str? || (a.Arr? && AllStrings(a.items))
    requires b.Str? || (b.Arr? && AllStrings(b.items))
    ensures a == b
  {
    StringsFold(a);
    StringsFold(b);
  }

  lemma StringsFold(a: Json)
    requires a.Str? || (a.Arr? && AllStrings(a.items))
    ensures PyFold(a) == a
  {
    if a.Arr? {
      assert PyFold(a).items == a.items;
    }
  }

  lemma AcceptsParts(before: Json, now: Json, roles: set<Role>)
    requires before.Obj? && now.Obj? && Accepts(before, now, roles)
    ensures forall keyword :: keyword in {"$ref", "type", "format"} ==> CompareKeyword(before, now, roles, keyword) == []
    ensures CompareEnum(before, now, roles) == []
    ensures ComparesItems(before) ==> Get(now, "items").Obj? && Accepts(before.members["items"], Get(now, "items"), roles)
  {
    assert CompareKeyword(before, now, roles, "$ref") == [];
    assert CompareKeyword(before, now, roles, "type") == [];
    assert CompareKeyword(before, now, roles, "format") == [];
  }

  /** An accepted keyword of the baseline is in the current schema, unchanged. */
  lemma KeywordUnchanged(before: Json, now: Json, roles: set<Role>, keyword: string)
    requires before.Obj? && now.Obj? && KeywordShapes(before) && KeywordShapes(now)
    requires keyword in {"$ref", "type", "format"}
    requires CompareKeyword(before, now, roles, keyword) == []
    ensures keyword in before.members ==> keyword in now.members && now.members[keyword] == before.members[keyword]
    ensures Request in roles && keyword in now.members ==> keyword in before.members
  {
    if keyword in before.members {
      StringsFold(before.members[keyword]);
      PyEqOfStrings(Get(now, keyword), before.members[keyword]);
    }
  }

  lemma KeywordsUnchanged(before: Json, now: Json, roles: set<Role>)
    requires before.Obj? && now.Obj? && KeywordShapes(before) && KeywordShapes(now)
    requires Accepts(before, now, roles)
    ensures forall k :: k in {"$ref", "type", "format"} && k in before.members ==>
      k in now.members && now.members[k] == before.members[k]
    ensures Request in roles ==> forall k :: k in {"$ref", "type", "format"} && k in now.members ==> k in before.members
  {
    AcceptsParts(before, now, roles);
    forall k | k in {"$ref", "type", "format"}
      ensures k in before.members ==> k in now.members && now.members[k] == before.members[k]
      ensures Request in roles && k in now.members ==> k in before.members
    {
      KeywordUnchanged(before, now, roles, k);
    }
  }

  /** `v` is among the values of one enum; the other, which holds an equal of each, has it too. */
  lemma EnumCarries(v: Json, xs: seq<Json>, ys: seq<Json>)
    requires v in xs
    requires forall i :: 0 <= i < |xs| ==> PyIn(xs[i], ys)
    requires Twinned(xs, ys)
    ensures v in ys
  {
    var i :| 0 <= i < |xs| && xs[i] == v;
  }

  /** Of an accepted pair of enums: every value that must stay does stay exactly when each
      has its own twin, and not merely an equal of another kind. */
  lemma EnumKeptExactly(before: Json, now: Json, roles: set<Role>, role: Role)
    requires before.Obj? && now.Obj? && Accepts(before, now, roles) && role in roles
    requires Get(before, "enum").Arr? && Get(now, "enum").Arr?
    ensures role.Request? ==>
      (EnumTwinned(role, Get(before, "enum"), Get(now, "enum")) <==>
        forall v :: v in Get(before, "enum").items ==> v in Get(now, "enum").items)
    ensures role.Response? ==>
      (EnumTwinned(role, Get(before, "enum"), Get(now, "enum")) <==>
        forall v :: v in Get(now, "enum").items ==> v in Get(before, "enum").items)
  {
    AcceptsParts(before, now, roles);
    var xs, ys := Get(before, "enum").items, Get(now, "enum").items;
    match role
    case Request =>
      if Twinned(xs, ys) {
        forall v | v in xs ensures v in ys { EnumCarries(v, xs, ys); }
      }
    case Response =>
      if Twinned(ys, xs) {
        forall v | v in ys ensures v in xs { EnumCarries(v, ys, xs); }
      }
  }

  lemma KeywordsForRequest(ctx: Context, other: Context, before: Json, now: Json, roles: set<Role>, v: Json)
    requires before.Obj? && now.Obj? && KeywordShapes(before) && KeywordShapes(now)
    requires Accepts(before, now, roles) && Request in roles && EnumsTwinned(Request, before, now)
    requires ctx.format == other.format
    requires KeywordsAdmit(ctx, before, v)
    ensures KeywordsAdmit(other, now, v)
  {
    KeywordsUnchanged(before, now, roles);
    AcceptsParts(before, now, roles);
    var xs, ys := Get(before, "enum"), Get(now, "enum");
    if ys.Arr? {
      EnumCarries(v, xs.items, ys.items);
    }
  }

  lemma KeywordsForResponse(ctx: Context, other: Context, before: Json, now: Json, roles: set<Role>, v: Json)
    requires before.Obj? && now.Obj? && KeywordShapes(before) && KeywordShapes(now)
    requires Accepts(before, now, roles) && Response in roles && EnumsTwinned(Response, before, now)
    requires ctx.format == other.format
    requires KeywordsAdmit(ctx, now, v)
    ensures KeywordsAdmit(other, before, v)
  {
    KeywordsUnchanged(before, now, roles);
    AcceptsParts(before, now, roles);
    var xs, ys := Get(before, "enum"), Get(now, "enum");
    if xs.Arr? {
      EnumCarries(v, ys.items, xs.items);
    }
  }

  // ----- the induction over derivations -----

  /** Two schemas at corresponding places of the two documents. */
  ghost predicate Paired(w: Change, role: Role, roles: set<Role>, before: Json, now: Json, component: bool) {
    && Shaped(before, component) && Shaped(now, component)
    && role in roles && Accepts(before, now, roles) && EnumsTwinned(role, before, now)
    && Covered(w, role, before, now)
    && (component ==>
          && PropertiesAccepted(before, now, roles) && RequiredAccepted(before, now, roles)
          && forall p :: p in Properties(before) && p in Properties(now) ==>
               EnumsTwinned(role, Properties(before)[p], Properties(now)[p]))
  }

  lemma PairedItems(w: Change, role: Role, roles: set<Role>, before: Json, now: Json, component: bool)
    requires Paired(w, role, roles, before, now, component)
    requires "items" in before.members
    ensures "items" in now.members && Paired(w, role, roles, before.members["items"], now.members["items"], false)
  {
    AcceptsParts(before, now, roles);
    assert Shaped(before.members["items"], false) && ComparesItems(before);
    assert Get(now, "items").Obj? && "items" in now.members;
    ItemsRefs(before);
    ItemsRefs(now);
  }

  lemma PairedProperty(w: Change, role: Role, roles: set<Role>, before: Json, now: Json, p: string)
    requires Paired(w, role, roles, before, now, true)
    requires p in Properties(before) && p in Properties(now)
    ensures Paired(w, role, roles, Properties(before)[p], Properties(now)[p], false)
  {
    PropertyRefs(before, p);
    PropertyRefs(now, p);
  }

  lemma PairedRef(w: Change, role: Role, roles: set<Role>, before: Json, now: Json, component: bool)
    requires Paired(w, role, roles, before, now, component)
    requires "$ref" in before.members
    ensures "$ref" in now.members && RefName(now) == RefName(before)
    ensures RefName(before).Some? && Reachable(w, role, RefName(before).value)
  {
    KeywordsUnchanged(before, now, roles);
    var r := before.members["$ref"].s;
    assert r in TreeRefs(before) && r in TreeRefs(now);
    assert MetAs(w, role, r);
  }

  lemma PairedRefBack(w: Change, roles: set<Role>, before: Json, now: Json, component: bool)
    requires Paired(w, Request, roles, before, now, component)
    requires "$ref" in now.members
    ensures "$ref" in before.members
  {
    KeywordsUnchanged(before, now, roles);
  }

  lemma PairedComponents(w: Change, role: Role, name: string)
    requires Comparable(w, role) && Reachable(w, role, name) && name in Old(w)
    ensures name in New(w)
    ensures Paired(w, role, ComparedRoles(w.baseline, w.current, name), Old(w)[name], New(w)[name], true)
  {
    var reference :| MetAs(w, role, reference) && SchemaName(reference) == Some(name);
    assert SchemaKept(Old(w), New(w), name, ComparedRoles(w.baseline, w.current, name));
    if UsedRef(w.baseline, role, reference) {
      ComponentRefsUsed(w.baseline, role, reference);
      assert Used(w.baseline, role, name);
    } else {
      ComponentRefsUsed(w.current, role, reference);
      assert Used(w.current, role, name);
    }
    assert role in ComparedRoles(w.baseline, w.current, name) by { match role case Request => case Response => }
  }

  lemma NoMembers(schema: Json)
    requires Shaped(schema, false)
    ensures Properties(schema) == map[] && RequiredProperties(schema) == Some({})
  {
    assert StringSet([]) == {};
  }

  // Requests: from the baseline to the current document.

  lemma {:induction false} RequestNamed(w: Change, name: string, v: Json, n: nat)
    requires Comparable(w, Request) && BaselineArraysTyped(w) && Reachable(w, Request, name)
    ensures ConformsNamed(GuardedContext(w), name, v, n) ==> ConformsNamed(NewContext(w), name, v, n)
    decreases n, 3
  {
    if ConformsNamed(GuardedContext(w), name, v, n) {
      PairedComponents(w, Request, name);
      RequestSchema(w, Cut(GuardedContext(w), name), ComparedRoles(w.baseline, w.current, name),
                    Old(w)[name], New(w)[name], true, v, n);
    }
  }

  /** What the request direction needs of a pair beyond being paired. */
  ghost predicate Narrow(before: Json, now: Json, cut: set<string>, component: bool)
    requires before.Obj? && now.Obj?
  {
    && ArraysTyped(before)
    && (component ==> Properties(now).Keys - Properties(before).Keys <= cut)
    && (component ==> forall p :: p in Properties(before) ==> ArraysTyped(Properties(before)[p]))
  }

  lemma {:induction false} RequestSchema(w: Change, cut: set<string>, roles: set<Role>,
                                         before: Json, now: Json, component: bool, v: Json, n: nat)
    requires Comparable(w, Request) && BaselineArraysTyped(w) && Paired(w, Request, roles, before, now, component)
    requires Narrow(before, now, cut, component)
    requires Conforms(GuardedContext(w), cut, before, v, n)
    ensures Conforms(NewContext(w), {}, now, v, n)
    decreases n, 2
  {
    KeywordsForRequest(GuardedContext(w), NewContext(w), before, now, roles, v);
    RequestRef(w, roles, before, now, component, v, n);
    RequestItems(w, roles, before, now, component, v, n);
    RequestMembers(w, cut, roles, before, now, component, v, n);
  }

  lemma {:induction false} RequestRef(w: Change, roles: set<Role>, before: Json, now: Json, component: bool, v: Json, n: nat)
    requires Comparable(w, Request) && BaselineArraysTyped(w) && Paired(w, Request, roles, before, now, component)
    requires n > 0 && RefAdmits(GuardedContext(w), before, v, n)
    ensures RefAdmits(NewContext(w), now, v, n)
    decreases n, 1
  {
    if "$ref" in now.members {
      PairedRefBack(w, roles, before, now, component);
      PairedRef(w, Request, roles, before, now, component);
      RequestNamed(w, RefName(before).value, v, n - 1);
    }
  }

  lemma {:induction false} RequestItems(w: Change, roles: set<Role>, before: Json, now: Json, component: bool, v: Json, n: nat)
    requires Comparable(w, Request) && BaselineArraysTyped(w) && Paired(w, Request, roles, before, now, component)
    requires ArraysTyped(before)
    requires n > 0 && ItemsAdmit(GuardedContext(w), before, v, n)
    ensures ItemsAdmit(NewContext(w), now, v, n)
    decreases n, 1
  {
    if "items" in now.members && v.Arr? {
      KeywordsUnchanged(before, now, roles);
      assert "type" in now.members && "type" in before.members;
      PairedItems(w, Request, roles, before, now, component);
      forall i | 0 <= i < |v.items|
        ensures Conforms(NewContext(w), {}, now.members["items"], v.items[i], n - 1)
      {
        RequestSchema(w, {}, roles, before.members["items"], now.members["items"], false, v.items[i], n - 1);
      }
    }
  }

  lemma {:induction false} RequestMembers(w: Change, cut: set<string>, roles: set<Role>,
                                          before: Json, now: Json, component: bool, v: Json, n: nat)
    requires Comparable(w, Request) && BaselineArraysTyped(w) && Paired(w, Request, roles, before, now, component)
    requires Narrow(before, now, cut, component)
    requires n > 0 && MembersAdmit(GuardedContext(w), cut, before, v, n)
    ensures MembersAdmit(NewContext(w), {}, now, v, n)
    decreases n, 1
  {
    if v.Obj? {
      if component {
        forall p | p in Properties(now) && p in v.members
          ensures Conforms(NewContext(w), {}, Properties(now)[p], v.members[p], n - 1)
        {
          assert p in Properties(before);
          PairedProperty(w, Request, roles, before, now, p);
          RequestSchema(w, {}, roles, Properties(before)[p], Properties(now)[p], false, v.members[p], n - 1);
        }
      } else {
        NoMembers(now);
      }
    }
  }

  // Responses: from the current document back to the baseline.

  lemma {:induction false} ResponseNamed(w: Change, name: string, v: Json, n: nat)
    requires Comparable(w, Response) && BaselineRefsResolve(w) && Reachable(w, Response, name) && name in Old(w)
    ensures ConformsNamed(NewContext(w), name, v, n) ==> ConformsNamed(OldContext(w), name, v, n)
    decreases n, 3
  {
    if ConformsNamed(NewContext(w), name, v, n) {
      PairedComponents(w, Response, name);
      ResponseSchema(w, ComparedRoles(w.baseline, w.current, name), Old(w)[name], New(w)[name], true, v, n);
    }
  }

  /** What the response direction needs of a pair beyond being paired. */
  ghost predicate Grounded(w: Change, before: Json, component: bool)
    requires Fragment(w.baseline) && before.Obj?
  {
    && Resolves(Old(w).Keys, before)
    && (component ==> forall p :: p in Properties(before) ==> Resolves(Old(w).Keys, Properties(before)[p]))
  }

  lemma {:induction false} ResponseSchema(w: Change, roles: set<Role>,
                                          before: Json, now: Json, component: bool, v: Json, n: nat)
    requires Comparable(w, Response) && BaselineRefsResolve(w) && Paired(w, Response, roles, before, now, component)
    requires Grounded(w, before, component)
    requires Conforms(NewContext(w), {}, now, v, n)
    ensures Conforms(OldContext(w), {}, before, v, n)
    decreases n, 2
  {
    KeywordsForResponse(NewContext(w), OldContext(w), before, now, roles, v);
    ResponseRef(w, roles, before, now, component, v, n);
    ResponseItems(w, roles, before, now, component, v, n);
    ResponseMembers(w, roles, before, now, component, v, n);
  }

  lemma {:induction false} ResponseRef(w: Change, roles: set<Role>, before: Json, now: Json, component: bool, v: Json, n: nat)
    requires Comparable(w, Response) && BaselineRefsResolve(w) && Paired(w, Response, roles, before, now, component)
    requires Resolves(Old(w).Keys, before)
    requires n > 0 && RefAdmits(NewContext(w), now, v, n)
    ensures RefAdmits(OldContext(w), before, v, n)
    decreases n, 1
  {
    if "$ref" in before.members {
      PairedRef(w, Response, roles, before, now, component);
      ResponseNamed(w, RefName(before).value, v, n - 1);
    }
  }

  lemma {:induction false} ResponseItems(w: Change, roles: set<Role>, before: Json, now: Json, component: bool, v: Json, n: nat)
    requires Comparable(w, Response) && BaselineRefsResolve(w) && Paired(w, Response, roles, before, now, component)
    requires Resolves(Old(w).Keys, before)
    requires n > 0 && ItemsAdmit(NewContext(w), now, v, n)
    ensures ItemsAdmit(OldContext(w), before, v, n)
    decreases n, 1
  {
    if "items" in before.members && v.Arr? {
      PairedItems(w, Response, roles, before, now, component);
      forall i | 0 <= i < |v.items|
        ensures Conforms(OldContext(w), {}, before.members["items"], v.items[i], n - 1)
      {
        ResponseSchema(w, roles, before.members["items"], now.members["items"], false, v.items[i], n - 1);
      }
    }
  }

  lemma {:induction false} ResponseMembers(w: Change, roles: set<Role>, before: Json, now: Json, component: bool, v: Json, n: nat)
    requires Comparable(w, Response) && BaselineRefsResolve(w) && Paired(w, Response, roles, before, now, component)
    requires Grounded(w, before, component)
    requires n > 0 && MembersAdmit(NewContext(w), {}, now, v, n)
    ensures MembersAdmit(OldContext(w), {}, before, v, n)
    decreases n, 1
  {
    if v.Obj? {
      if component {
        forall p | p in Properties(before) && p in v.members
          ensures Conforms(OldContext(w), {}, Properties(before)[p], v.members[p], n - 1)
        {
          PairedProperty(w, Response, roles, before, now, p);
          ResponseSchema(w, roles, Properties(before)[p], Properties(now)[p], false, v.members[p], n - 1);
        }
      } else {
        NoMembers(before);
      }
    }
  }

  // ----- the guarantees -----

  /** A deeper derivation bound admits no fewer values, so `Valid` does not depend on
      where a derivation is cut off. */
  lemma {:induction false} ConformsMonotone(ctx: Context, cut: set<string>, schema: Json, v: Json, n: nat, m: nat)
    requires n <= m && Conforms(ctx, cut, schema, v, n)
    ensures Conforms(ctx, cut, schema, v, m)
    decreases n
  {
    if "$ref" in schema.members {
      assert RefAdmits(ctx, schema, v, n);
      var name := RefName(schema).value;
      assert ConformsNamed(ctx, name, v, n - 1);
      ConformsMonotone(ctx, Cut(ctx, name), ctx.schemas[name], v, n - 1, m - 1);
    }
    if "items" in schema.members && v.Arr? {
      forall i | 0 <= i < |v.items| ensures Conforms(ctx, {}, schema.members["items"], v.items[i], m - 1) {
        ConformsMonotone(ctx, {}, schema.members["items"], v.items[i], n - 1, m - 1);
      }
    }
    if v.Obj? {
      forall p | p in Properties(schema) && p in v.members
        ensures Conforms(ctx, {}, Properties(schema)[p], v.members[p], m - 1)
      {
        ConformsMonotone(ctx, {}, Properties(schema)[p], v.members[p], n - 1, m - 1);
      }
    }
  }

  /** No errors, and a component met from a request body in either document: every
      value valid before, and free of properties that only the new document declares,
      is valid now. */
  lemma RequestSoundness(w: Change, name: string, v: Json)
    requires Comparable(w, Request) && BaselineArraysTyped(w) && Reachable(w, Request, name)
    requires Valid(GuardedContext(w), name, v)
    ensures Valid(NewContext(w), name, v)
  {
    var n :| ConformsNamed(GuardedContext(w), name, v, n);
    RequestNamed(w, name, v, n);
  }

  /** No errors, and a component met from some responses in either document: every value
      valid now was valid before, so an old client can read it. */
  lemma ResponseSoundness(w: Change, name: string, v: Json)
    requires Comparable(w, Response) && BaselineRefsResolve(w) && Reachable(w, Response, name) && name in Old(w)
    requires Valid(NewContext(w), name, v)
    ensures Valid(OldContext(w), name, v)
  {
    var n :| ConformsNamed(NewContext(w), name, v, n);
    ResponseNamed(w, name, v, n);
  }

  // ----- where the comparison is blind -----

  /** The schema with its items narrowed to nothing. */
  function WithoutItems(schema: Json): Json
    requires schema.Obj?
  {
    Obj(schema.members["items" := Obj(map["enum" := Arr([])])])
  }

  lemma NothingConforms(ctx: Context, cut: set<string>, v: Json, n: nat)
    ensures !Conforms(ctx, cut, Obj(map["enum" := Arr([])]), v, n)
  {
  }

  /** Adding `items` to an array schema that had none is never reported, in any role,
      though it refuses every non-empty array the schema took before: request
      soundness needs `ArraysTyped`. */
  lemma UntypedItemsGap(ctx: Context, cut: set<string>, schema: Json, roles: set<Role>, v: Json, n: nat)
    requires schema.Obj? && Get(schema, "type") == Str("array") && "items" !in schema.members
    requires Accepts(schema, schema, roles)
    requires v.Arr? && v.items != [] && Conforms(ctx, cut, schema, v, n)
    ensures Accepts(schema, WithoutItems(schema), roles)
    ensures forall m: nat :: !Conforms(ctx, cut, WithoutItems(schema), v, m)
  {
    AcceptsParts(schema, schema, roles);
    var now := WithoutItems(schema);
    forall keyword | keyword in {"$ref", "type", "format"}
      ensures CompareKeyword(schema, now, roles, keyword) == CompareKeyword(schema, schema, roles, keyword)
    {
    }
    assert CompareEnum(schema, now, roles) == CompareEnum(schema, schema, roles);
    forall m: nat ensures !Conforms(ctx, cut, now, v, m) {
      if m > 0 {
        NothingConforms(ctx, {}, v.items[0], m - 1);
        assert !Conforms(ctx, {}, now.members["items"], v.items[0], m - 1);
        assert !ItemsAdmit(ctx, now, v, m);
      }
    }
  }

  lemma OneIn(a: Json, b: Json)
    requires PyEq(a, b)
    ensures PyIn(a, [b])
  {
    assert PyEq(a, [b][0]);
  }

  /** The enum [1] may become [true] and back in either role, since Python takes the two
      for equal, although the one value is exchanged for the other: soundness needs
      `EnumsTwinned`. */
  lemma BooleanEnumGap(ctx: Context, roles: set<Role>)
    ensures var one, yes := Obj(map["enum" := Arr([Num(1.0)])]), Obj(map["enum" := Arr([Bool(true)])]);
      && Accepts(one, yes, roles) && Accepts(yes, one, roles)
      && Conforms(ctx, {}, one, Num(1.0), 1) && (forall n: nat :: !Conforms(ctx, {}, yes, Num(1.0), n))
      && Conforms(ctx, {}, yes, Bool(true), 1) && (forall n: nat :: !Conforms(ctx, {}, one, Bool(true), n))
  {
    OneIn(Num(1.0), Bool(true));
    OneIn(Bool(true), Num(1.0));
    var one, yes := Obj(map["enum" := Arr([Num(1.0)])]), Obj(map["enum" := Arr([Bool(true)])]);
    assert CompareEnum(one, yes, roles) == [] && CompareEnum(yes, one, roles) == [];
    assert Properties(one) == map[] && Properties(yes) == map[];
  }

  /** References below a property named "$ref" are never followed, so a component they
      name may be compared in too few roles: soundness needs properties named otherwise. */
  lemma RefPropertyGap(inner: Json, node: Json)
    requires inner.Obj? && node == Obj(map["properties" := Obj(map["$ref" := inner])])
    ensures TreeRefs(node) == {}
  {
    var section := node.members["properties"];
    assert TreeRefs(section) == {};
  }

  /** A schema whose reference names no component admits no value at all. */
  lemma DanglingAdmitsNothing(ctx: Context, cut: set<string>, schema: Json, v: Json, n: nat)
    requires schema.Obj? && "$ref" in schema.members
    requires RefName(schema).None? || RefName(schema).value !in ctx.schemas
    ensures !Conforms(ctx, cut, schema, v, n)
  {
    assert n > 0 ==> !RefAdmits(ctx, schema, v, n);
  }

  /** Where either document's schemas are no object, none is compared: every baseline
      schema may be gone and the documents are still reported compatible. */
  lemma SchemasPassedOver(baseline: Json, current: Json)
    requires baseline.Obj? && current.Obj? && (Schemas(baseline).None? || Schemas(current).None?)
    ensures Compatible(baseline, current) <==> PathsKept(baseline, current)
  {
  }
}
