/** A change reported as compatible that breaks a request, because the one reference to
    the changed schema stands below a property named "$ref". */
module CompatibilityGap {
  import opened Json
  import opened Pointers
  import opened SchemaRoles
  import opened Compatibility
  import opened CompatibilityOrder
  import opened CompatibilitySoundness
  import opened CompatibilityWitness

  const OUTER := "#/components/schemas/Outer"
  const INNER := "#/components/schemas/Inner"

  function Outer(): Json {
    Obj(map["properties" := Obj(map["$ref" := RefTo(INNER)])])
  }

  function GapPost(): Json {
    Obj(map["requestBody" := RefTo(OUTER), "responses" := RefTo(INNER)])
  }

  function GapDocument(inner: Json): Json {
    Obj(map["paths" := Obj(map["/a" := Obj(map["post" := GapPost()])]),
            "components" := Obj(map["schemas" := Obj(map["Outer" := Outer(), "Inner" := inner])])])
  }

  function Before(): Json {
    Obj(map[])
  }

  /** One more required property: fine in a response, a break in a request. */
  function After(): Json {
    Obj(map["required" := Arr([Str("x")])])
  }

  lemma OuterName()
    ensures NamesComponent(OUTER) && SchemaName(OUTER) == Some("Outer")
  {
    PlainName("Outer", OUTER);
  }

  lemma InnerName()
    ensures NamesComponent(INNER) && SchemaName(INNER) == Some("Inner")
  {
    PlainName("Inner", INNER);
  }

  lemma SchemasOf(inner: Json)
    ensures Schemas(GapDocument(inner)) == Some(map["Outer" := Outer(), "Inner" := inner])
  {
  }

  lemma OuterLeadsNowhere(inner: Json)
    ensures NextRefs(GapDocument(inner), OUTER) == {}
  {
    OuterName();
    SchemasOf(inner);
    ComponentTarget(GapDocument(inner), OUTER);
    RefPropertyGap(RefTo(INNER), Outer());
  }

  lemma OnlyOperation(inner: Json, route: string, verb: string)
    ensures Operation(GapDocument(inner), route, verb).Some? <==> route == "/a" && verb == "post"
    ensures Operation(GapDocument(inner), "/a", "post") == Some(GapPost())
  {
    var item := Obj(map["post" := GapPost()]);
    var paths := Obj(map["/a" := item]);
    assert Member(GapDocument(inner), "paths") == Some(paths);
    assert Member(paths, "/a") == Some(item);
    assert Member(item, "post") == Some(GapPost());
    assert Member(paths, route).Some? ==> route == "/a";
    assert Member(item, verb).Some? ==> verb == "post";
  }

  lemma RequestMeetsOuterOnly(inner: Json, reference: string)
    requires UsedRef(GapDocument(inner), Request, reference)
    ensures reference == OUTER
  {
    var route, verb :| UsedBy(GapDocument(inner), route, verb, Request, reference);
    OnlyOperation(inner, route, verb);
    assert RoleRoot(GapPost(), Request) == Some(RefTo(OUTER));
    var p :| RefPath(GapDocument(inner), RefTo(OUTER), p) && p[|p| - 1] == reference;
    RefAlone(OUTER);
    OuterLeadsNowhere(inner);
    ClosedHoldsPath(GapDocument(inner), RefTo(OUTER), {OUTER}, p);
  }

  lemma InnerNotRequested(inner: Json)
    ensures !Used(GapDocument(inner), Request, "Inner")
  {
    OuterName();
    forall r | UsedRef(GapDocument(inner), Request, r) ensures SchemaName(r) != Some("Inner") {
      RequestMeetsOuterOnly(inner, r);
    }
  }

  lemma InnerReturned(inner: Json)
    ensures Used(GapDocument(inner), Response, "Inner")
  {
    InnerName();
    OnlyOperation(inner, "/a", "post");
    assert RoleRoot(GapPost(), Response) == Some(RefTo(INNER));
    RefReaches(GapDocument(inner), INNER);
    assert UsedBy(GapDocument(inner), "/a", "post", Response, INNER);
    assert UsedRef(GapDocument(inner), Response, INNER);
  }

  lemma InnerRoles()
    ensures ComparedRoles(GapDocument(Before()), GapDocument(After()), "Inner") == {Response}
  {
    OnlyReturned(Before());
    OnlyReturned(After());
  }

  lemma OnlyReturned(inner: Json)
    ensures UsageOf(GapDocument(inner), "Inner") == {Response}
  {
    InnerNotRequested(inner);
    InnerReturned(inner);
  }

  lemma XRequired()
    ensures RequiredProperties(After()) == Some({"x"})
  {
    var xs := [Str("x")];
    assert xs[0].s == "x" && AllStrings(xs);
    assert StringSet(xs) == {"x"};
  }

  lemma InnerAccepted()
    ensures ComponentAccepted(Before(), After(), {Response})
  {
    Reflexive(Before(), {Response});
    NothingRequired(Before());
    XRequired();
    AcceptsParts(Before(), Before(), {Response});
  }

  lemma OuterAccepted(roles: set<Role>)
    ensures ComponentAccepted(Outer(), Outer(), roles)
  {
    Reflexive(Outer(), roles);
    Reflexive(RefTo(INNER), roles);
    assert Properties(Outer()) == map["$ref" := RefTo(INNER)];
  }

  lemma GapPathsSame()
    ensures PathsKept(GapDocument(Before()), GapDocument(After()))
  {
    var item := Obj(map["post" := GapPost()]);
    assert OperationKept(item, item, "post");
    assert PathKept(item, item);
    assert forall inner :: GetOr(GapDocument(inner), "paths", Obj(map[])) == Obj(map["/a" := item]);
  }

  lemma InnerKept(before: map<string, Json>, now: map<string, Json>)
    requires before == map["Outer" := Outer(), "Inner" := Before()] && now == map["Outer" := Outer(), "Inner" := After()]
    ensures SchemaKept(before, now, "Inner", {Response})
  {
    InnerAccepted();
  }

  lemma OuterKept(before: map<string, Json>, now: map<string, Json>, roles: set<Role>)
    requires before == map["Outer" := Outer(), "Inner" := Before()] && now == map["Outer" := Outer(), "Inner" := After()]
    ensures SchemaKept(before, now, "Outer", roles)
  {
    OuterAccepted(roles);
  }

  lemma SchemasAccepted()
    ensures SchemasKept(GapDocument(Before()), GapDocument(After()))
  {
    var a, b := GapDocument(Before()), GapDocument(After());
    SchemasOf(Before());
    SchemasOf(After());
    InnerRoles();
    InnerKept(Schemas(a).value, Schemas(b).value);
    OuterKept(Schemas(a).value, Schemas(b).value, ComparedRoles(a, b, "Outer"));
  }

  const REQUEST := Obj(map["$ref" := Obj(map[])])

  predicate Holds(ctx: Context, inner: Json) {
    "Outer" in ctx.schemas && ctx.schemas["Outer"] == Outer() && "Inner" in ctx.schemas && ctx.schemas["Inner"] == inner
  }

  lemma EmptyRefused(ctx: Context, n: nat)
    requires "Inner" in ctx.schemas && ctx.schemas["Inner"] == After()
    ensures !ConformsNamed(ctx, "Inner", Obj(map[]), n)
  {
    XRequired();
    assert n > 0 ==> !MembersAdmit(ctx, Cut(ctx, "Inner"), After(), Obj(map[]), n);
  }

  lemma InnerRefused(ctx: Context, n: nat)
    requires "Inner" in ctx.schemas && ctx.schemas["Inner"] == After()
    ensures !Conforms(ctx, {}, RefTo(INNER), Obj(map[]), n)
  {
    if n > 0 {
      InnerName();
      EmptyRefused(ctx, n - 1);
      RefConforms(ctx, INNER, "Inner", Obj(map[]), n - 1);
    }
  }

  /** What Outer takes is what the reference takes below the property. */
  lemma OuterTakes(ctx: Context, v: Json, n: nat)
    requires "Outer" in ctx.schemas && ctx.schemas["Outer"] == Outer() && ctx.barred == map[] && n > 0
    ensures ConformsNamed(ctx, "Outer", Obj(map["$ref" := v]), n) <==> Conforms(ctx, {}, RefTo(INNER), v, n - 1)
  {
    NothingRequired(Outer());
    assert Properties(Outer()) == map["$ref" := RefTo(INNER)];
    var o := Obj(map["$ref" := v]);
    assert "$ref" in Properties(Outer()) && "$ref" in o.members && o.members["$ref"] == v;
    assert Cut(ctx, "Outer") == {} && o.members.Keys !! {};
    if Conforms(ctx, {}, RefTo(INNER), v, n - 1) {
      assert KeywordsAdmit(ctx, Outer(), o) && RefAdmits(ctx, Outer(), o, n) && ItemsAdmit(ctx, Outer(), o, n);
      assert MembersAdmit(ctx, {}, Outer(), o, n);
    } else {
      assert !MembersAdmit(ctx, {}, Outer(), o, n);
    }
  }

  lemma NowRefused(ctx: Context, n: nat)
    requires Holds(ctx, After()) && ctx.barred == map[]
    ensures !ConformsNamed(ctx, "Outer", REQUEST, n)
  {
    if n > 0 {
      InnerRefused(ctx, n - 1);
      OuterTakes(ctx, Obj(map[]), n);
    }
  }

  lemma EmptyTaken(ctx: Context)
    requires "Inner" in ctx.schemas && ctx.schemas["Inner"] == Before() && ctx.barred == map[]
    ensures ConformsNamed(ctx, "Inner", Obj(map[]), 1)
  {
    NothingRequired(Before());
    assert Properties(Before()) == map[];
  }

  lemma RefTakesEmpty(ctx: Context)
    requires "Inner" in ctx.schemas && ctx.schemas["Inner"] == Before() && ctx.barred == map[]
    ensures Conforms(ctx, {}, RefTo(INNER), Obj(map[]), 2)
  {
    InnerName();
    EmptyTaken(ctx);
    RefConforms(ctx, INNER, "Inner", Obj(map[]), 1);
  }

  lemma OnceAdmitted(ctx: Context)
    requires Holds(ctx, Before()) && ctx.barred == map[]
    ensures ConformsNamed(ctx, "Outer", REQUEST, 3)
  {
    RefTakesEmpty(ctx);
    OuterTakes(ctx, Obj(map[]), 3);
  }

  lemma Reported() returns (a: Json, b: Json)
    ensures a.Obj? && b.Obj? && Compatible(a, b) && Used(a, Request, "Outer")
    ensures Schemas(a) == Some(map["Outer" := Outer(), "Inner" := Before()])
    ensures Schemas(b) == Some(map["Outer" := Outer(), "Inner" := After()])
  {
    a, b := GapDocument(Before()), GapDocument(After());
    GapPathsSame();
    SchemasAccepted();
    SchemasOf(Before());
    SchemasOf(After());
    OuterRequested();
  }

  /** Two documents between which no error is reported, and a component met from a request
      body, such that a value valid before, with no newly declared property, is valid no
      more. */
  lemma CompatibleButBroken(format: (Json, Json) -> bool) returns (a: Json, b: Json)
    ensures a.Obj? && b.Obj? && Compatible(a, b) && Used(a, Request, "Outer")
    ensures Schemas(a).Some? && Schemas(b).Some?
    ensures Valid(Context(Schemas(a).value, format, map[]), "Outer", REQUEST)
    ensures !Valid(Context(Schemas(b).value, format, map[]), "Outer", REQUEST)
  {
    a, b := Reported();
    NowInvalid(Context(Schemas(b).value, format, map[]));
    OnceValid(Context(Schemas(a).value, format, map[]));
  }

  lemma OnceValid(ctx: Context)
    requires Holds(ctx, Before()) && ctx.barred == map[]
    ensures Valid(ctx, "Outer", REQUEST)
  {
    OnceAdmitted(ctx);
  }

  lemma NowInvalid(ctx: Context)
    requires Holds(ctx, After()) && ctx.barred == map[]
    ensures !Valid(ctx, "Outer", REQUEST)
  {
    forall n ensures !ConformsNamed(ctx, "Outer", REQUEST, n) {
      NowRefused(ctx, n);
    }
  }

  lemma OuterRequested()
    ensures Used(GapDocument(Before()), Request, "Outer")
  {
    OuterName();
    OnlyOperation(Before(), "/a", "post");
    assert RoleRoot(GapPost(), Request) == Some(RefTo(OUTER));
    RefReaches(GapDocument(Before()), OUTER);
    assert UsedBy(GapDocument(Before()), "/a", "post", Request, OUTER);
    assert UsedRef(GapDocument(Before()), Request, OUTER);
  }
}
