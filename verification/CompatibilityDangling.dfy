/** A change reported as compatible after which an old client refuses a response, because a
    baseline schema refers to a component the baseline does not have. */
module CompatibilityDangling {
  import opened Json
  import opened Pointers
  import opened SchemaRoles
  import opened Compatibility
  import opened CompatibilityOrder
  import opened CompatibilitySoundness
  import opened CompatibilityWitness

  const LOST := "#/components/schemas/Lost"

  /** A Node whose one property refers to Lost. */
  function Holder(): Json {
    Obj(map["properties" := Obj(map["lost" := RefTo(LOST)])])
  }

  /** The baseline has no Lost. */
  const OLD: map<string, Json> := map["Node" := Holder()]

  /** The current document adds one that takes anything. */
  const NEW: map<string, Json> := map["Node" := Holder(), "Lost" := Obj(map[])]

  const RESPONSE := Obj(map["lost" := Null])

  lemma LostName()
    ensures NamesComponent(LOST) && SchemaName(LOST) == Some("Lost")
  {
    PlainName("Lost", LOST);
  }

  lemma HolderProperties()
    ensures Properties(Holder()) == map["lost" := RefTo(LOST)]
  {
  }

  lemma HolderAccepted(roles: set<Role>)
    ensures ComponentAccepted(Holder(), Holder(), roles)
  {
    Reflexive(Holder(), roles);
    Reflexive(RefTo(LOST), roles);
    HolderProperties();
    NothingRequired(Holder());
  }

  lemma HolderShaped()
    ensures Shaped(Holder(), true) && Shaped(Obj(map[]), true)
  {
    LostName();
    HolderProperties();
    assert Shaped(RefTo(LOST), false);
    assert Properties(Obj(map[])) == map[];
  }

  lemma SchemasAccepted(a: Json, b: Json)
    requires a.Obj? && b.Obj? && Schemas(a) == Some(OLD) && Schemas(b) == Some(NEW)
    ensures SchemasKept(a, b)
  {
    HolderAccepted(ComparedRoles(a, b, "Node"));
    assert SchemaKept(OLD, NEW, "Node", ComparedRoles(a, b, "Node"));
  }

  lemma InFragment(document: Json, schemas: map<string, Json>)
    requires document.Obj? && Schemas(document) == Some(schemas) && schemas in {OLD, NEW}
    ensures Fragment(document)
  {
    HolderShaped();
  }

  lemma Compared(a: Json, b: Json)
    requires a == Document(OLD) && b == Document(NEW)
    ensures Schemas(a) == Some(OLD) && Schemas(b) == Some(NEW) && Compatible(a, b)
  {
    PathsSame(OLD, NEW);
    DocumentSchemas(OLD);
    DocumentSchemas(NEW);
    SchemasAccepted(a, b);
  }

  lemma NodeReturned(w: Change)
    requires w.baseline == Document(OLD)
    ensures Reachable(w, Response, "Node")
  {
    NodeRefNames();
    NodeUsed(OLD, Response);
    assert MetAs(w, Response, NODE_REF);
  }

  lemma Reported() returns (w: Change)
    ensures Fragment(w.baseline) && Fragment(w.current) && Compatible(w.baseline, w.current)
    ensures Reachable(w, Response, "Node")
    ensures Old(w) == OLD && New(w) == NEW
  {
    var a, b := Document(OLD), Document(NEW);
    w := Change(a, b, (f: Json, v: Json) => true);
    Compared(a, b);
    InFragment(a, OLD);
    InFragment(b, NEW);
    NodeReturned(w);
  }

  /** What Node takes is what the reference takes below the property. */
  lemma HolderTakes(ctx: Context, n: nat)
    requires "Node" in ctx.schemas && ctx.schemas["Node"] == Holder() && ctx.barred == map[] && n > 0
    ensures ConformsNamed(ctx, "Node", RESPONSE, n) <==> Conforms(ctx, {}, RefTo(LOST), Null, n - 1)
  {
    HolderProperties();
    NothingRequired(Holder());
    assert KeywordsAdmit(ctx, Holder(), RESPONSE) && RefAdmits(ctx, Holder(), RESPONSE, n) && ItemsAdmit(ctx, Holder(), RESPONSE, n);
    assert "lost" in RESPONSE.members && RESPONSE.members["lost"] == Null;
    if Conforms(ctx, {}, RefTo(LOST), Null, n - 1) {
      assert MembersAdmit(ctx, {}, Holder(), RESPONSE, n);
    } else {
      assert !MembersAdmit(ctx, {}, Holder(), RESPONSE, n);
    }
  }

  lemma LostTakes(ctx: Context)
    requires "Lost" in ctx.schemas && ctx.schemas["Lost"] == Obj(map[]) && ctx.barred == map[]
    ensures ConformsNamed(ctx, "Lost", Null, 1)
  {
  }

  lemma RefTakes(ctx: Context)
    requires "Lost" in ctx.schemas && ctx.schemas["Lost"] == Obj(map[]) && ctx.barred == map[]
    ensures Conforms(ctx, {}, RefTo(LOST), Null, 2)
  {
    LostName();
    LostTakes(ctx);
    RefConforms(ctx, LOST, "Lost", Null, 1);
  }

  lemma ValidNow(ctx: Context)
    requires ctx.schemas == NEW && ctx.barred == map[]
    ensures Valid(ctx, "Node", RESPONSE)
  {
    RefTakes(ctx);
    HolderTakes(ctx, 3);
  }

  lemma InvalidBefore(ctx: Context)
    requires ctx.schemas == OLD && ctx.barred == map[]
    ensures !Valid(ctx, "Node", RESPONSE)
  {
    LostName();
    forall n: nat ensures !ConformsNamed(ctx, "Node", RESPONSE, n) {
      if n > 0 {
        DanglingAdmitsNothing(ctx, {}, RefTo(LOST), Null, n - 1);
        HolderTakes(ctx, n);
      }
    }
  }

  /** No error is reported, the component is met from responses and in the baseline, and
      yet a response valid now was not valid before. */
  lemma CompatibleButUnreadable() returns (w: Change)
    ensures Fragment(w.baseline) && Fragment(w.current) && Compatible(w.baseline, w.current)
    ensures Reachable(w, Response, "Node") && "Node" in Old(w)
    ensures Valid(NewContext(w), "Node", RESPONSE)
    ensures !Valid(OldContext(w), "Node", RESPONSE)
  {
    w := Reported();
    ValidNow(NewContext(w));
    InvalidBefore(OldContext(w));
  }
}
