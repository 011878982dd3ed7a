/** A change of a recursive document that meets every hypothesis of the soundness theorems. */
module CompatibilityWitness {
  import opened Json
  import opened Pointers
  import opened SchemaRoles
  import opened Compatibility
  import opened CompatibilityOrder
  import opened CompatibilitySoundness

  const NODE_REF := "#/components/schemas/Node"

  function RefTo(reference: string): Json {
    Obj(map["$ref" := Str(reference)])
  }

  /** A linked list: an object whose `next` is again one. */
  function Node(): Json {
    Obj(map["properties" := Obj(map["next" := RefTo(NODE_REF)])])
  }

  function Label(): Json {
    Obj(map["type" := Str("string")])
  }

  /** The same with one more optional property. */
  function LabelledNode(): Json {
    Obj(map["properties" := Obj(map["next" := RefTo(NODE_REF), "label" := Label()])])
  }

  function Post(): Json {
    Obj(map["requestBody" := RefTo(NODE_REF), "responses" := RefTo(NODE_REF)])
  }

  /** One operation that takes and returns a Node, over any schemas. */
  function Document(schemas: map<string, Json>): Json {
    Obj(map["paths" := Obj(map["/nodes" := Obj(map["post" := Post()])]),
            "components" := Obj(map["schemas" := Obj(schemas)])])
  }

  function Labelling(): Change {
    Change(Document(map["Node" := Node()]), Document(map["Node" := LabelledNode()]), (f: Json, v: Json) => true)
  }

  /** A plain name is what its reference is counted under. */
  lemma PlainName(name: string, reference: string)
    requires '/' !in name && '~' !in name && reference == SCHEMA_PREFIX + name
    ensures NamesComponent(reference) && SchemaName(reference) == Some(name)
  {
    assert reference[|SCHEMA_PREFIX|..] == name;
    UnescapePlain(name);
  }

  lemma NodeRefNames()
    ensures NamesComponent(NODE_REF) && SchemaName(NODE_REF) == Some("Node")
  {
    PlainName("Node", NODE_REF);
  }

  lemma DocumentSchemas(schemas: map<string, Json>)
    ensures Schemas(Document(schemas)) == Some(schemas)
  {
  }

  lemma NodeProperties()
    ensures Properties(Node()) == map["next" := RefTo(NODE_REF)]
    ensures Properties(LabelledNode()) == map["next" := RefTo(NODE_REF), "label" := Label()]
  {
  }

  lemma NodesShaped()
    ensures Shaped(Node(), true) && Shaped(LabelledNode(), true)
  {
    NodeRefNames();
    NodeProperties();
    assert Shaped(RefTo(NODE_REF), false) && Shaped(Label(), false);
  }

  lemma DocumentsShaped()
    ensures Fragment(Document(map["Node" := Node()])) && Fragment(Document(map["Node" := LabelledNode()]))
  {
    NodesShaped();
    DocumentSchemas(map["Node" := Node()]);
    DocumentSchemas(map["Node" := LabelledNode()]);
  }

  lemma KeywordsSame(roles: set<Role>)
    ensures Accepts(Node(), LabelledNode(), roles)
  {
    Reflexive(Node(), roles);
    AcceptsParts(Node(), Node(), roles);
  }

  lemma NodeAccepted(roles: set<Role>)
    ensures ComponentAccepted(Node(), LabelledNode(), roles)
  {
    KeywordsSame(roles);
    Reflexive(RefTo(NODE_REF), roles);
    NodeProperties();
    NothingRequired(Node());
    NothingRequired(LabelledNode());
  }

  lemma PathsSame(before: map<string, Json>, now: map<string, Json>)
    ensures PathsKept(Document(before), Document(now))
  {
    var item := Obj(map["post" := Post()]);
    assert OperationKept(item, item, "post");
    assert PathKept(item, item);
    assert GetOr(Document(before), "paths", Obj(map[])) == GetOr(Document(now), "paths", Obj(map[])) == Obj(map["/nodes" := item]);
  }

  lemma DocumentKept()
    ensures Compatible(Document(map["Node" := Node()]), Document(map["Node" := LabelledNode()]))
  {
    var a, b := Document(map["Node" := Node()]), Document(map["Node" := LabelledNode()]);
    PathsSame(map["Node" := Node()], map["Node" := LabelledNode()]);
    DocumentSchemas(map["Node" := Node()]);
    DocumentSchemas(map["Node" := LabelledNode()]);
    NodeAccepted(ComparedRoles(a, b, "Node"));
    assert SchemaKept(map["Node" := Node()], map["Node" := LabelledNode()], "Node", ComparedRoles(a, b, "Node"));
  }

  lemma RefAlone(reference: string)
    ensures TreeRefs(RefTo(reference)) == {reference}
  {
    assert OwnRef(RefTo(reference)) == {reference};
  }

  lemma RefReaches(document: Json, reference: string)
    ensures Reaches(document, RefTo(reference), reference)
  {
    RefAlone(reference);
    assert RefPath(document, RefTo(reference), [reference]);
  }

  lemma PostFound(schemas: map<string, Json>)
    ensures Operation(Document(schemas), "/nodes", "post") == Some(Post())
  {
    var item := Obj(map["post" := Post()]);
    assert Member(Document(schemas), "paths") == Some(Obj(map["/nodes" := item]));
    assert Member(Obj(map["/nodes" := item]), "/nodes") == Some(item);
    assert Member(item, "post") == Some(Post());
  }

  lemma NodeUsed(schemas: map<string, Json>, role: Role)
    ensures UsedRef(Document(schemas), role, NODE_REF)
  {
    PostFound(schemas);
    assert RoleRoot(Post(), role) == Some(RefTo(NODE_REF));
    RefReaches(Document(schemas), NODE_REF);
    assert UsedBy(Document(schemas), "/nodes", "post", role, NODE_REF);
  }

  lemma NodeMet(role: Role)
    ensures Reachable(Labelling(), role, "Node")
  {
    NodeRefNames();
    NodeUsed(map["Node" := Node()], role);
    assert MetAs(Labelling(), role, NODE_REF);
  }

  /** Lists of any length. */
  function ListOf(length: nat): Json {
    if length == 0 then Obj(map[]) else Obj(map["next" := ListOf(length - 1)])
  }

  lemma NothingRequired(schema: Json)
    requires schema.Obj? && "required" !in schema.members
    ensures RequiredProperties(schema) == Some({})
  {
    assert StringSet([]) == {};
  }

  predicate HoldsNode(ctx: Context) {
    && "Node" in ctx.schemas && ctx.schemas["Node"] in {Node(), LabelledNode()}
    && "next" !in Cut(ctx, "Node")
  }

  lemma NodeConforms(ctx: Context, v: Json, n: nat)
    requires HoldsNode(ctx) && n > 0 && v.Obj? && v.members.Keys <= {"next"}
    requires "next" in v.members ==> Conforms(ctx, {}, RefTo(NODE_REF), v.members["next"], n - 1)
    ensures ConformsNamed(ctx, "Node", v, n)
  {
    var node := ctx.schemas["Node"];
    NodeProperties();
    NothingRequired(node);
    assert MembersAdmit(ctx, Cut(ctx, "Node"), node, v, n);
  }

  lemma LongerConforms(ctx: Context, rest: Json, n: nat)
    requires HoldsNode(ctx) && ConformsNamed(ctx, "Node", rest, n)
    ensures ConformsNamed(ctx, "Node", Obj(map["next" := rest]), n + 2)
  {
    NodeRefNames();
    RefConforms(ctx, NODE_REF, "Node", rest, n);
    NodeConforms(ctx, Obj(map["next" := rest]), n + 2);
  }

  lemma {:induction false} ListConforms(ctx: Context, length: nat)
    requires HoldsNode(ctx)
    ensures Valid(ctx, "Node", ListOf(length))
  {
    if length == 0 {
      NodeConforms(ctx, ListOf(0), 1);
    } else {
      ListConforms(ctx, length - 1);
      var n: nat :| ConformsNamed(ctx, "Node", ListOf(length - 1), n);
      LongerConforms(ctx, ListOf(length - 1), n);
    }
  }

  /** A reference takes what the component takes. */
  lemma RefConforms(ctx: Context, reference: string, name: string, v: Json, n: nat)
    requires SchemaName(reference) == Some(name)
    ensures ConformsNamed(ctx, name, v, n) <==> Conforms(ctx, {}, RefTo(reference), v, n + 1)
  {
    assert RefName(RefTo(reference)) == Some(name);
    assert Properties(RefTo(reference)) == map[];
    NothingRequired(RefTo(reference));
  }

  lemma NodesGrounded()
    ensures ArraysTyped(Node()) && Resolves({"Node"}, Node())
    ensures forall p :: p in Properties(Node()) ==>
      ArraysTyped(Properties(Node())[p]) && Resolves({"Node"}, Properties(Node())[p])
  {
    NodeRefNames();
    NodeProperties();
    assert RefName(RefTo(NODE_REF)) == Some("Node");
  }

  lemma NodesTwinned(role: Role)
    ensures EnumsTwinned(role, Node(), LabelledNode())
    ensures forall p :: p in Properties(Node()) && p in Properties(LabelledNode()) ==>
      EnumsTwinned(role, Properties(Node())[p], Properties(LabelledNode())[p])
  {
    NodeProperties();
  }

  lemma HypothesesMet(role: Role)
    ensures var w := Labelling();
      Comparable(w, role) && Old(w) == map["Node" := Node()] && New(w) == map["Node" := LabelledNode()]
  {
    DocumentsShaped();
    DocumentKept();
    DocumentSchemas(map["Node" := Node()]);
    DocumentSchemas(map["Node" := LabelledNode()]);
    NodesTwinned(role);
  }

  lemma BaselineInOrder()
    ensures var w := Labelling();
      Fragment(w.baseline) && BaselineArraysTyped(w) && BaselineRefsResolve(w)
  {
    DocumentsShaped();
    DocumentSchemas(map["Node" := Node()]);
    NodesGrounded();
  }

  lemma ChangeMeets() returns (w: Change)
    ensures Comparable(w, Request) && Comparable(w, Response) && BaselineArraysTyped(w) && BaselineRefsResolve(w)
    ensures Reachable(w, Request, "Node") && Reachable(w, Response, "Node")
    ensures Old(w) == map["Node" := Node()] && New(w) == map["Node" := LabelledNode()]
  {
    w := Labelling();
    HypothesesMet(Request);
    HypothesesMet(Response);
    BaselineInOrder();
    NodeMet(Request);
    NodeMet(Response);
  }

  lemma LabelIsNew(w: Change)
    requires Fragment(w.baseline) && Fragment(w.current)
    requires Old(w) == map["Node" := Node()] && New(w) == map["Node" := LabelledNode()]
    ensures NewlyDeclared(w)["Node"] == {"label"}
  {
    NodeProperties();
  }

  lemma ListsValid(w: Change, length: nat)
    requires Fragment(w.baseline) && Fragment(w.current)
    requires Old(w) == map["Node" := Node()] && New(w) == map["Node" := LabelledNode()]
    ensures Valid(GuardedContext(w), "Node", ListOf(length)) && Valid(NewContext(w), "Node", ListOf(length))
  {
    LabelIsNew(w);
    ListConforms(GuardedContext(w), length);
    ListConforms(NewContext(w), length);
  }

  /** The hypotheses of both soundness theorems are met by adding an optional property to a
      recursive schema, and by values of every depth. */
  lemma SoundnessApplies(length: nat) returns (w: Change)
    ensures Comparable(w, Request) && Comparable(w, Response) && BaselineArraysTyped(w) && BaselineRefsResolve(w)
    ensures Reachable(w, Request, "Node") && Reachable(w, Response, "Node") && "Node" in Old(w)
    ensures "Node" in New(w) && NewlyDeclared(w)["Node"] == {"label"}
    ensures Valid(GuardedContext(w), "Node", ListOf(length)) && Valid(NewContext(w), "Node", ListOf(length))
  {
    w := ChangeMeets();
    LabelIsNew(w);
    ListsValid(w, length);
  }
}
