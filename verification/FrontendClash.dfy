/** An accepted document whose compiled text depends on its member order. */
module FrontendClash {
  import J = Json
  import opened Sorting
  import opened OrderedJson
  import opened FrontendDocument
  import opened FrontendValidator
  import opened FrontendCompiler
  import opened FrontendCanonical
  import opened FrontendTotality
  import opened FrontendOrder

  const PATH := "/api/v1/a"

  function Header(): Doc {
    Obj([Member("schema", Obj([]))])
  }

  /** Two header names equal ignoring case. */
  function Headers(): Doc {
    Obj([Member("A", Header()), Member("a", Header())])
  }

  function Response(): Doc {
    Obj([Member("headers", Headers())])
  }

  function Responses(): Doc {
    Obj([Member("200", Response())])
  }

  function Operation(): Doc {
    Obj([Member("operationId", Str("a")), Member("responses", Responses())])
  }

  function PathItem(): Doc {
    Obj([Member("get", Operation())])
  }

  function Paths(): Doc {
    Obj([Member(PATH, PathItem())])
  }

  function Clashing(): Doc {
    Obj([Member("openapi", Str("3.1.0")), Member("components", Obj([])), Member("paths", Paths())])
  }

  function Index(): seq<Entry> {
    [Entry("a", "GET", PATH, Operation(), PathItem())]
  }

  // ----- single members -----

  lemma OnlyMember(key: string, value: Doc)
    ensures var d := Obj([Member(key, value)]); Keys(d.members) == {key} && Has(d, key) && At(d.members, key) == value
  {
    var ms := [Member(key, value)];
    assert ms[0].key == key;
  }

  lemma TwoMembers(k: string, v: Doc, l: string, w: Doc)
    requires k != l
    ensures var ms := [Member(k, v), Member(l, w)]; Keys(ms) == {k, l} && At(ms, k) == v && At(ms, l) == w
  {
    var ms := [Member(k, v), Member(l, w)];
    assert ms[0].key == k && ms[1].key == l;
    IndexUnique(ms, 0);
    IndexUnique(ms, 1);
  }

  lemma ClashingMembers()
    ensures Has(Clashing(), "openapi") && At(Clashing().members, "openapi") == Str("3.1.0")
    ensures Has(Clashing(), "components") && At(Clashing().members, "components") == Obj([])
    ensures Has(Clashing(), "paths") && At(Clashing().members, "paths") == Paths()
  {
    var ms := Clashing().members;
    assert DistinctMembers(ms);
    IndexUnique(ms, 0);
    IndexUnique(ms, 1);
    IndexUnique(ms, 2);
  }

  // ----- it is well-formed and accepted -----

  lemma HeadersWellFormed()
    ensures WellFormed(Headers()) && RepairFree(Headers())
  {
    assert WellFormed(Obj([])) && RepairFree(Obj([]));
    assert WellFormed(Header()) && RepairFree(Header());
  }

  lemma OperationWellFormed()
    ensures WellFormed(Operation()) && RepairFree(Operation())
  {
    HeadersWellFormed();
    assert WellFormed(Response()) && RepairFree(Response());
    assert WellFormed(Responses()) && RepairFree(Responses());
  }

  lemma ClashingWellFormed()
    ensures WellFormed(Clashing()) && RepairFree(Clashing()) && WellFormed(Paths())
  {
    OperationWellFormed();
    assert WellFormed(PathItem()) && RepairFree(PathItem());
    assert WellFormed(Paths()) && RepairFree(Paths());
    assert WellFormed(Obj([])) && RepairFree(Obj([]));
  }

  lemma HeaderAccepted(document: Doc, name: string)
    requires name != ""
    ensures HeaderValid(document, name, Header())
  {
    OnlyMember("schema", Obj([]));
    assert SchemaValid(document, Obj([]));
  }

  lemma HeadersAccepted(document: Doc)
    ensures HeadersValid(document, Headers())
  {
    TwoMembers("A", Header(), "a", Header());
    HeaderAccepted(document, "A");
    HeaderAccepted(document, "a");
  }

  lemma ResponsesAccepted(u: Unicode, document: Doc)
    ensures ResponsesValid(u, document, Responses())
  {
    OnlyMember("headers", Headers());
    OnlyMember("200", Response());
    HeadersAccepted(document);
    assert ResponseShaped(u, document, "200", Response());
  }

  lemma NoPlaceholders()
    ensures Placeholders(PATH) == {}
  {
    forall name ensures name !in Placeholders(PATH) {
      PlaceholdersExactly(PATH, name);
    }
  }

  lemma OperationMembers()
    ensures Keys(Operation().members) == {"operationId", "responses"}
    ensures At(Operation().members, "operationId") == Str("a") && At(Operation().members, "responses") == Responses()
  {
    TwoMembers("operationId", Str("a"), "responses", Responses());
  }

  lemma NoParameters(owner: Doc)
    requires !Has(owner, "parameters")
    ensures ParametersOf(owner) == Arr([])
  {
  }

  lemma OperationAccepted(u: Unicode, document: Doc)
    requires !Has(document, "security")
    ensures OperationValid(u, document, PATH, PathItem(), Operation())
  {
    OperationMembers();
    OnlyMember("get", Operation());
    NoParameters(PathItem());
    NoParameters(Operation());
    assert AllParameters(PathItem(), Operation()) == [] && PathNames(document, []) == {};
    ResponsesAccepted(u, document);
    NoPlaceholders();
    assert SecurityOf(document, Operation()) == Arr([]);
  }

  lemma PlainPath()
    ensures "/api/v1/" <= PATH && !Contains(PATH, "://")
  {
    NoColon(PATH);
  }

  lemma {:induction false} NoColon(text: string)
    requires ':' !in text
    ensures !Contains(text, "://")
  {
    assert !("://" <= text) by {
      assert "://"[0] == ':';
    }
    if text != "" {
      NoColon(text[1..]);
    }
  }

  lemma PathAccepted(u: Unicode, document: Doc)
    requires !Has(document, "security")
    ensures PathValid(u, document, PATH, PathItem())
  {
    PlainPath();
    OnlyMember("get", Operation());
    OperationAccepted(u, document);
  }

  lemma OneOperation(path: string, verb: string)
    ensures IsOperation(Paths(), path, verb) <==> path == PATH && verb == "get"
    ensures IsOperation(Paths(), PATH, "get") && IdAt(Paths(), PATH, "get") == Str("a")
    ensures EntryAt(Paths(), PATH, "get") == Index()[0]
  {
    OnlyMember(PATH, PathItem());
    OnlyMember("get", Operation());
    OperationMembers();
    assert Has(Paths(), PATH) && At(Paths().members, PATH) == PathItem();
    assert Has(PathItem(), "get") && At(PathItem().members, "get") == Operation();
    assert "get"[0] != "x-"[0];
    assert !Skipped("get");
  }

  lemma PathsAccepted(u: Unicode, document: Doc)
    requires !Has(document, "security")
    ensures PathsValid(u, document, Paths()) && IsIndex(Paths(), Index())
  {
    OnlyMember(PATH, PathItem());
    PathAccepted(u, document);
    forall p, v ensures IsOperation(Paths(), p, v) <==> p == PATH && v == "get" { OneOperation(p, v); }
    OneOperation(PATH, "get");
    assert Indexed(Paths(), Index(), PATH, "get");
  }

  lemma ComponentsAccepted(document: Doc)
    ensures ComponentsValid(document, Obj([]))
  {
  }

  lemma Accepted(u: Unicode)
    ensures WellFormed(Clashing()) && DocumentValid(u, Clashing()) && IsIndex(GetOr(Clashing(), "paths", Null), Index())
  {
    ClashingMembers();
    ClashingWellFormed();
    assert !Has(Clashing(), "security");
    ComponentsAccepted(Clashing());
    PathsAccepted(u, Clashing());
  }

  // ----- it compiles, and its two headers clash -----

  lemma Compilable()
    ensures NullFree(Clashing(), Index())
  {
    OperationMembers();
    OnlyMember("200", Response());
    OnlyMember("headers", Headers());
  }

  lemma Clashes(u: Unicode)
    requires u.lower("A") == u.lower("a")
    ensures !AllCaseDistinct(u, Clashing(), Index())
  {
    OperationMembers();
    OnlyMember("200", Response());
    OnlyMember("headers", Headers());
    var names := Names(Headers());
    assert names[0] == "A" && names[1] == "a";
    assert names[0] in names && names[1] in names && HeaderKey(u)("A") == HeaderKey(u)("a");
    assert !CaseDistinct(u, Headers());
    assert Resolve(Clashing(), Response()) == J.Some(Response());
    assert !ResponseCaseDistinct(u, Clashing(), Response());
    assert Index()[0] in Index();
  }

  /** An accepted, compilable document and the same document in another member order, which
      do not compile to the same text. */
  lemma MemberOrderShows(u: Unicode) returns (d: Doc, x: seq<Entry>, d2: Doc, x2: seq<Entry>)
    requires u.lower("A") == u.lower("a")
    ensures WellFormed(d) && DocumentValid(u, d) && IsIndex(GetOr(d, "paths", Null), x) && NullFree(d, x)
    ensures Reordered(d, d2, x2) && !RendersAlike(u, d, x, d2, x2)
  {
    d, x := Clashing(), Index();
    Accepted(u);
    Compilable();
    Clashes(u);
    OrderForgottenExactly(u, d, x);
    d2, x2 :| Reordered(d, d2, x2) && !RendersAlike(u, d, x, d2, x2);
  }
}
