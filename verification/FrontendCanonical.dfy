/** The compiled form does not depend on the member order of the document's objects. */
module FrontendCanonical {
  import J = Json
  import opened Sorting
  import opened OrderedJson
  import opened FrontendDocument
  import opened FrontendValidator
  import opened FrontendCompiler

  // ----- the rendered form -----

  function ParameterDoc(p: ParameterIr): Doc {
    Obj([Member("name", Str(p.name)), Member("in", Str(p.location)), Member("required", p.required),
         Member("style", p.style), Member("explode", p.explode), Member("schema", p.schema)])
  }

  function ContentDoc(c: ContentIr): Doc {
    Obj([Member("mediaType", Str(c.mediaType)), Member("schema", c.schema)])
  }

  function HeaderDoc(h: HeaderIr): Doc {
    Obj([Member("name", Str(h.name)), Member("required", Bool(true)), Member("style", h.style),
         Member("explode", h.explode), Member("schema", h.schema)])
  }

  function Listed<T>(f: T -> Doc, xs: seq<T>): Doc {
    Arr(seq(|xs|, i requires 0 <= i < |xs| => f(xs[i])))
  }

  function ResponseDoc(r: ResponseIr): Doc {
    Obj([Member("status", Str(r.status)), Member("headers", Listed(HeaderDoc, r.headers)), Member("content", Listed(ContentDoc, r.content))])
  }

  function OperationDoc(op: OperationIr): Doc {
    Obj([Member("operationId", Str(op.operationId)), Member("method", Str(op.verb)), Member("path", Str(op.path)),
         Member("security", Listed((s: string) => Str(s), op.security)),
         Member("parameters", Listed(ParameterDoc, op.parameters)),
         Member("requestBody", match op.requestBody
                               case Some(content) => Obj([Member("required", Bool(true)), Member("content", Listed(ContentDoc, content))])
                               case None => Null),
         Member("responses", Listed(ResponseDoc, op.responses))])
  }

  /** `render_compiler_ir`, up to the spelling of a JSON text: keys sorted at every depth. */
  function Render(ops: seq<OperationIr>): Doc {
    SortKeys(Obj([Member("schemaVersion", Num(1.0)), Member("operations", Listed(OperationDoc, ops))]))
  }

  // ----- compiled forms that are equal as Python values -----

  /** Only `required` of a parameter outside the path can hold an arbitrary value. */
  predicate SameParameter(p: ParameterIr, q: ParameterIr) {
    p.(required := Null) == q.(required := Null) && SortKeys(p.required) == SortKeys(q.required)
  }

  predicate SameParameters(a: seq<ParameterIr>, b: seq<ParameterIr>) {
    |a| == |b| && forall i :: 0 <= i < |a| ==> SameParameter(a[i], b[i])
  }

  predicate SameOperation(a: OperationIr, b: OperationIr) {
    a.(parameters := []) == b.(parameters := []) && SameParameters(a.parameters, b.parameters)
  }

  predicate SameOperations(a: seq<OperationIr>, b: seq<OperationIr>) {
    |a| == |b| && forall i :: 0 <= i < |a| ==> SameOperation(a[i], b[i])
  }

  lemma SortKeysByMembers(a: seq<Member>, b: seq<Member>)
    requires |a| == |b|
    requires forall i :: 0 <= i < |a| ==> a[i].key == b[i].key && SortKeys(a[i].value) == SortKeys(b[i].value)
    ensures SortKeys(Obj(a)) == SortKeys(Obj(b))
  {
    SortKeysOfObject(a);
    SortKeysOfObject(b);
    assert SortedValues(a) == SortedValues(b);
  }

  lemma SortKeysByItems(a: Doc, b: Doc)
    requires a.Arr? && b.Arr? && |a.items| == |b.items|
    requires forall i :: 0 <= i < |a.items| ==> SortKeys(a.items[i]) == SortKeys(b.items[i])
    ensures SortKeys(a) == SortKeys(b)
  {
    assert SortKeys(a).items == SortKeys(b).items;
  }

  lemma RenderParameters(a: seq<ParameterIr>, b: seq<ParameterIr>)
    requires SameParameters(a, b)
    ensures SortKeys(Listed(ParameterDoc, a)) == SortKeys(Listed(ParameterDoc, b))
  {
    forall i | 0 <= i < |a| ensures SortKeys(ParameterDoc(a[i])) == SortKeys(ParameterDoc(b[i])) {
      assert SameParameter(a[i], b[i]);
      assert a[i].(required := Null) == b[i].(required := Null);
      SortKeysByMembers(ParameterDoc(a[i]).members, ParameterDoc(b[i]).members);
    }
    SortKeysByItems(Listed(ParameterDoc, a), Listed(ParameterDoc, b));
  }

  lemma RenderOperation(a: OperationIr, b: OperationIr)
    requires SameOperation(a, b)
    ensures SortKeys(OperationDoc(a)) == SortKeys(OperationDoc(b))
  {
    assert a.(parameters := []) == b.(parameters := []);
    assert a.operationId == b.operationId && a.verb == b.verb && a.path == b.path;
    assert a.security == b.security && a.requestBody == b.requestBody && a.responses == b.responses;
    RenderParameters(a.parameters, b.parameters);
    SortKeysByMembers(OperationDoc(a).members, OperationDoc(b).members);
  }

  lemma RenderSame(a: seq<OperationIr>, b: seq<OperationIr>)
    requires SameOperations(a, b)
    ensures Render(a) == Render(b)
  {
    var x, y := Listed(OperationDoc, a), Listed(OperationDoc, b);
    forall i | 0 <= i < |a| ensures SortKeys(x.items[i]) == SortKeys(y.items[i]) {
      RenderOperation(a[i], b[i]);
    }
    SortKeysByItems(x, y);
    SortKeysByMembers([Member("schemaVersion", Num(1.0)), Member("operations", x)],
                      [Member("schemaVersion", Num(1.0)), Member("operations", y)]);
  }

  // ----- sorted names -----

  lemma NamesShuffled(a: Doc, b: Doc)
    requires a.Obj? && b.Obj? && Same(a, b) && DistinctMembers(a.members) && DistinctMembers(b.members)
    ensures multiset(Names(a)) == multiset(Names(b))
  {
    SameObjects(a, b);
    forall s ensures s in Names(a) <==> s in Names(b) {
      if s in Names(a) { assert s in Keys(a.members); assert Names(b)[IndexOf(b.members, s)] == s; }
      if s in Names(b) { assert s in Keys(b.members); assert Names(a)[IndexOf(a.members, s)] == s; }
    }
    assert NoRepeats(Names(a)) && NoRepeats(Names(b));
    SameListing(Names(a), Names(b));
  }

  lemma SortedNamesSame(a: Doc, b: Doc, key: string -> Key)
    requires a.Obj? && b.Obj? && Same(a, b) && DistinctMembers(a.members) && DistinctMembers(b.members)
    requires Keyed(Names(a), key)
    ensures Sorted(Names(a), key) == Sorted(Names(b), key)
  {
    NamesShuffled(a, b);
    SortedForgetsOrder(Names(a), Names(b), key);
  }

  lemma SchemaSame(a: Doc, b: Doc)
    requires WellFormed(a) && WellFormed(b) && Same(a, b)
    ensures Has(a, "schema") <==> Has(b, "schema")
    ensures Has(a, "schema") ==> SortKeys(At(a.members, "schema")) == SortKeys(At(b.members, "schema"))
  {
    SameMember(a, b, "schema");
    if Has(a, "schema") {
      WellFormedAt(a, "schema");
      WellFormedAt(b, "schema");
      SortKeysForgetsOrder(At(a.members, "schema"), At(b.members, "schema"));
    }
  }

  lemma GetOrSame(a: Doc, b: Doc, key: string, default: Doc)
    requires WellFormed(a) && WellFormed(b) && Same(a, b) && WellFormed(default)
    ensures Same(GetOr(a, key, default), GetOr(b, key, default))
    ensures WellFormed(GetOr(a, key, default)) && WellFormed(GetOr(b, key, default))
  {
    SameMember(a, b, key);
    if Has(a, key) {
      WellFormedAt(a, key);
      WellFormedAt(b, key);
    }
  }

  // ----- contents, parameters, headers -----

  lemma ContentSame(u: Unicode, a: Doc, b: Doc)
    requires WellFormed(a) && WellFormed(b) && Same(a, b)
    ensures CompileContent(u, a) == CompileContent(u, b)
  {
    SameScalarOrShape(a, b);
    if a.Obj? {
      SortedNamesSame(a, b, TextKey);
      var f, g := (t: string) => CompileMedia(u, a, t), (t: string) => CompileMedia(u, b, t);
      var texts := Sorted(Names(a), TextKey);
      forall i | 0 <= i < |texts| ensures f(texts[i]) == g(texts[i]) {
        MediaSame(u, a, b, texts[i]);
      }
      TraverseSame(f, g, texts, texts);
    }
  }

  lemma MediaSame(u: Unicode, a: Doc, b: Doc, text: string)
    requires WellFormed(a) && WellFormed(b) && Same(a, b)
    ensures CompileMedia(u, a, text) == CompileMedia(u, b, text)
  {
    SameMember(a, b, text);
    if Has(a, text) {
      WellFormedAt(a, text);
      WellFormedAt(b, text);
      SchemaSame(At(a.members, text), At(b.members, text));
    }
  }

  /** Well-formed, equal up to member order, in equal documents. */
  ghost predicate Paired(d1: Doc, d2: Doc, a: Doc, b: Doc) {
    && WellFormed(d1) && WellFormed(d2) && Same(d1, d2)
    && WellFormed(a) && WellFormed(b) && Same(a, b)
  }

  lemma ResolvedPaired(d1: Doc, d2: Doc, a: Doc, b: Doc)
    requires Paired(d1, d2, a, b)
    ensures Resolve(d1, a).Some? <==> Resolve(d2, b).Some?
    ensures Resolve(d1, a).Some? ==> Paired(d1, d2, Resolve(d1, a).value, Resolve(d2, b).value)
  {
    ResolveSame(d1, d2, a, b);
    if Resolve(d1, a).Some? {
      ResolveWellFormed(d1, a);
      ResolveWellFormed(d2, b);
    }
  }

  lemma ScalarSame(a: Doc, b: Doc, key: string, default: Doc)
    requires WellFormed(a) && WellFormed(b) && Same(a, b) && WellFormed(default)
    ensures var x, y := GetOr(a, key, default), GetOr(b, key, default);
      && SortKeys(x) == SortKeys(y)
      && (x.Str? || x.Bool? || x.Null? || y.Str? || y.Bool? || y.Null? ==> x == y)
  {
    GetOrSame(a, b, key, default);
    SortKeysForgetsOrder(GetOr(a, key, default), GetOr(b, key, default));
    SameScalarOrShape(GetOr(a, key, default), GetOr(b, key, default));
  }

  lemma ResolvedParameterSame(d1: Doc, p: Doc, q: Doc)
    requires WellFormed(p) && WellFormed(q) && Same(p, q) && ParameterShaped(d1, p)
    ensures CompileResolvedParameter(p).Some? && CompileResolvedParameter(q).Some?
    ensures SameParameter(CompileResolvedParameter(p).value, CompileResolvedParameter(q).value)
  {
    ScalarSame(p, q, "in", Null);
    ScalarSame(p, q, "name", Null);
    ScalarSame(p, q, "required", Bool(false));
    var location := GetOr(p, "in", Null).s;
    ScalarSame(p, q, "style", Str(ExpectedStyle(location)));
    ScalarSame(p, q, "explode", Bool(location == "query"));
    SchemaSame(p, q);
  }

  lemma ParameterSame(d1: Doc, d2: Doc, a: Doc, b: Doc)
    requires Paired(d1, d2, a, b) && ParameterValid(d1, a)
    ensures CompileParameter(d1, a).Some? && CompileParameter(d2, b).Some?
    ensures SameParameter(CompileParameter(d1, a).value, CompileParameter(d2, b).value)
  {
    ResolvedPaired(d1, d2, a, b);
    ResolvedParameterSame(d1, Resolve(d1, a).value, Resolve(d2, b).value);
  }

  lemma ParametersSame(d1: Doc, d2: Doc, xs: seq<Doc>, ys: seq<Doc>)
    requires |xs| == |ys| && forall i :: 0 <= i < |xs| ==> Paired(d1, d2, xs[i], ys[i]) && ParameterValid(d1, xs[i])
    ensures CompileParameters(d1, xs).Some? && CompileParameters(d2, ys).Some?
    ensures SameParameters(CompileParameters(d1, xs).value, CompileParameters(d2, ys).value)
  {
    var f, g := (raw: Doc) => CompileParameter(d1, raw), (raw: Doc) => CompileParameter(d2, raw);
    forall i | 0 <= i < |xs|
      ensures f(xs[i]).Some? && g(ys[i]).Some? && SameParameter(f(xs[i]).value, g(ys[i]).value)
    {
      ParameterSame(d1, d2, xs[i], ys[i]);
    }
    TraverseAt(f, xs);
    TraverseAt(g, ys);
    var a, b := CompileParameters(d1, xs).value, CompileParameters(d2, ys).value;
    forall i | 0 <= i < |a| ensures SameParameter(a[i], b[i]) {
      assert f(xs[i]) == J.Some(a[i]) && g(ys[i]) == J.Some(b[i]);
    }
  }

  lemma {:induction false} InsertSame(a: seq<ParameterIr>, b: seq<ParameterIr>, p: ParameterIr, q: ParameterIr)
    requires SameParameters(a, b) && SameParameter(p, q)
    ensures SameParameters(Insert(a, p, ParameterKey), Insert(b, q, ParameterKey))
    decreases |a|
  {
    assert p.(required := Null) == q.(required := Null);
    if a != [] {
      var n := |a| - 1;
      assert SameParameter(a[n], b[n]);
      assert a[n].(required := Null) == b[n].(required := Null);
      assert ParameterKey(a[n]) == ParameterKey(b[n]) && ParameterKey(p) == ParameterKey(q);
      if !Leq(ParameterKey(a[n]), ParameterKey(p)) {
        InsertSame(a[..n], b[..n], p, q);
      }
    }
  }

  lemma {:induction false} SortedSame(a: seq<ParameterIr>, b: seq<ParameterIr>)
    requires SameParameters(a, b)
    ensures SameParameters(Sorted(a, ParameterKey), Sorted(b, ParameterKey))
    decreases |a|
  {
    if a != [] {
      var n := |a| - 1;
      SortedSame(a[..n], b[..n]);
      InsertSame(Sorted(a[..n], ParameterKey), Sorted(b[..n], ParameterKey), a[n], b[n]);
    }
  }

  lemma ResolvedHeaderSame(name: string, h: Doc, k: Doc)
    requires WellFormed(h) && WellFormed(k) && Same(h, k) && h.Obj? && Has(h, "schema")
    requires GetOr(h, "style", Str("simple")) == Str("simple") && GetOr(h, "explode", Bool(false)) == Bool(false)
    ensures CompileResolvedHeader(name, h) == CompileResolvedHeader(name, k)
  {
    ScalarSame(h, k, "style", Str("simple"));
    ScalarSame(h, k, "explode", Bool(false));
    SchemaSame(h, k);
  }

  lemma HeaderSame(d1: Doc, d2: Doc, a: Doc, b: Doc, name: string)
    requires Paired(d1, d2, a, b) && Has(a, name) && HeaderValid(d1, name, At(a.members, name))
    ensures CompileHeader(d1, a, name) == CompileHeader(d2, b, name)
  {
    MemberPaired(d1, d2, a, b, name);
    ResolvedPaired(d1, d2, At(a.members, name), At(b.members, name));
    ResolvedHeaderSame(name, Resolve(d1, At(a.members, name)).value, Resolve(d2, At(b.members, name)).value);
  }

  /** No two names of the object are equal ignoring case. */
  ghost predicate CaseDistinct(u: Unicode, headers: Doc) {
    headers.Obj? ==> Keyed(Names(headers), HeaderKey(u))
  }

  lemma EachHeaderSame(d1: Doc, d2: Doc, a: Doc, b: Doc, names: seq<string>)
    requires Paired(d1, d2, a, b) && a.Obj? && HeadersValid(d1, a)
    requires forall i :: 0 <= i < |names| ==> names[i] in Keys(a.members)
    ensures Traverse((name: string) => CompileHeader(d1, a, name), names) == Traverse((name: string) => CompileHeader(d2, b, name), names)
  {
    var f, g := (name: string) => CompileHeader(d1, a, name), (name: string) => CompileHeader(d2, b, name);
    forall i | 0 <= i < |names| ensures f(names[i]) == g(names[i]) {
      HeaderSame(d1, d2, a, b, names[i]);
    }
    TraverseSame(f, g, names, names);
  }

  lemma HeadersSame(u: Unicode, d1: Doc, d2: Doc, a: Doc, b: Doc)
    requires Paired(d1, d2, a, b) && a.Obj? && b.Obj? && HeadersValid(d1, a) && CaseDistinct(u, a)
    ensures CompileHeaders(u, d1, a) == CompileHeaders(u, d2, b)
  {
    SortedNamesSame(a, b, HeaderKey(u));
    SortedInKeys(a, HeaderKey(u));
    EachHeaderSame(d1, d2, a, b, Sorted(Names(a), HeaderKey(u)));
  }

  // ----- responses and bodies -----

  ghost predicate ResponseCaseDistinct(u: Unicode, document: Doc, raw: Doc) {
    Resolve(document, raw).Some? ==> CaseDistinct(u, GetOr(Resolve(document, raw).value, "headers", Obj([])))
  }

  lemma HeadersPartSame(u: Unicode, d1: Doc, d2: Doc, r: Doc, t: Doc)
    requires Paired(d1, d2, r, t) && HeadersValid(d1, GetOr(r, "headers", Obj([])))
    requires CaseDistinct(u, GetOr(r, "headers", Obj([])))
    ensures var h, k := GetOr(r, "headers", Obj([])), GetOr(t, "headers", Obj([]));
      && (h.Obj? <==> k.Obj?)
      && (h.Obj? ==> CompileHeaders(u, d1, h) == CompileHeaders(u, d2, k))
  {
    GetOrSame(r, t, "headers", Obj([]));
    var h, k := GetOr(r, "headers", Obj([])), GetOr(t, "headers", Obj([]));
    SameScalarOrShape(h, k);
    if h.Obj? {
      HeadersSame(u, d1, d2, h, k);
    }
  }

  lemma ContentOfSame(u: Unicode, d1: Doc, d2: Doc, r: Doc, t: Doc)
    requires Paired(d1, d2, r, t)
    ensures ContentOf(u, r) == ContentOf(u, t)
  {
    MemberPaired(d1, d2, r, t, "content");
    if Has(r, "content") {
      ContentSame(u, At(r.members, "content"), At(t.members, "content"));
    }
  }

  lemma ResolvedResponseSame(u: Unicode, d1: Doc, d2: Doc, r: Doc, t: Doc, status: string)
    requires Paired(d1, d2, r, t) && HeadersValid(d1, GetOr(r, "headers", Obj([])))
    requires CaseDistinct(u, GetOr(r, "headers", Obj([])))
    ensures CompileResolvedResponse(u, d1, status, r) == CompileResolvedResponse(u, d2, status, t)
  {
    SameScalarOrShape(r, t);
    HeadersPartSame(u, d1, d2, r, t);
    ContentOfSame(u, d1, d2, r, t);
  }

  lemma MemberPaired(d1: Doc, d2: Doc, a: Doc, b: Doc, key: string)
    requires Paired(d1, d2, a, b)
    ensures Has(a, key) <==> Has(b, key)
    ensures Has(a, key) ==> Paired(d1, d2, At(a.members, key), At(b.members, key))
  {
    SameMember(a, b, key);
    if Has(a, key) {
      WellFormedAt(a, key);
      WellFormedAt(b, key);
    }
  }

  lemma ResponseSame(u: Unicode, d1: Doc, d2: Doc, a: Doc, b: Doc, status: string)
    requires Paired(d1, d2, a, b) && Has(a, status)
    requires ResponseValid(u, d1, status, At(a.members, status)) && ResponseCaseDistinct(u, d1, At(a.members, status))
    ensures CompileResponse(u, d1, a, status) == CompileResponse(u, d2, b, status)
  {
    MemberPaired(d1, d2, a, b, status);
    var x, y := At(a.members, status), At(b.members, status);
    ResolvedPaired(d1, d2, x, y);
    ResolvedResponseSame(u, d1, d2, Resolve(d1, x).value, Resolve(d2, y).value, status);
  }

  lemma ResolvedBodySame(u: Unicode, d1: Doc, d2: Doc, x: Doc, y: Doc)
    requires Paired(d1, d2, x, y)
    ensures CompileResolvedBody(u, x) == CompileResolvedBody(u, y)
  {
    MemberPaired(d1, d2, x, y, "content");
    if Has(x, "content") {
      ContentSame(u, At(x.members, "content"), At(y.members, "content"));
    }
  }

  lemma BodySame(u: Unicode, d1: Doc, d2: Doc, a: Doc, b: Doc)
    requires Paired(d1, d2, a, b)
    ensures CompileBody(u, d1, a) == CompileBody(u, d2, b)
  {
    MemberPaired(d1, d2, a, b, "requestBody");
    if Has(a, "requestBody") {
      var m, n := At(a.members, "requestBody"), At(b.members, "requestBody");
      ResolvedPaired(d1, d2, m, n);
      if Resolve(d1, m).Some? {
        ResolvedBodySame(u, d1, d2, Resolve(d1, m).value, Resolve(d2, n).value);
      }
    }
  }

  ghost predicate OperationCaseDistinct(u: Unicode, document: Doc, operation: Doc) {
    var responses := GetOr(operation, "responses", Null);
    responses.Obj? ==> forall s :: s in Keys(responses.members) ==> ResponseCaseDistinct(u, document, At(responses.members, s))
  }

  lemma StatusNumberInjective(s: string, t: string)
    requires StatusShaped(s) && StatusShaped(t) && StatusNumber(s) == StatusNumber(t)
    ensures s == t
  {
    assert s[0] == t[0] && s[1] == t[1] && s[2] == t[2];
  }

  lemma StatusesShaped(u: Unicode, document: Doc, responses: Doc, s: string)
    requires ResponsesValid(u, document, responses) && s in Names(responses)
    ensures StatusShaped(s)
  {
    assert s in Keys(responses.members);
    assert ResponseValid(u, document, s, At(responses.members, s));
  }

  lemma StatusKeyed(u: Unicode, document: Doc, responses: Doc)
    requires ResponsesValid(u, document, responses)
    ensures Keyed(Names(responses), StatusKey)
  {
    forall s, t | s in Names(responses) && t in Names(responses) && StatusKey(s) == StatusKey(t) ensures s == t {
      StatusesShaped(u, document, responses, s);
      StatusesShaped(u, document, responses, t);
      StatusNumberInjective(s, t);
    }
  }

  lemma EachResponseSame(u: Unicode, d1: Doc, d2: Doc, x: Doc, y: Doc, statuses: seq<string>)
    requires Paired(d1, d2, x, y) && ResponsesValid(u, d1, x)
    requires forall s :: s in Keys(x.members) ==> ResponseCaseDistinct(u, d1, At(x.members, s))
    requires forall i :: 0 <= i < |statuses| ==> statuses[i] in Keys(x.members)
    ensures Traverse((s: string) => CompileResponse(u, d1, x, s), statuses) == Traverse((s: string) => CompileResponse(u, d2, y, s), statuses)
  {
    var f, g := (s: string) => CompileResponse(u, d1, x, s), (s: string) => CompileResponse(u, d2, y, s);
    forall i | 0 <= i < |statuses| ensures f(statuses[i]) == g(statuses[i]) {
      ResponseSame(u, d1, d2, x, y, statuses[i]);
    }
    TraverseSame(f, g, statuses, statuses);
  }

  lemma SortedInKeys(d: Doc, key: string -> Key)
    requires d.Obj?
    ensures forall i :: 0 <= i < |Sorted(Names(d), key)| ==> Sorted(Names(d), key)[i] in Keys(d.members)
  {
    var names := Sorted(Names(d), key);
    SameElements(Names(d), names);
    forall i | 0 <= i < |names| ensures names[i] in Keys(d.members) { assert names[i] in names; }
  }

  lemma StatusesSame(u: Unicode, d1: Doc, d2: Doc, x: Doc, y: Doc)
    requires Paired(d1, d2, x, y) && x.Obj? && y.Obj? && ResponsesValid(u, d1, x)
    requires forall s :: s in Keys(x.members) ==> ResponseCaseDistinct(u, d1, At(x.members, s))
    ensures CompileStatuses(u, d1, x) == CompileStatuses(u, d2, y)
  {
    StatusKeyed(u, d1, x);
    SortedNamesSame(x, y, StatusKey);
    SortedInKeys(x, StatusKey);
    EachResponseSame(u, d1, d2, x, y, Sorted(Names(x), StatusKey));
  }

  lemma ResponsesSame(u: Unicode, d1: Doc, d2: Doc, a: Doc, b: Doc)
    requires Paired(d1, d2, a, b)
    requires ResponsesValid(u, d1, GetOr(a, "responses", Null)) && OperationCaseDistinct(u, d1, a)
    ensures CompileAllResponses(u, d1, a) == CompileAllResponses(u, d2, b)
  {
    GetOrSame(a, b, "responses", Null);
    var x, y := GetOr(a, "responses", Null), GetOr(b, "responses", Null);
    SameObjects(x, y);
    StatusesSame(u, d1, d2, x, y);
  }

  // ----- security -----

  lemma {:induction false} AddNamesIs(found: seq<string>, names: seq<string>)
    requires NoRepeats(found)
    ensures NoRepeats(AddNames(found, names))
    ensures forall s :: s in AddNames(found, names) <==> s in found || s in names
    decreases |names|
  {
    if names != [] {
      AddNamesIs(if names[0] in found then found else found + [names[0]], names[1..]);
    }
  }

  lemma {:induction false} CollectedSame(xs: seq<Doc>, ys: seq<Doc>)
    requires |xs| == |ys|
    requires forall i :: 0 <= i < |xs| ==> WellFormed(xs[i]) && WellFormed(ys[i]) && Same(xs[i], ys[i])
    ensures CollectNames(xs).Some? <==> CollectNames(ys).Some?
    ensures CollectNames(xs).Some? ==>
      && NoRepeats(CollectNames(xs).value) && NoRepeats(CollectNames(ys).value)
      && forall s :: s in CollectNames(xs).value <==> s in CollectNames(ys).value
    decreases |xs|
  {
    if xs != [] {
      var n := |xs| - 1;
      CollectedSame(xs[..n], ys[..n]);
      SameScalarOrShape(xs[n], ys[n]);
      if CollectNames(xs[..n]).Some? && xs[n].Obj? {
        AddNamesIs(CollectNames(xs[..n]).value, Names(xs[n]));
        AddNamesIs(CollectNames(ys[..n]).value, Names(ys[n]));
        NamesShuffled(xs[n], ys[n]);
        SameElements(Names(xs[n]), Names(ys[n]));
      }
    }
  }

  lemma SecuritySame(a: Doc, b: Doc)
    requires WellFormed(a) && WellFormed(b) && Same(a, b)
    ensures SecurityNames(a) == SecurityNames(b)
  {
    SameScalarOrShape(a, b);
    if a.Arr? {
      SameItems(a, b);
      CollectedSame(a.items, b.items);
      if CollectNames(a.items).Some? {
        var x, y := CollectNames(a.items).value, CollectNames(b.items).value;
        SameListing(x, y);
        SortedForgetsOrder(x, y, TextKey);
      }
    }
  }

  lemma SecurityOfSame(d1: Doc, d2: Doc, a: Doc, b: Doc)
    requires Paired(d1, d2, a, b)
    ensures SecurityNames(SecurityOf(d1, a)) == SecurityNames(SecurityOf(d2, b))
  {
    GetOrSame(d1, d2, "security", Arr([]));
    SameMember(a, b, "security");
    if Has(a, "security") {
      WellFormedAt(a, "security");
      WellFormedAt(b, "security");
    }
    SecuritySame(SecurityOf(d1, a), SecurityOf(d2, b));
  }

  // ----- operations -----

  lemma AllParametersPaired(d1: Doc, d2: Doc, i1: Doc, i2: Doc, o1: Doc, o2: Doc)
    requires Paired(d1, d2, i1, i2) && Paired(d1, d2, o1, o2)
    requires ParametersOf(i1).Arr? && ParametersOf(o1).Arr?
    ensures ParametersOf(i2).Arr? && ParametersOf(o2).Arr?
    ensures |AllParameters(i1, o1)| == |AllParameters(i2, o2)|
    ensures forall i :: 0 <= i < |AllParameters(i1, o1)| ==>
      Paired(d1, d2, AllParameters(i1, o1)[i], AllParameters(i2, o2)[i])
  {
    GetOrSame(i1, i2, "parameters", Arr([]));
    GetOrSame(o1, o2, "parameters", Arr([]));
    SameItems(ParametersOf(i1), ParametersOf(i2));
    SameItems(ParametersOf(o1), ParametersOf(o2));
  }

  lemma SortedParametersSame(d1: Doc, d2: Doc, xs: seq<Doc>, ys: seq<Doc>)
    requires |xs| == |ys| && forall i :: 0 <= i < |xs| ==> Paired(d1, d2, xs[i], ys[i]) && ParameterValid(d1, xs[i])
    ensures CompileParameters(d1, xs).Some? && CompileParameters(d2, ys).Some?
    ensures SameParameters(Sorted(CompileParameters(d1, xs).value, ParameterKey), Sorted(CompileParameters(d2, ys).value, ParameterKey))
  {
    ParametersSame(d1, d2, xs, ys);
    SortedSame(CompileParameters(d1, xs).value, CompileParameters(d2, ys).value);
  }

  lemma AllCompiled(document: Doc, pathItem: Doc, operation: Doc)
    requires ParametersOf(pathItem).Arr? && ParametersOf(operation).Arr?
    requires CompileParameters(document, AllParameters(pathItem, operation)).Some?
    ensures CompileAllParameters(document, pathItem, operation) ==
      J.Some(Sorted(CompileParameters(document, AllParameters(pathItem, operation)).value, ParameterKey))
  {
  }

  lemma AllParametersSame(d1: Doc, d2: Doc, i1: Doc, i2: Doc, o1: Doc, o2: Doc)
    requires Paired(d1, d2, i1, i2) && Paired(d1, d2, o1, o2)
    requires ParametersOf(i1).Arr? && ParametersOf(o1).Arr?
    requires forall i :: 0 <= i < |AllParameters(i1, o1)| ==> ParameterValid(d1, AllParameters(i1, o1)[i])
    ensures CompileAllParameters(d1, i1, o1).Some? && CompileAllParameters(d2, i2, o2).Some?
    ensures SameParameters(CompileAllParameters(d1, i1, o1).value, CompileAllParameters(d2, i2, o2).value)
  {
    AllParametersPaired(d1, d2, i1, i2, o1, o2);
    SortedParametersSame(d1, d2, AllParameters(i1, o1), AllParameters(i2, o2));
    AllCompiled(d1, i1, o1);
    AllCompiled(d2, i2, o2);
  }

  lemma EntryAlike(u: Unicode, d1: Doc, d2: Doc, e1: Entry, e2: Entry)
    requires e1.id == e2.id && e1.verb == e2.verb && e1.path == e2.path
    requires CompileAllParameters(d1, e1.pathItem, e1.operation).Some? && CompileAllParameters(d2, e2.pathItem, e2.operation).Some?
    requires SameParameters(CompileAllParameters(d1, e1.pathItem, e1.operation).value, CompileAllParameters(d2, e2.pathItem, e2.operation).value)
    requires CompileBody(u, d1, e1.operation) == CompileBody(u, d2, e2.operation)
    requires CompileAllResponses(u, d1, e1.operation) == CompileAllResponses(u, d2, e2.operation)
    requires SecurityNames(SecurityOf(d1, e1.operation)) == SecurityNames(SecurityOf(d2, e2.operation))
    ensures CompileEntry(u, d1, e1).Some? <==> CompileEntry(u, d2, e2).Some?
    ensures CompileEntry(u, d1, e1).Some? ==> SameOperation(CompileEntry(u, d1, e1).value, CompileEntry(u, d2, e2).value)
  {
  }

  /** The part of an operation's validity that compilation relies on. */
  ghost predicate EntryParts(u: Unicode, document: Doc, e: Entry) {
    && ParametersOf(e.pathItem).Arr? && ParametersOf(e.operation).Arr?
    && (forall i :: 0 <= i < |AllParameters(e.pathItem, e.operation)| ==> ParameterValid(document, AllParameters(e.pathItem, e.operation)[i]))
    && ResponsesValid(u, document, GetOr(e.operation, "responses", Null))
  }

  lemma EntrySame(u: Unicode, d1: Doc, d2: Doc, e1: Entry, e2: Entry)
    requires e1.id == e2.id && e1.verb == e2.verb && e1.path == e2.path
    requires Paired(d1, d2, e1.operation, e2.operation) && Paired(d1, d2, e1.pathItem, e2.pathItem)
    requires EntryParts(u, d1, e1) && OperationCaseDistinct(u, d1, e1.operation)
    ensures CompileEntry(u, d1, e1).Some? <==> CompileEntry(u, d2, e2).Some?
    ensures CompileEntry(u, d1, e1).Some? ==> SameOperation(CompileEntry(u, d1, e1).value, CompileEntry(u, d2, e2).value)
  {
    AllParametersSame(d1, d2, e1.pathItem, e2.pathItem, e1.operation, e2.operation);
    BodySame(u, d1, d2, e1.operation, e2.operation);
    ResponsesSame(u, d1, d2, e1.operation, e2.operation);
    SecurityOfSame(d1, d2, e1.operation, e2.operation);
    EntryAlike(u, d1, d2, e1, e2);
  }

  // ----- indexes of two documents -----

  lemma OperationsSame(d1: Doc, d2: Doc, p1: Doc, p2: Doc, path: string, verb: string)
    requires Paired(d1, d2, p1, p2) && IsOperation(p1, path, verb)
    ensures IsOperation(p2, path, verb) && IdAt(p1, path, verb).Str? ==> IdAt(p2, path, verb) == IdAt(p1, path, verb)
    ensures IsOperation(p2, path, verb)
    ensures Paired(d1, d2, At(p1.members, path), At(p2.members, path))
    ensures Paired(d1, d2, OperationAt(p1, path, verb), OperationAt(p2, path, verb))
  {
    MemberPaired(d1, d2, p1, p2, path);
    MemberPaired(d1, d2, At(p1.members, path), At(p2.members, path), verb);
    ScalarSame(OperationAt(p1, path, verb), OperationAt(p2, path, verb), "operationId", Null);
  }

  lemma PairedSymmetric(d1: Doc, d2: Doc, a: Doc, b: Doc)
    requires Paired(d1, d2, a, b)
    ensures Paired(d2, d1, b, a)
  {
  }

  /** Every entry of one index has its counterpart, of the same identifier, in the other. */
  lemma Counterpart(d1: Doc, d2: Doc, p1: Doc, p2: Doc, x1: seq<Entry>, x2: seq<Entry>, e1: Entry) returns (e2: Entry)
    requires Paired(d1, d2, p1, p2) && IsIndex(p1, x1) && IsIndex(p2, x2) && e1 in x1
    ensures e2 in x2 && e1.id == e2.id && e1.verb == e2.verb && e1.path == e2.path
    ensures Paired(d1, d2, e1.operation, e2.operation) && Paired(d1, d2, e1.pathItem, e2.pathItem)
  {
    var v :| Indexed(p1, x1, e1.path, v) && e1 == EntryAt(p1, e1.path, v);
    OperationsSame(d1, d2, p1, p2, e1.path, v);
    assert Indexed(p2, x2, e1.path, v);
    e2 := EntryAt(p2, e1.path, v);
  }

  lemma IdsAmong(d1: Doc, d2: Doc, p1: Doc, p2: Doc, x1: seq<Entry>, x2: seq<Entry>, id: string)
    requires Paired(d1, d2, p1, p2) && IsIndex(p1, x1) && IsIndex(p2, x2) && id in Ids(x1)
    ensures id in Ids(x2)
  {
    var i :| 0 <= i < |x1| && Ids(x1)[i] == id;
    var e2 := Counterpart(d1, d2, p1, p2, x1, x2, x1[i]);
    var j :| 0 <= j < |x2| && x2[j] == e2;
    assert Ids(x2)[j] == id;
  }

  lemma IdsSame(d1: Doc, d2: Doc, p1: Doc, p2: Doc, x1: seq<Entry>, x2: seq<Entry>)
    requires Paired(d1, d2, p1, p2) && IsIndex(p1, x1) && IsIndex(p2, x2)
    ensures Sorted(Ids(x1), TextKey) == Sorted(Ids(x2), TextKey)
  {
    PairedSymmetric(d1, d2, p1, p2);
    forall id ensures id in Ids(x1) <==> id in Ids(x2) {
      if id in Ids(x1) { IdsAmong(d1, d2, p1, p2, x1, x2, id); }
      if id in Ids(x2) { IdsAmong(d2, d1, p2, p1, x2, x1, id); }
    }
    assert NoRepeats(Ids(x1)) && NoRepeats(Ids(x2));
    SameListing(Ids(x1), Ids(x2));
    SortedForgetsOrder(Ids(x1), Ids(x2), TextKey);
  }

  lemma {:induction false} FoundById(index: seq<Entry>, e: Entry)
    requires e in index && forall i, j :: 0 <= i < j < |index| ==> index[i].id != index[j].id
    ensures Find(index, e.id) == J.Some(e)
  {
    if index[0] != e {
      assert e in index[1..];
      FoundById(index[1..], e);
    }
  }

  ghost predicate AllCaseDistinct(u: Unicode, document: Doc, index: seq<Entry>) {
    forall e :: e in index ==> OperationCaseDistinct(u, document, e.operation)
  }

  lemma IdSame(u: Unicode, d1: Doc, d2: Doc, x1: seq<Entry>, x2: seq<Entry>, id: string)
    requires WellFormed(d1) && WellFormed(d2) && Same(d1, d2)
    requires Paired(d1, d2, GetOr(d1, "paths", Null), GetOr(d2, "paths", Null))
    requires IsIndex(GetOr(d1, "paths", Null), x1) && IsIndex(GetOr(d2, "paths", Null), x2)
    requires AllCaseDistinct(u, d1, x1) && id in Ids(x1)
    requires forall e :: e in x1 ==> EntryParts(u, d1, e)
    ensures CompileId(u, d1, x1, id).Some? <==> CompileId(u, d2, x2, id).Some?
    ensures CompileId(u, d1, x1, id).Some? ==> SameOperation(CompileId(u, d1, x1, id).value, CompileId(u, d2, x2, id).value)
  {
    var p1, p2 := GetOr(d1, "paths", Null), GetOr(d2, "paths", Null);
    var i :| 0 <= i < |x1| && Ids(x1)[i] == id;
    var e1 := x1[i];
    var e2 := Counterpart(d1, d2, p1, p2, x1, x2, e1);
    FoundById(x1, e1);
    FoundById(x2, e2);
    assert EntryParts(u, d1, e1) && OperationCaseDistinct(u, d1, e1.operation);
    EntrySame(u, d1, d2, e1, e2);
  }

  lemma ValidEntry(u: Unicode, document: Doc, paths: Doc, index: seq<Entry>, e: Entry)
    requires PathsValid(u, document, paths) && IsIndex(paths, index) && e in index
    ensures EntryParts(u, document, e)
  {
    var v :| Indexed(paths, index, e.path, v) && e == EntryAt(paths, e.path, v);
    assert PathValid(u, document, e.path, At(paths.members, e.path));
  }

  /** Two accepted documents that differ only in the member order of their objects compile
      alike, and render to the same text, provided no response has two header names equal
      ignoring case. */
  lemma Canonical(u: Unicode, d1: Doc, d2: Doc, x1: seq<Entry>, x2: seq<Entry>)
    requires WellFormed(d1) && WellFormed(d2) && Same(d1, d2)
    requires DocumentValid(u, d1)
    requires IsIndex(GetOr(d1, "paths", Null), x1) && IsIndex(GetOr(d2, "paths", Null), x2)
    requires AllCaseDistinct(u, d1, x1)
    ensures Compile(u, d1, x1).Some? <==> Compile(u, d2, x2).Some?
    ensures Compile(u, d1, x1).Some? ==> SameOperations(Compile(u, d1, x1).value, Compile(u, d2, x2).value)
    ensures Compile(u, d1, x1).Some? ==> Render(Compile(u, d1, x1).value) == Render(Compile(u, d2, x2).value)
  {
    GetOrSame(d1, d2, "paths", Null);
    var p1, p2 := GetOr(d1, "paths", Null), GetOr(d2, "paths", Null);
    IdsSame(d1, d2, p1, p2, x1, x2);
    forall e | e in x1 ensures EntryParts(u, d1, e) { ValidEntry(u, d1, p1, x1, e); }
    var ids := Sorted(Ids(x1), TextKey);
    var f, g := (id: string) => CompileId(u, d1, x1, id), (id: string) => CompileId(u, d2, x2, id);
    SameElements(Ids(x1), ids);
    forall i | 0 <= i < |ids|
      ensures f(ids[i]).Some? <==> g(ids[i]).Some?
      ensures f(ids[i]).Some? ==> SameOperation(f(ids[i]).value, g(ids[i]).value)
    {
      assert ids[i] in ids;
      IdSame(u, d1, d2, x1, x2, ids[i]);
    }
    TraverseAlike(f, g, ids);
    if Compile(u, d1, x1).Some? {
      RenderSame(Compile(u, d1, x1).value, Compile(u, d2, x2).value);
    }
  }

  lemma TraverseAlike(f: string -> J.Option<OperationIr>, g: string -> J.Option<OperationIr>, ids: seq<string>)
    requires forall i :: 0 <= i < |ids| ==> (f(ids[i]).Some? <==> g(ids[i]).Some?)
    requires forall i :: 0 <= i < |ids| ==> f(ids[i]).Some? ==> SameOperation(f(ids[i]).value, g(ids[i]).value)
    ensures Traverse(f, ids).Some? <==> Traverse(g, ids).Some?
    ensures Traverse(f, ids).Some? ==> SameOperations(Traverse(f, ids).value, Traverse(g, ids).value)
  {
    TraverseAt(f, ids);
    TraverseAt(g, ids);
    if Traverse(f, ids).Some? {
      var a, b := Traverse(f, ids).value, Traverse(g, ids).value;
      forall i | 0 <= i < |a| ensures SameOperation(a[i], b[i]) {
        assert f(ids[i]) == J.Some(a[i]) && g(ids[i]) == J.Some(b[i]);
      }
    }
  }
}
