/** The compiled operations say what the document says: every name, flag, schema, media type,
    header, status and security scheme is the declared one, and nothing is left out. */
module FrontendFaithful {
  import J = Json
  import opened Sorting
  import opened OrderedJson
  import opened FrontendDocument
  import opened FrontendValidator
  import opened FrontendCompiler
  import opened FrontendTotality
  import opened FrontendOrder

  /** The declared value of a key, or what its absence stands for. */
  predicate Declares(d: Doc, key: string, absent: Doc, value: Doc) {
    if Has(d, key) then At(d.members, key) == value else absent == value
  }

  /** The compiled schema has the value of the declared one. */
  ghost predicate SchemaFrom(d: Doc, schema: Doc) {
    Has(d, "schema") && Same(schema, At(d.members, "schema"))
  }

  lemma SchemaFaithful(d: Doc)
    requires WellFormed(d) && Has(d, "schema")
    ensures SchemaFrom(d, SortKeys(At(d.members, "schema")))
  {
    WellFormedAt(d, "schema");
    SortKeysKeepsValue(At(d.members, "schema"));
  }

  // ----- parameters -----

  ghost predicate ParameterFrom(document: Doc, raw: Doc, p: ParameterIr) {
    && Resolve(document, raw).Some?
    && var r := Resolve(document, raw).value;
    && Get(r, "name") == J.Some(Str(p.name)) && Get(r, "in") == J.Some(Str(p.location))
    && Declares(r, "required", Bool(false), p.required)
    && Declares(r, "style", Str(if p.location == "query" then "form" else "simple"), p.style)
    && Declares(r, "explode", Bool(p.location == "query"), p.explode)
    && SchemaFrom(r, p.schema)
  }

  lemma ParameterFaithful(document: Doc, raw: Doc, p: ParameterIr)
    requires WellFormed(document) && WellFormed(raw) && CompileParameter(document, raw) == J.Some(p)
    ensures ParameterFrom(document, raw, p)
  {
    ResolveWellFormed(document, raw);
    SchemaFaithful(Resolve(document, raw).value);
  }

  /** One compiled parameter for each declared one, in the order of declaration. */
  ghost predicate ParametersListed(document: Doc, raws: seq<Doc>, listed: seq<ParameterIr>) {
    |listed| == |raws| && forall i :: 0 <= i < |raws| ==> ParameterFrom(document, raws[i], listed[i])
  }

  /** The compiled parameters are exactly the declared ones, rearranged. */
  ghost predicate ParametersFrom(document: Doc, raws: seq<Doc>, ps: seq<ParameterIr>) {
    exists listed :: ParametersListed(document, raws, listed) && multiset(listed) == multiset(ps)
  }

  lemma ParametersFaithful(document: Doc, pathItem: Doc, operation: Doc, ps: seq<ParameterIr>)
    requires WellFormed(document) && CompileAllParameters(document, pathItem, operation) == J.Some(ps)
    requires forall raw :: raw in AllParameters(pathItem, operation) ==> WellFormed(raw)
    ensures ParametersFrom(document, AllParameters(pathItem, operation), ps)
  {
    var raws := AllParameters(pathItem, operation);
    var listed := CompileParameters(document, raws).value;
    var f := (raw: Doc) => CompileParameter(document, raw);
    TraverseAt(f, raws);
    forall i | 0 <= i < |raws| ensures ParameterFrom(document, raws[i], listed[i]) {
      assert f(raws[i]) == J.Some(listed[i]) && raws[i] in raws;
      ParameterFaithful(document, raws[i], listed[i]);
    }
    assert ParametersListed(document, raws, listed);
  }

  lemma ItemsWellFormed(owner: Doc)
    requires WellFormed(owner) && ParametersOf(owner).Arr?
    ensures forall raw :: raw in ParametersOf(owner).items ==> WellFormed(raw)
  {
    if Has(owner, "parameters") {
      WellFormedAt(owner, "parameters");
    }
  }

  /** What `required_request_headers` looks for, at any location. */
  ghost predicate RequiresParameter(document: Doc, raw: Doc, location: string, name: string) {
    && Resolve(document, raw).Some?
    && Get(Resolve(document, raw).value, "in") == J.Some(Str(location))
    && Get(Resolve(document, raw).value, "name") == J.Some(Str(name))
    && Get(Resolve(document, raw).value, "required") == J.Some(Bool(true))
  }

  predicate CompiledRequired(p: ParameterIr, location: string, name: string) {
    p.location == location && p.name == name && p.required == Bool(true)
  }

  lemma RequiredTogether(document: Doc, raw: Doc, p: ParameterIr, location: string, name: string)
    requires ParameterFrom(document, raw, p)
    ensures CompiledRequired(p, location, name) <==> RequiresParameter(document, raw, location, name)
  {
    var r := Resolve(document, raw).value;
    assert Get(r, "required") == J.Some(Bool(true)) <==> p.required == Bool(true);
  }

  ghost predicate SomeCompiled(ps: seq<ParameterIr>, location: string, name: string) {
    exists p :: p in ps && CompiledRequired(p, location, name)
  }

  ghost predicate SomeDeclared(document: Doc, raws: seq<Doc>, location: string, name: string) {
    exists raw :: raw in raws && RequiresParameter(document, raw, location, name)
  }

  /** The parameters compiled as required are exactly those declared as required. */
  lemma RequiredExactly(document: Doc, raws: seq<Doc>, ps: seq<ParameterIr>, location: string, name: string)
    requires ParametersFrom(document, raws, ps)
    ensures SomeCompiled(ps, location, name) <==> SomeDeclared(document, raws, location, name)
  {
    var listed :| ParametersListed(document, raws, listed) && multiset(listed) == multiset(ps);
    SameElements(listed, ps);
    if SomeCompiled(ps, location, name) {
      var p :| p in ps && CompiledRequired(p, location, name);
      assert p in listed;
      var i :| 0 <= i < |listed| && listed[i] == p;
      RequiredTogether(document, raws[i], p, location, name);
    }
    if SomeDeclared(document, raws, location, name) {
      var raw :| raw in raws && RequiresParameter(document, raw, location, name);
      var i :| 0 <= i < |raws| && raws[i] == raw;
      RequiredTogether(document, raw, listed[i], location, name);
      assert listed[i] in listed && listed[i] in ps;
    }
  }

  // ----- contents -----

  ghost predicate MediaFrom(u: Unicode, content: Doc, text: string, c: ContentIr) {
    && Has(content, text)
    && c.mediaType == u.lower(u.strip(UpTo(text, ';')))
    && SchemaFrom(At(content.members, text), c.schema)
  }

  /** The names of an object, each once, in ascending order of their keys. */
  ghost predicate Lists(names: seq<string>, d: Doc, key: string -> Key)
    requires d.Obj?
  {
    && |names| == |d.members|
    && (forall s :: s in names <==> s in Keys(d.members))
    && Ascending(names, key)
  }

  lemma SortedLists(d: Doc, key: string -> Key)
    requires d.Obj?
    ensures Lists(Sorted(Names(d), key), d, key)
  {
    SortedNames(d, key);
    SortedAscending(Names(d), key);
  }

  ghost predicate ContentFrom(u: Unicode, content: Doc, cs: seq<ContentIr>) {
    && content.Obj?
    && exists texts :: Lists(texts, content, TextKey) && MediaListed(u, content, texts, cs)
  }

  ghost predicate MediaListed(u: Unicode, content: Doc, texts: seq<string>, cs: seq<ContentIr>) {
    |cs| == |texts| && forall i :: 0 <= i < |cs| ==> MediaFrom(u, content, texts[i], cs[i])
  }

  lemma MediaFaithful(u: Unicode, content: Doc, text: string, c: ContentIr)
    requires WellFormed(content) && CompileMedia(u, content, text) == J.Some(c)
    ensures MediaFrom(u, content, text, c)
  {
    WellFormedAt(content, text);
    SchemaFaithful(At(content.members, text));
  }

  lemma ContentFaithful(u: Unicode, content: Doc, cs: seq<ContentIr>)
    requires WellFormed(content) && CompileContent(u, content) == J.Some(cs)
    ensures ContentFrom(u, content, cs)
  {
    var texts := Sorted(Names(content), TextKey);
    var f := (t: string) => CompileMedia(u, content, t);
    SortedLists(content, TextKey);
    TraverseAt(f, texts);
    forall i | 0 <= i < |cs| ensures MediaFrom(u, content, texts[i], cs[i]) {
      assert f(texts[i]) == J.Some(cs[i]);
      MediaFaithful(u, content, texts[i], cs[i]);
    }
    assert MediaListed(u, content, texts, cs);
  }

  // ----- headers -----

  ghost predicate HeaderFrom(document: Doc, headers: Doc, name: string, h: HeaderIr) {
    && h.name == name && Has(headers, name)
    && Resolve(document, At(headers.members, name)).Some?
    && var r := Resolve(document, At(headers.members, name)).value;
    && Declares(r, "style", Str("simple"), h.style)
    && Declares(r, "explode", Bool(false), h.explode)
    && SchemaFrom(r, h.schema)
  }

  ghost predicate HeadersListed(document: Doc, headers: Doc, names: seq<string>, hs: seq<HeaderIr>) {
    |hs| == |names| && forall i :: 0 <= i < |hs| ==> HeaderFrom(document, headers, names[i], hs[i])
  }

  ghost predicate HeadersFrom(u: Unicode, document: Doc, headers: Doc, hs: seq<HeaderIr>) {
    && headers.Obj?
    && exists names :: Lists(names, headers, HeaderKey(u)) && HeadersListed(document, headers, names, hs)
  }

  lemma HeaderFaithful(document: Doc, headers: Doc, name: string, h: HeaderIr)
    requires WellFormed(document) && WellFormed(headers) && CompileHeader(document, headers, name) == J.Some(h)
    ensures HeaderFrom(document, headers, name, h)
  {
    WellFormedAt(headers, name);
    ResolveWellFormed(document, At(headers.members, name));
    SchemaFaithful(Resolve(document, At(headers.members, name)).value);
  }

  lemma HeadersFaithful(u: Unicode, document: Doc, headers: Doc, hs: seq<HeaderIr>)
    requires WellFormed(document) && WellFormed(headers) && headers.Obj? && CompileHeaders(u, document, headers) == J.Some(hs)
    ensures HeadersFrom(u, document, headers, hs)
  {
    var names := Sorted(Names(headers), HeaderKey(u));
    var f := (name: string) => CompileHeader(document, headers, name);
    SortedLists(headers, HeaderKey(u));
    TraverseAt(f, names);
    forall i | 0 <= i < |hs| ensures HeaderFrom(document, headers, names[i], hs[i]) {
      assert f(names[i]) == J.Some(hs[i]);
      HeaderFaithful(document, headers, names[i], hs[i]);
    }
    assert HeadersListed(document, headers, names, hs);
  }

  // ----- responses and bodies -----

  ghost predicate ResponseFrom(u: Unicode, document: Doc, responses: Doc, status: string, r: ResponseIr) {
    && r.status == status && Has(responses, status)
    && Resolve(document, At(responses.members, status)).Some?
    && var t := Resolve(document, At(responses.members, status)).value;
    && (if Has(t, "headers") then HeadersFrom(u, document, At(t.members, "headers"), r.headers) else r.headers == [])
    && (if Has(t, "content") then ContentFrom(u, At(t.members, "content"), r.content) else r.content == [])
  }

  lemma NoHeaders(u: Unicode, document: Doc)
    ensures CompileHeaders(u, document, Obj([])) == J.Some([])
  {
    assert Names(Obj([])) == [];
  }

  lemma ResolvedFaithful(u: Unicode, document: Doc, status: string, t: Doc, r: ResponseIr)
    requires WellFormed(document) && WellFormed(t) && CompileResolvedResponse(u, document, status, t) == J.Some(r)
    ensures r.status == status
    ensures if Has(t, "headers") then HeadersFrom(u, document, At(t.members, "headers"), r.headers) else r.headers == []
    ensures if Has(t, "content") then ContentFrom(u, At(t.members, "content"), r.content) else r.content == []
  {
    NoHeaders(u, document);
    if Has(t, "headers") {
      WellFormedAt(t, "headers");
      HeadersFaithful(u, document, At(t.members, "headers"), r.headers);
    }
    if Has(t, "content") {
      WellFormedAt(t, "content");
      ContentFaithful(u, At(t.members, "content"), r.content);
    }
  }

  lemma ResponseFaithful(u: Unicode, document: Doc, responses: Doc, status: string, r: ResponseIr)
    requires WellFormed(document) && WellFormed(responses) && CompileResponse(u, document, responses, status) == J.Some(r)
    ensures ResponseFrom(u, document, responses, status, r)
  {
    WellFormedAt(responses, status);
    ResolveWellFormed(document, At(responses.members, status));
    ResolvedFaithful(u, document, status, Resolve(document, At(responses.members, status)).value, r);
  }

  ghost predicate ResponsesListed(u: Unicode, document: Doc, responses: Doc, statuses: seq<string>, rs: seq<ResponseIr>) {
    |rs| == |statuses| && forall i :: 0 <= i < |rs| ==> ResponseFrom(u, document, responses, statuses[i], rs[i])
  }

  ghost predicate ResponsesFrom(u: Unicode, document: Doc, operation: Doc, rs: seq<ResponseIr>) {
    && Has(operation, "responses") && At(operation.members, "responses").Obj?
    && var responses := At(operation.members, "responses");
    exists statuses :: Lists(statuses, responses, StatusKey) && ResponsesListed(u, document, responses, statuses, rs)
  }

  lemma ResponsesFaithful(u: Unicode, document: Doc, operation: Doc, rs: seq<ResponseIr>)
    requires WellFormed(document) && WellFormed(operation) && CompileAllResponses(u, document, operation) == J.Some(rs)
    ensures ResponsesFrom(u, document, operation, rs)
  {
    var responses := GetOr(operation, "responses", Null);
    WellFormedAt(operation, "responses");
    var statuses := Sorted(Names(responses), StatusKey);
    var f := (s: string) => CompileResponse(u, document, responses, s);
    SortedLists(responses, StatusKey);
    TraverseAt(f, statuses);
    forall i | 0 <= i < |rs| ensures ResponseFrom(u, document, responses, statuses[i], rs[i]) {
      assert f(statuses[i]) == J.Some(rs[i]);
      ResponseFaithful(u, document, responses, statuses[i], rs[i]);
    }
    assert ResponsesListed(u, document, responses, statuses, rs);
  }

  ghost predicate BodyFrom(u: Unicode, document: Doc, operation: Doc, body: J.Option<seq<ContentIr>>) {
    match body
    case None => !Has(operation, "requestBody")
    case Some(cs) =>
      && Has(operation, "requestBody") && Resolve(document, At(operation.members, "requestBody")).Some?
      && var r := Resolve(document, At(operation.members, "requestBody")).value;
      Has(r, "content") && ContentFrom(u, At(r.members, "content"), cs)
  }

  lemma BodyFaithful(u: Unicode, document: Doc, operation: Doc, body: J.Option<seq<ContentIr>>)
    requires WellFormed(document) && WellFormed(operation) && CompileBody(u, document, operation) == J.Some(body)
    ensures BodyFrom(u, document, operation, body)
  {
    if Has(operation, "requestBody") {
      WellFormedAt(operation, "requestBody");
      ResolveWellFormed(document, At(operation.members, "requestBody"));
      var r := Resolve(document, At(operation.members, "requestBody")).value;
      WellFormedAt(r, "content");
      ContentFaithful(u, At(r.members, "content"), body.value);
    }
  }

  // ----- security -----

  /** Some requirement in force names the scheme: the operation's own requirements, if it has
      any, else the document's. */
  ghost predicate Secures(document: Doc, operation: Doc, scheme: string) {
    var security := if Has(operation, "security") then Get(operation, "security") else Get(document, "security");
    && security.Some? && security.value.Arr?
    && exists requirement :: requirement in security.value.items && Has(requirement, scheme)
  }

  lemma {:induction false} AddedNames(found: seq<string>, names: seq<string>)
    ensures NoRepeats(found) ==> NoRepeats(AddNames(found, names))
    ensures forall s :: s in AddNames(found, names) <==> s in found || s in names
    decreases |names|
  {
    if names != [] {
      AddedNames(if names[0] in found then found else found + [names[0]], names[1..]);
    }
  }

  lemma {:induction false} CollectedNames(requirements: seq<Doc>)
    requires CollectNames(requirements).Some?
    ensures NoRepeats(CollectNames(requirements).value)
    ensures forall s :: s in CollectNames(requirements).value <==> exists r :: r in requirements && Has(r, s)
    decreases |requirements|
  {
    if requirements != [] {
      var front, last := requirements[..|requirements| - 1], requirements[|requirements| - 1];
      CollectedNames(front);
      AddedNames(CollectNames(front).value, Names(last));
      NamesKeys(last);
      forall s ensures s in CollectNames(requirements).value <==> exists r :: r in requirements && Has(r, s) {
        if r :| r in requirements && Has(r, s) {
          if r != last { assert r in front; }
        }
        if s in CollectNames(front).value {
          var r :| r in front && Has(r, s);
          assert r in requirements;
        } else if s in Names(last) {
          assert last in requirements && Has(last, s);
        }
      }
    }
  }

  lemma SecurityFaithful(document: Doc, operation: Doc, names: seq<string>)
    requires SecurityNames(SecurityOf(document, operation)) == J.Some(names)
    ensures Ascending(names, TextKey) && NoRepeats(names)
    ensures forall s :: s in names <==> Secures(document, operation, s)
  {
    var security := SecurityOf(document, operation);
    if security.Arr? {
      var found := CollectNames(security.items).value;
      CollectedNames(security.items);
      SortedAscending(found, TextKey);
      SameElements(found, names);
      SortedNoRepeats(found, names);
    }
  }

  lemma SortedNoRepeats(a: seq<string>, b: seq<string>)
    requires NoRepeats(a) && multiset(a) == multiset(b)
    ensures NoRepeats(b)
  {
    forall i, j | 0 <= i < j < |b| ensures b[i] != b[j] {
      CountedOnce(a, b[i]);
      if b[i] == b[j] {
        TwiceCounted(b, i, j);
      }
    }
  }

  lemma TwiceCounted(b: seq<string>, i: nat, j: nat)
    requires i < j < |b| && b[i] == b[j]
    ensures multiset(b)[b[i]] >= 2
  {
    assert b == b[..i] + [b[i]] + b[i + 1..j] + [b[j]] + b[j + 1..];
  }

  // ----- operations -----

  ghost predicate OperationFrom(u: Unicode, document: Doc, e: Entry, op: OperationIr)
  {
    && op.operationId == e.id && op.verb == e.verb && op.path == e.path
    && ParametersOf(e.pathItem).Arr? && ParametersOf(e.operation).Arr?
    && ParametersFrom(document, AllParameters(e.pathItem, e.operation), op.parameters)
    && BodyFrom(u, document, e.operation, op.requestBody)
    && ResponsesFrom(u, document, e.operation, op.responses)
    && Ascending(op.security, TextKey) && NoRepeats(op.security)
    && forall s :: s in op.security <==> Secures(document, e.operation, s)
  }

  lemma EntryFaithful(u: Unicode, document: Doc, e: Entry, op: OperationIr)
    requires WellFormed(document) && WellFormed(e.operation) && WellFormed(e.pathItem)
    requires CompileEntry(u, document, e) == J.Some(op)
    ensures OperationFrom(u, document, e, op)
  {
    ItemsWellFormed(e.pathItem);
    ItemsWellFormed(e.operation);
    ParametersFaithful(document, e.pathItem, e.operation, op.parameters);
    BodyFaithful(u, document, e.operation, op.requestBody);
    ResponsesFaithful(u, document, e.operation, op.responses);
    SecurityFaithful(document, e.operation, op.security);
  }

  lemma EntryParsed(paths: Doc, index: seq<Entry>, e: Entry)
    requires WellFormed(paths) && IsIndex(paths, index) && e in index
    ensures WellFormed(e.operation) && WellFormed(e.pathItem)
  {
    EntryWellFormed(paths, index, e);
    var v :| Indexed(paths, index, e.path, v) && e == EntryAt(paths, e.path, v);
    WellFormedAt(paths, e.path);
  }

  /** Every indexed operation of a document is compiled, and its compiled form says what the
      document declares of it. */
  lemma CompiledFaithful(u: Unicode, document: Doc, index: seq<Entry>, ops: seq<OperationIr>)
    requires WellFormed(document) && Has(document, "paths") && IsIndex(GetOr(document, "paths", Null), index)
    requires Compile(u, document, index) == J.Some(ops)
    ensures |ops| == |index|
    ensures forall e :: e in index ==> exists op :: op in ops && OperationFrom(u, document, e, op)
  {
    WellFormedAt(document, "paths");
    TraverseAt((id: string) => CompileId(u, document, index, id), Sorted(Ids(index), TextKey));
    forall e | e in index ensures exists op :: op in ops && OperationFrom(u, document, e, op) {
      EntryParsed(At(document.members, "paths"), index, e);
      var i := Compiled(u, document, index, ops, e);
      EntryFaithful(u, document, e, ops[i]);
    }
  }

  /** An operation as it is written in the document. */
  predicate Written(document: Doc, path: string, verb: string) {
    && Has(document, "paths") && Has(At(document.members, "paths"), path)
    && Has(At(At(document.members, "paths").members, path), verb)
    && verb != "parameters" && !("x-" <= verb)
  }

  /** The compiled operation stands for the written one, under the upper-case verb. */
  ghost predicate StandsFor(u: Unicode, document: Doc, path: string, verb: string, op: OperationIr)
    requires Written(document, path, verb)
  {
    var item := At(At(document.members, "paths").members, path);
    var operation := At(item.members, verb);
    && Get(operation, "operationId") == J.Some(Str(op.operationId))
    && op.path == path
    && op.verb == (match verb
                   case "get" => "GET"
                   case "post" => "POST"
                   case "put" => "PUT"
                   case "patch" => "PATCH"
                   case "delete" => "DELETE"
                   case _ => verb)
    && OperationFrom(u, document, Entry(op.operationId, op.verb, path, operation, item), op)
  }

  lemma EntryStands(u: Unicode, document: Doc, path: string, verb: string, e: Entry, op: OperationIr)
    requires Written(document, path, verb) && IsOperation(At(document.members, "paths"), path, verb)
    requires IdAt(At(document.members, "paths"), path, verb).Str? && e == EntryAt(At(document.members, "paths"), path, verb)
    requires OperationFrom(u, document, e, op)
    ensures StandsFor(u, document, path, verb, op)
  {
    var item := At(At(document.members, "paths").members, path);
    assert e == Entry(op.operationId, op.verb, path, At(item.members, verb), item);
  }

  /** Every operation written in a document is compiled. */
  lemma EveryOperationCompiled(u: Unicode, document: Doc, index: seq<Entry>, ops: seq<OperationIr>, path: string, verb: string)
    requires WellFormed(document) && IsIndex(GetOr(document, "paths", Null), index)
    requires Compile(u, document, index) == J.Some(ops) && Written(document, path, verb)
    ensures exists op :: op in ops && StandsFor(u, document, path, verb, op)
  {
    var paths := At(document.members, "paths");
    assert IsOperation(paths, path, verb);
    assert Indexed(paths, index, path, verb);
    var e := EntryAt(paths, path, verb);
    CompiledFaithful(u, document, index, ops);
    var op :| op in ops && OperationFrom(u, document, e, op);
    EntryStands(u, document, path, verb, e, op);
  }

  /** And nothing else is. */
  lemma NothingElseCompiled(u: Unicode, document: Doc, index: seq<Entry>, ops: seq<OperationIr>, op: OperationIr)
    requires WellFormed(document) && Has(document, "paths") && IsIndex(GetOr(document, "paths", Null), index)
    requires Compile(u, document, index) == J.Some(ops) && op in ops
    ensures exists path, verb :: Written(document, path, verb) && StandsFor(u, document, path, verb, op)
  {
    var paths := At(document.members, "paths");
    WellFormedAt(document, "paths");
    var e := CompiledFrom(u, document, index, ops, op);
    EntryParsed(paths, index, e);
    EntryFaithful(u, document, e, op);
    var verb :| Indexed(paths, index, e.path, verb) && e == EntryAt(paths, e.path, verb);
    EntryStands(u, document, e.path, verb, e, op);
  }

  lemma CompiledFrom(u: Unicode, document: Doc, index: seq<Entry>, ops: seq<OperationIr>, op: OperationIr) returns (e: Entry)
    requires Compile(u, document, index) == J.Some(ops) && op in ops
    ensures e in index && CompileEntry(u, document, e) == J.Some(op)
  {
    var ids := Sorted(Ids(index), TextKey);
    var f := (id: string) => CompileId(u, document, index, id);
    TraverseAt(f, ids);
    var i :| 0 <= i < |ops| && ops[i] == op;
    assert f(ids[i]) == J.Some(op);
    e := Find(index, ids[i]).value;
    FoundInIndex(index, ids[i]);
  }

  lemma {:induction false} FoundInIndex(index: seq<Entry>, id: string)
    requires Find(index, id).Some?
    ensures Find(index, id).value in index
  {
    if index[0].id != id {
      FoundInIndex(index[1..], id);
    }
  }

  /** The header names a compiled operation requires are exactly those the document does. */
  lemma RequiredHeadersExactly(u: Unicode, document: Doc, e: Entry, op: OperationIr, name: string)
    requires OperationFrom(u, document, e, op)
    ensures SomeCompiled(op.parameters, "header", name) <==>
      SomeDeclared(document, AllParameters(e.pathItem, e.operation), "header", name)
  {
    RequiredExactly(document, AllParameters(e.pathItem, e.operation), op.parameters, "header", name);
  }
}
