/** The compiler from an API document to its canonical list of operations. */
module FrontendCompiler {
  import J = Json
  import opened Sorting
  import opened OrderedJson
  import opened FrontendDocument
  import opened FrontendValidator

  datatype ParameterIr = ParameterIr(name: string, location: string, required: Doc, style: Doc, explode: Doc, schema: Doc)
  datatype ContentIr = ContentIr(mediaType: string, schema: Doc)
  datatype HeaderIr = HeaderIr(name: string, style: Doc, explode: Doc, schema: Doc)
  datatype ResponseIr = ResponseIr(status: string, headers: seq<HeaderIr>, content: seq<ContentIr>)
  datatype OperationIr = OperationIr(
    operationId: string, verb: string, path: string, security: seq<string>,
    parameters: seq<ParameterIr>, requestBody: J.Option<seq<ContentIr>>, responses: seq<ResponseIr>)

  // In every function below None stands for an undefined lookup in the script.

  function Names(d: Doc): (r: seq<string>)
    requires d.Obj?
    ensures |r| == |d.members|
    ensures forall i :: 0 <= i < |r| ==> r[i] == d.members[i].key
  {
    seq(|d.members|, i requires 0 <= i < |d.members| => d.members[i].key)
  }

  function TextKey(s: string): Key {
    Text(s)
  }

  /** `[f(x) for x in xs]`, undefined as soon as one element is. */
  function Traverse<A, B>(f: A -> J.Option<B>, xs: seq<A>): J.Option<seq<B>> {
    if xs == [] then J.Some([])
    else
      match (Traverse(f, xs[..|xs| - 1]), f(xs[|xs| - 1]))
      case (Some(front), Some(last)) => J.Some(front + [last])
      case _ => J.None
  }

  lemma {:induction false} TraverseAt<A, B>(f: A -> J.Option<B>, xs: seq<A>)
    ensures Traverse(f, xs).Some? <==> forall i :: 0 <= i < |xs| ==> f(xs[i]).Some?
    ensures Traverse(f, xs).Some? ==> |Traverse(f, xs).value| == |xs|
    ensures Traverse(f, xs).Some? ==> forall i :: 0 <= i < |xs| ==> f(xs[i]) == J.Some(Traverse(f, xs).value[i])
  {
    if xs != [] {
      var n := |xs| - 1;
      TraverseAt(f, xs[..n]);
      assert forall i :: 0 <= i < n ==> xs[i] == xs[..n][i];
      if forall i :: 0 <= i < |xs| ==> f(xs[i]).Some? {
        forall i | 0 <= i < n ensures f(xs[..n][i]).Some? { assert xs[i] == xs[..n][i]; }
      }
    }
  }

  lemma {:induction false} TraverseSame<A, B>(f: A -> J.Option<B>, g: A -> J.Option<B>, xs: seq<A>, ys: seq<A>)
    requires |xs| == |ys| && forall i :: 0 <= i < |xs| ==> f(xs[i]) == g(ys[i])
    ensures Traverse(f, xs) == Traverse(g, ys)
  {
    if xs != [] {
      var n := |xs| - 1;
      forall i | 0 <= i < n ensures f(xs[..n][i]) == g(ys[..n][i]) {
        assert xs[..n][i] == xs[i] && ys[..n][i] == ys[i];
      }
      TraverseSame(f, g, xs[..n], ys[..n]);
    }
  }

  lemma {:induction false} TraversePrefix<A, B>(f: A -> J.Option<B>, xs: seq<A>, k: nat)
    requires k <= |xs| && Traverse(f, xs[..k]).None?
    ensures Traverse(f, xs).None?
    decreases |xs|
  {
    if k < |xs| {
      assert xs[..|xs| - 1][..k] == xs[..k];
      TraversePrefix(f, xs[..|xs| - 1], k);
    } else {
      assert xs[..k] == xs;
    }
  }

  lemma TraverseStep<A, B>(f: A -> J.Option<B>, xs: seq<A>, i: nat)
    requires i < |xs| && Traverse(f, xs[..i]).Some?
    ensures f(xs[i]).None? ==> Traverse(f, xs).None?
    ensures f(xs[i]).Some? ==> Traverse(f, xs[..i + 1]) == J.Some(Traverse(f, xs[..i]).value + [f(xs[i]).value])
  {
    assert xs[..i + 1][..i] == xs[..i] && xs[..i + 1][i] == xs[i];
    if f(xs[i]).None? {
      TraversePrefix(f, xs, i + 1);
    }
  }

  // ----- contents -----

  function CompileMedia(u: Unicode, content: Doc, text: string): J.Option<ContentIr> {
    if Has(content, text) && Has(At(content.members, text), "schema") then
      J.Some(ContentIr(MediaType(u, text), SortKeys(At(At(content.members, text).members, "schema"))))
    else J.None
  }

  /** `compile_content_ir`: media types in the order of their original texts. */
  function CompileContent(u: Unicode, content: Doc): J.Option<seq<ContentIr>> {
    if content.Obj? then Traverse((t: string) => CompileMedia(u, content, t), Sorted(Names(content), TextKey)) else J.None
  }

  // ----- parameters -----

  function CompileResolvedParameter(p: Doc): J.Option<ParameterIr> {
    if GetOr(p, "in", Null) !in {Str("path"), Str("header"), Str("query")} then J.None
    else if !GetOr(p, "name", Null).Str? || !Has(p, "schema") then J.None
    else
      var location := GetOr(p, "in", Null).s;
      J.Some(ParameterIr(
        GetOr(p, "name", Null).s, location, GetOr(p, "required", Bool(false)),
        GetOr(p, "style", Str(ExpectedStyle(location))), GetOr(p, "explode", Bool(location == "query")),
        SortKeys(At(p.members, "schema"))))
  }

  function CompileParameter(document: Doc, raw: Doc): J.Option<ParameterIr> {
    match Resolve(document, raw)
    case None => J.None
    case Some(p) => CompileResolvedParameter(p)
  }

  function CompileParameters(document: Doc, raws: seq<Doc>): J.Option<seq<ParameterIr>> {
    Traverse((raw: Doc) => CompileParameter(document, raw), raws)
  }

  function ParameterKey(p: ParameterIr): Key {
    Pair(p.location, p.name)
  }

  // ----- responses -----

  function CompileResolvedHeader(name: string, h: Doc): J.Option<HeaderIr> {
    if !Has(h, "schema") then J.None
    else J.Some(HeaderIr(name, GetOr(h, "style", Str("simple")), GetOr(h, "explode", Bool(false)), SortKeys(At(h.members, "schema"))))
  }

  function CompileHeader(document: Doc, headers: Doc, name: string): J.Option<HeaderIr> {
    if !Has(headers, name) then J.None
    else
      match Resolve(document, At(headers.members, name))
      case None => J.None
      case Some(h) => CompileResolvedHeader(name, h)
  }

  /** `key=str.lower`. */
  function HeaderKey(u: Unicode): string -> Key {
    (s: string) => Text(u.lower(s))
  }

  function CompileHeaders(u: Unicode, document: Doc, headers: Doc): J.Option<seq<HeaderIr>>
    requires headers.Obj?
  {
    Traverse((name: string) => CompileHeader(document, headers, name), Sorted(Names(headers), HeaderKey(u)))
  }

  function ContentOf(u: Unicode, r: Doc): J.Option<seq<ContentIr>> {
    if Has(r, "content") then CompileContent(u, At(r.members, "content")) else J.Some([])
  }

  function CompileResolvedResponse(u: Unicode, document: Doc, status: string, r: Doc): J.Option<ResponseIr> {
    var headers := GetOr(r, "headers", Obj([]));
    if !r.Obj? || !headers.Obj? then J.None
    else
      match (CompileHeaders(u, document, headers), ContentOf(u, r))
      case (Some(hs), Some(content)) => J.Some(ResponseIr(status, hs, content))
      case _ => J.None
  }

  function CompileResponse(u: Unicode, document: Doc, responses: Doc, status: string): J.Option<ResponseIr> {
    if !Has(responses, status) then J.None
    else
      match Resolve(document, At(responses.members, status))
      case None => J.None
      case Some(r) => CompileResolvedResponse(u, document, status, r)
  }

  /** `key=lambda value: int(str(value))`. */
  function StatusKey(status: string): Key {
    Number(if StatusShaped(status) then StatusNumber(status) else 0)
  }

  // ----- security -----

  function AddNames(found: seq<string>, names: seq<string>): seq<string>
    decreases |names|
  {
    if names == [] then found
    else AddNames(if names[0] in found then found else found + [names[0]], names[1..])
  }

  function CollectNames(requirements: seq<Doc>): J.Option<seq<string>> {
    if requirements == [] then J.Some([])
    else
      var n := |requirements| - 1;
      match CollectNames(requirements[..n])
      case Some(found) => if requirements[n].Obj? then J.Some(AddNames(found, Names(requirements[n]))) else J.None
      case None => J.None
  }

  /** `security_names`: an absent or null list names nothing. */
  function SecurityNames(security: Doc): J.Option<seq<string>> {
    if security.Null? then J.Some([])
    else if !security.Arr? then J.None
    else
      match CollectNames(security.items)
      case Some(found) => J.Some(Sorted(found, TextKey))
      case None => J.None
  }

  // ----- operations -----

  function CompileResolvedBody(u: Unicode, body: Doc): J.Option<J.Option<seq<ContentIr>>> {
    if !Has(body, "content") then J.None
    else
      match CompileContent(u, At(body.members, "content"))
      case Some(content) => J.Some(J.Some(content))
      case None => J.None
  }

  function CompileBody(u: Unicode, document: Doc, operation: Doc): J.Option<J.Option<seq<ContentIr>>> {
    if !Has(operation, "requestBody") then J.Some(J.None)
    else
      match Resolve(document, At(operation.members, "requestBody"))
      case None => J.None
      case Some(body) => CompileResolvedBody(u, body)
  }

  function CompileStatuses(u: Unicode, document: Doc, responses: Doc): J.Option<seq<ResponseIr>>
    requires responses.Obj?
  {
    Traverse((s: string) => CompileResponse(u, document, responses, s), Sorted(Names(responses), StatusKey))
  }

  /** `int(str(value))` is defined for every status. */
  predicate StatusesShaped(responses: Doc)
    requires responses.Obj?
  {
    forall s :: s in Keys(responses.members) ==> StatusShaped(s)
  }

  function CompileAllResponses(u: Unicode, document: Doc, operation: Doc): J.Option<seq<ResponseIr>> {
    var responses := GetOr(operation, "responses", Null);
    if responses.Obj? && StatusesShaped(responses) then CompileStatuses(u, document, responses) else J.None
  }

  function CompileAllParameters(document: Doc, pathItem: Doc, operation: Doc): J.Option<seq<ParameterIr>> {
    if !ParametersOf(pathItem).Arr? || !ParametersOf(operation).Arr? then J.None
    else
      match CompileParameters(document, AllParameters(pathItem, operation))
      case Some(parameters) => J.Some(Sorted(parameters, ParameterKey))
      case None => J.None
  }

  function CompileEntry(u: Unicode, document: Doc, e: Entry): J.Option<OperationIr> {
    match (CompileAllParameters(document, e.pathItem, e.operation), CompileBody(u, document, e.operation),
           CompileAllResponses(u, document, e.operation), SecurityNames(SecurityOf(document, e.operation)))
    case (Some(parameters), Some(body), Some(responses), Some(security)) =>
      J.Some(OperationIr(e.id, e.verb, e.path, security, parameters, body, responses))
    case _ => J.None
  }

  /** The entry of an identifier in the index. */
  function Find(index: seq<Entry>, id: string): J.Option<Entry> {
    if index == [] then J.None
    else if index[0].id == id then J.Some(index[0])
    else Find(index[1..], id)
  }

  function CompileId(u: Unicode, document: Doc, index: seq<Entry>, id: string): J.Option<OperationIr> {
    match Find(index, id)
    case Some(e) => CompileEntry(u, document, e)
    case None => J.None
  }

  /** The compiled operations, by operation identifier. */
  function Compile(u: Unicode, document: Doc, index: seq<Entry>): J.Option<seq<OperationIr>> {
    Traverse((id: string) => CompileId(u, document, index, id), Sorted(Ids(index), TextKey))
  }

  // ----- the loops of compile_operation_ir -----

  method CompileRawParameters(document: Doc, raws: seq<Doc>) returns (r: J.Option<seq<ParameterIr>>)
    ensures r == CompileParameters(document, raws)
  {
    var parameters: seq<ParameterIr> := [];
    ghost var f := (raw: Doc) => CompileParameter(document, raw);
    for i := 0 to |raws|
      invariant Traverse(f, raws[..i]) == J.Some(parameters)
    {
      TraverseStep(f, raws, i);
      var parameter := CompileParameter(document, raws[i]);
      if parameter.None? {
        return J.None;
      }
      parameters := parameters + [parameter.value];
    }
    assert raws[..|raws|] == raws;
    r := J.Some(parameters);
  }

  /** The parameters of path item and operation in sorted order: defined exactly when each
      compiles, and then an ascending arrangement of precisely the compiled ones. */
  method CompileParameterList(document: Doc, pathItem: Doc, operation: Doc) returns (r: J.Option<seq<ParameterIr>>)
    ensures r == CompileAllParameters(document, pathItem, operation)
    ensures r.Some? <==>
      && ParametersOf(pathItem).Arr? && ParametersOf(operation).Arr?
      && forall raw :: raw in AllParameters(pathItem, operation) ==> CompileParameter(document, raw).Some?
    ensures r.Some? ==> Ascending(r.value, ParameterKey) && |r.value| == |AllParameters(pathItem, operation)|
    ensures r.Some? ==> forall p :: p in r.value <==>
      exists raw :: raw in AllParameters(pathItem, operation) && CompileParameter(document, raw) == J.Some(p)
  {
    if !ParametersOf(pathItem).Arr? || !ParametersOf(operation).Arr? {
      return J.None;
    }
    var raws := AllParameters(pathItem, operation);
    r := CompileRawParameters(document, raws);
    CompiledListed(document, raws);
    if r.Some? {
      SortedAscending(r.value, ParameterKey);
      SameElements(r.value, Sorted(r.value, ParameterKey));
      r := J.Some(Sorted(r.value, ParameterKey));
    }
  }

  lemma CompiledListed(document: Doc, raws: seq<Doc>)
    ensures var r := CompileParameters(document, raws);
      && (r.Some? <==> forall raw :: raw in raws ==> CompileParameter(document, raw).Some?)
      && (r.Some? ==> |r.value| == |raws|)
      && (r.Some? ==> forall p :: p in r.value <==> exists raw :: raw in raws && CompileParameter(document, raw) == J.Some(p))
  {
    var f := (raw: Doc) => CompileParameter(document, raw);
    TraverseAt(f, raws);
    var r := CompileParameters(document, raws);
    if r.Some? {
      forall p ensures p in r.value <==> exists raw :: raw in raws && CompileParameter(document, raw) == J.Some(p) {
        if p in r.value {
          var i :| 0 <= i < |r.value| && r.value[i] == p;
          assert raws[i] in raws && f(raws[i]) == J.Some(p);
        }
        if raw :| raw in raws && CompileParameter(document, raw) == J.Some(p) {
          var i :| 0 <= i < |raws| && raws[i] == raw;
          assert f(raws[i]) == J.Some(r.value[i]);
        }
      }
    }
  }

  /** `compile_content_ir`. */
  method CompileContentIr(u: Unicode, content: Doc) returns (r: J.Option<seq<ContentIr>>)
    ensures r == CompileContent(u, content)
  {
    if !content.Obj? {
      return J.None;
    }
    var result: seq<ContentIr> := [];
    var texts := Sorted(Names(content), TextKey);
    ghost var f := (t: string) => CompileMedia(u, content, t);
    for i := 0 to |texts|
      invariant Traverse(f, texts[..i]) == J.Some(result)
    {
      TraverseStep(f, texts, i);
      var media := CompileMedia(u, content, texts[i]);
      if media.None? {
        return J.None;
      }
      result := result + [media.value];
    }
    assert texts[..|texts|] == texts;
    r := J.Some(result);
  }

  /** The loop over the declared headers of a response, by lower-cased name. */
  method CompileHeaderList(u: Unicode, document: Doc, declared: Doc) returns (r: J.Option<seq<HeaderIr>>)
    requires declared.Obj?
    ensures r == CompileHeaders(u, document, declared)
  {
    var headers: seq<HeaderIr> := [];
    var names := Sorted(Names(declared), HeaderKey(u));
    ghost var f := (name: string) => CompileHeader(document, declared, name);
    for i := 0 to |names|
      invariant Traverse(f, names[..i]) == J.Some(headers)
    {
      TraverseStep(f, names, i);
      var header := CompileHeader(document, declared, names[i]);
      if header.None? {
        return J.None;
      }
      headers := headers + [header.value];
    }
    assert names[..|names|] == names;
    r := J.Some(headers);
  }

  method CompileOneResponse(u: Unicode, document: Doc, responses: Doc, status: string) returns (r: J.Option<ResponseIr>)
    ensures r == CompileResponse(u, document, responses, status)
  {
    if !Has(responses, status) {
      return J.None;
    }
    var resolved := ResolveValue(document, At(responses.members, status));
    if resolved.None? {
      return J.None;
    }
    var response := resolved.value;
    var declared := GetOr(response, "headers", Obj([]));
    if !response.Obj? || !declared.Obj? {
      return J.None;
    }
    var headers := CompileHeaderList(u, document, declared);
    var content := J.Some([]);
    if Has(response, "content") {
      content := CompileContentIr(u, At(response.members, "content"));
    }
    if headers.None? || content.None? {
      return J.None;
    }
    r := J.Some(ResponseIr(status, headers.value, content.value));
  }

  /** The loop over the responses of an operation, by status number. */
  method CompileResponseList(u: Unicode, document: Doc, operation: Doc) returns (r: J.Option<seq<ResponseIr>>)
    ensures r == CompileAllResponses(u, document, operation)
  {
    var declared := GetOr(operation, "responses", Null);
    if !declared.Obj? || !StatusesShaped(declared) {
      return J.None;
    }
    var responses: seq<ResponseIr> := [];
    var statuses := Sorted(Names(declared), StatusKey);
    ghost var f := (s: string) => CompileResponse(u, document, declared, s);
    for i := 0 to |statuses|
      invariant Traverse(f, statuses[..i]) == J.Some(responses)
    {
      TraverseStep(f, statuses, i);
      var response := CompileOneResponse(u, document, declared, statuses[i]);
      if response.None? {
        return J.None;
      }
      responses := responses + [response.value];
    }
    assert statuses[..|statuses|] == statuses;
    r := J.Some(responses);
  }

  method CompileRequestBody(u: Unicode, document: Doc, operation: Doc) returns (r: J.Option<J.Option<seq<ContentIr>>>)
    ensures r == CompileBody(u, document, operation)
  {
    if !Has(operation, "requestBody") {
      return J.Some(J.None);
    }
    var body := ResolveValue(document, At(operation.members, "requestBody"));
    if body.None? || !Has(body.value, "content") {
      return J.None;
    }
    var content := CompileContentIr(u, At(body.value.members, "content"));
    r := if content.Some? then J.Some(J.Some(content.value)) else J.None;
  }

  /** The loop over the security requirements, naming each scheme once. */
  method CollectSecurity(security: Doc) returns (r: J.Option<seq<string>>)
    ensures r == SecurityNames(security)
  {
    if security.Null? {
      return J.Some([]);
    }
    if !security.Arr? {
      return J.None;
    }
    var found: seq<string> := [];
    var all := security.items;
    for i := 0 to |all|
      invariant CollectNames(all[..i]) == J.Some(found)
    {
      assert all[..i + 1][..i] == all[..i];
      if !all[i].Obj? {
        CollectPrefix(all, i + 1);
        return J.None;
      }
      found := AddNames(found, Names(all[i]));
    }
    assert all[..|all|] == all;
    r := J.Some(Sorted(found, TextKey));
  }

  lemma {:induction false} CollectPrefix(requirements: seq<Doc>, k: nat)
    requires k <= |requirements| && CollectNames(requirements[..k]).None?
    ensures CollectNames(requirements).None?
    decreases |requirements|
  {
    if k < |requirements| {
      assert requirements[..|requirements| - 1][..k] == requirements[..k];
      CollectPrefix(requirements[..|requirements| - 1], k);
    } else {
      assert requirements[..k] == requirements;
    }
  }

  method CompileOne(u: Unicode, document: Doc, e: Entry) returns (r: J.Option<OperationIr>)
    ensures r == CompileEntry(u, document, e)
  {
    var parameters := CompileParameterList(document, e.pathItem, e.operation);
    var body := CompileRequestBody(u, document, e.operation);
    var responses := CompileResponseList(u, document, e.operation);
    var security := CollectSecurity(SecurityOf(document, e.operation));
    if parameters.None? || body.None? || responses.None? || security.None? {
      return J.None;
    }
    r := J.Some(OperationIr(e.id, e.verb, e.path, security.value, parameters.value, body.value, responses.value));
  }

  /** `compile_operation_ir`. */
  method CompileOperationIr(u: Unicode, document: Doc, index: seq<Entry>) returns (r: J.Option<seq<OperationIr>>)
    ensures r == Compile(u, document, index)
  {
    var ids := Sorted(Ids(index), TextKey);
    var operations: seq<OperationIr> := [];
    ghost var f := (id: string) => CompileId(u, document, index, id);
    for i := 0 to |ids|
      invariant Traverse(f, ids[..i]) == J.Some(operations)
    {
      TraverseStep(f, ids, i);
      var e := Find(index, ids[i]);
      if e.None? {
        return J.None;
      }
      var operation := CompileOne(u, document, e.value);
      if operation.None? {
        return J.None;
      }
      operations := operations + [operation.value];
    }
    assert ids[..|ids|] == ids;
    r := J.Some(operations);
  }
}
