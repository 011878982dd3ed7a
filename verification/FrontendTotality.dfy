/** A validated document compiles without an undefined lookup, and what it compiles to is
    as regular as the frontend relies on. */
module FrontendTotality {
  import J = Json
  import opened Sorting
  import opened OrderedJson
  import opened FrontendDocument
  import opened FrontendValidator
  import opened FrontendCompiler

  // ----- the shape of the compiled form -----

  predicate ParameterRegular(p: ParameterIr) {
    && p.location in {"path", "query", "header"}
    && p.style == Str(ExpectedStyle(p.location))
    && p.explode == Bool(p.location == "query")
    && (p.location == "path" ==> p.required == Bool(true))
  }

  predicate ContentRegular(content: seq<ContentIr>, problemOnly: bool) {
    forall i :: 0 <= i < |content| ==>
      content[i].mediaType in ALLOWED_MEDIA_TYPES && (problemOnly ==> content[i].mediaType == PROBLEM)
  }

  predicate ResponseRegular(r: ResponseIr) {
    && StatusShaped(r.status)
    && (r.status == "204" ==> r.content == [])
    && ContentRegular(r.content, StatusNumber(r.status) >= 400)
    && forall i :: 0 <= i < |r.headers| ==> r.headers[i].style == Str("simple") && r.headers[i].explode == Bool(false)
  }

  function PathParameters(parameters: seq<ParameterIr>): set<string> {
    set i | 0 <= i < |parameters| && parameters[i].location == "path" :: parameters[i].name
  }

  ghost predicate OperationRegular(op: OperationIr) {
    && (forall i :: 0 <= i < |op.parameters| ==> ParameterRegular(op.parameters[i]))
    && PathParameters(op.parameters) == Placeholders(op.path)
    && Ascending(op.parameters, ParameterKey)
    && (op.requestBody.Some? ==> ContentRegular(op.requestBody.value, false) && op.requestBody.value != [])
    && op.responses != []
    && (forall i :: 0 <= i < |op.responses| ==> ResponseRegular(op.responses[i]))
    && (forall i, j :: 0 <= i < j < |op.responses| ==> StatusNumber(op.responses[i].status) < StatusNumber(op.responses[j].status))
  }

  // ----- where an explicit null is validated but not compiled -----

  predicate ResponseNullFree(document: Doc, raw: Doc) {
    match Resolve(document, raw)
    case Some(r) => GetOr(r, "headers", Obj([])) != Null && !(Has(r, "content") && At(r.members, "content") == Null)
    case None => true
  }

  predicate OperationNullFree(document: Doc, operation: Doc) {
    && !(Has(operation, "requestBody") && At(operation.members, "requestBody") == Null)
    && var responses := GetOr(operation, "responses", Null);
       responses.Obj? ==> forall s :: s in Keys(responses.members) ==> ResponseNullFree(document, At(responses.members, s))
  }

  predicate NullFree(document: Doc, index: seq<Entry>) {
    forall i :: 0 <= i < |index| ==> OperationNullFree(document, index[i].operation)
  }

  // ----- the parts -----

  lemma NamesKeys(d: Doc)
    requires d.Obj?
    ensures forall s :: s in Names(d) <==> s in Keys(d.members)
  {
    forall s ensures s in Names(d) <==> s in Keys(d.members) {
      if s in Keys(d.members) { assert Names(d)[IndexOf(d.members, s)] == s; }
    }
  }

  lemma SortedNames(d: Doc, key: string -> Key)
    requires d.Obj?
    ensures forall s :: s in Sorted(Names(d), key) <==> s in Keys(d.members)
    ensures |Sorted(Names(d), key)| == |d.members|
  {
    NamesKeys(d);
    SameElements(Names(d), Sorted(Names(d), key));
  }

  /** Compiling over the sorted names of an object is defined exactly when it is for every name. */
  lemma TraverseNames<B>(d: Doc, key: string -> Key, f: string -> J.Option<B>)
    requires d.Obj?
    ensures Traverse(f, Sorted(Names(d), key)).Some? <==> forall s :: s in Keys(d.members) ==> f(s).Some?
  {
    var names := Sorted(Names(d), key);
    SortedNames(d, key);
    TraverseAt(f, names);
    if forall s :: s in Keys(d.members) ==> f(s).Some? {
      forall i | 0 <= i < |names| ensures f(names[i]).Some? { assert names[i] in names; }
    }
    if Traverse(f, names).Some? {
      forall s | s in Keys(d.members) ensures f(s).Some? {
        var i :| 0 <= i < |names| && names[i] == s;
      }
    }
  }

  lemma ParameterCompiles(document: Doc, raw: Doc)
    requires ParameterValid(document, raw)
    ensures CompileParameter(document, raw).Some?
    ensures ParameterRegular(CompileParameter(document, raw).value)
    ensures var p := CompileParameter(document, raw).value;
      PathName(document, raw) == if p.location == "path" then J.Some(p.name) else J.None
  {
  }

  lemma ContentCompiles(u: Unicode, document: Doc, content: Doc, problemOnly: bool)
    requires ContentValid(u, document, content, problemOnly)
    ensures CompileContent(u, content).Some?
    ensures ContentRegular(CompileContent(u, content).value, problemOnly) && CompileContent(u, content).value != []
  {
    var texts := Sorted(Names(content), TextKey);
    var f := (t: string) => CompileMedia(u, content, t);
    SortedNames(content, TextKey);
    forall i | 0 <= i < |texts|
      ensures f(texts[i]).Some? && f(texts[i]).value.mediaType == MediaType(u, texts[i])
      ensures MediaValid(u, document, texts[i], At(content.members, texts[i]), problemOnly)
    {
      assert texts[i] in texts;
    }
    TraverseAt(f, texts);
  }

  lemma HeaderCompiles(document: Doc, headers: Doc, name: string)
    requires Has(headers, name) && HeaderValid(document, name, At(headers.members, name))
    ensures CompileHeader(document, headers, name).Some?
    ensures var h := CompileHeader(document, headers, name).value;
      h.style == Str("simple") && h.explode == Bool(false)
  {
  }

  lemma HeadersCompile(u: Unicode, document: Doc, headers: Doc)
    requires headers.Obj? && HeadersValid(document, headers)
    ensures CompileHeaders(u, document, headers).Some?
    ensures var hs := CompileHeaders(u, document, headers).value;
      forall i :: 0 <= i < |hs| ==> hs[i].style == Str("simple") && hs[i].explode == Bool(false)
  {
    var names := Sorted(Names(headers), HeaderKey(u));
    var f := (name: string) => CompileHeader(document, headers, name);
    SortedNames(headers, HeaderKey(u));
    forall i | 0 <= i < |names|
      ensures f(names[i]).Some? && f(names[i]).value.style == Str("simple") && f(names[i]).value.explode == Bool(false)
    {
      assert names[i] in names;
      HeaderCompiles(document, headers, names[i]);
    }
    TraverseAt(f, names);
  }

  lemma ResolvedContentCompiles(u: Unicode, document: Doc, r: Doc, status: string)
    requires StatusShaped(status) && ResponseShaped(u, document, status, r)
    ensures ContentOf(u, r).Some? <==> !(Has(r, "content") && At(r.members, "content") == Null)
    ensures ContentOf(u, r).Some? ==>
      (status == "204" ==> ContentOf(u, r).value == []) && ContentRegular(ContentOf(u, r).value, StatusNumber(status) >= 400)
  {
    if Has(r, "content") && At(r.members, "content") != Null {
      ContentCompiles(u, document, At(r.members, "content"), StatusNumber(status) >= 400);
    }
  }

  lemma ResolvedResponseCompiles(u: Unicode, document: Doc, r: Doc, status: string)
    requires StatusShaped(status) && ResponseShaped(u, document, status, r)
    ensures CompileResolvedResponse(u, document, status, r).Some? <==>
      GetOr(r, "headers", Obj([])) != Null && !(Has(r, "content") && At(r.members, "content") == Null)
    ensures CompileResolvedResponse(u, document, status, r).Some? ==>
      ResponseRegular(CompileResolvedResponse(u, document, status, r).value)
      && CompileResolvedResponse(u, document, status, r).value.status == status
  {
    ResolvedContentCompiles(u, document, r, status);
    if GetOr(r, "headers", Obj([])).Obj? {
      HeadersCompile(u, document, GetOr(r, "headers", Obj([])));
    }
  }

  lemma ResponseCompiles(u: Unicode, document: Doc, responses: Doc, status: string)
    requires Has(responses, status) && ResponseValid(u, document, status, At(responses.members, status))
    ensures CompileResponse(u, document, responses, status).Some? <==> ResponseNullFree(document, At(responses.members, status))
    ensures CompileResponse(u, document, responses, status).Some? ==>
      ResponseRegular(CompileResponse(u, document, responses, status).value)
      && CompileResponse(u, document, responses, status).value.status == status
  {
    ResolvedResponseCompiles(u, document, Resolve(document, At(responses.members, status)).value, status);
  }

  lemma BodyCompiles(u: Unicode, document: Doc, operation: Doc)
    requires BodyValid(u, document, GetOr(operation, "requestBody", Null))
    ensures CompileBody(u, document, operation).Some? <==> !(Has(operation, "requestBody") && At(operation.members, "requestBody") == Null)
    ensures CompileBody(u, document, operation).Some? && CompileBody(u, document, operation).value.Some? ==>
      var content := CompileBody(u, document, operation).value.value;
      ContentRegular(content, false) && content != []
  {
    if Has(operation, "requestBody") && At(operation.members, "requestBody") != Null {
      var body := Resolve(document, At(operation.members, "requestBody")).value;
      ContentCompiles(u, document, GetOr(body, "content", Null), false);
    }
  }

  lemma StatusesDistinct(s: string, t: string)
    requires StatusShaped(s) && StatusShaped(t) && StatusNumber(s) == StatusNumber(t)
    ensures s == t
  {
    assert s[0] == t[0] && s[1] == t[1] && s[2] == t[2];
  }

  lemma NamesDistinct(d: Doc)
    requires d.Obj? && DistinctMembers(d.members)
    ensures NoRepeats(Names(d))
  {
  }

  lemma SortedNoRepeats<T>(xs: seq<T>, key: T -> Key)
    requires NoRepeats(xs)
    ensures NoRepeats(Sorted(xs, key))
  {
    var ys := Sorted(xs, key);
    forall i, j | 0 <= i < j < |ys| ensures ys[i] != ys[j] {
      if ys[i] == ys[j] {
        CountedOnce(xs, ys[i]);
        CountedTwice(ys, i, j);
        assert false;
      }
    }
  }

  lemma CountedTwice<T>(xs: seq<T>, i: nat, j: nat)
    requires i < j < |xs| && xs[i] == xs[j]
    ensures multiset(xs)[xs[i]] >= 2
  {
    assert xs == xs[..j] + xs[j..];
    assert xs[i] in multiset(xs[..j]) by { assert xs[..j][i] == xs[i]; }
    assert xs[j] in multiset(xs[j..]) by { assert xs[j..][0] == xs[j]; }
  }

  lemma StatusesAscend(u: Unicode, document: Doc, responses: Doc, statuses: seq<string>)
    requires responses.Obj? && DistinctMembers(responses.members) && ResponsesValid(u, document, responses)
    requires statuses == Sorted(Names(responses), StatusKey)
    ensures forall i :: 0 <= i < |statuses| ==> StatusShaped(statuses[i])
    ensures forall i, j :: 0 <= i < j < |statuses| ==> StatusNumber(statuses[i]) < StatusNumber(statuses[j])
  {
    SortedNames(responses, StatusKey);
    forall i | 0 <= i < |statuses| ensures StatusShaped(statuses[i]) {
      assert statuses[i] in statuses;
      assert ResponseValid(u, document, statuses[i], At(responses.members, statuses[i]));
    }
    SortedAscending(Names(responses), StatusKey);
    NamesDistinct(responses);
    SortedNoRepeats(Names(responses), StatusKey);
    forall i, j | 0 <= i < j < |statuses| ensures StatusNumber(statuses[i]) < StatusNumber(statuses[j]) {
      assert Leq(StatusKey(statuses[i]), StatusKey(statuses[j]));
      if StatusNumber(statuses[i]) == StatusNumber(statuses[j]) {
        StatusesDistinct(statuses[i], statuses[j]);
      }
    }
  }

  lemma EachResponse(u: Unicode, document: Doc, responses: Doc)
    requires ResponsesValid(u, document, responses)
    ensures forall s :: s in Keys(responses.members) ==>
      (CompileResponse(u, document, responses, s).Some? <==> ResponseNullFree(document, At(responses.members, s)))
    ensures forall s :: s in Keys(responses.members) && CompileResponse(u, document, responses, s).Some? ==>
      ResponseRegular(CompileResponse(u, document, responses, s).value) && CompileResponse(u, document, responses, s).value.status == s
  {
    forall s | s in Keys(responses.members)
      ensures CompileResponse(u, document, responses, s).Some? <==> ResponseNullFree(document, At(responses.members, s))
      ensures CompileResponse(u, document, responses, s).Some? ==>
        ResponseRegular(CompileResponse(u, document, responses, s).value) && CompileResponse(u, document, responses, s).value.status == s
    {
      ResponseCompiles(u, document, responses, s);
    }
  }

  lemma ResponsesDefined(u: Unicode, document: Doc, operation: Doc)
    requires ResponsesValid(u, document, GetOr(operation, "responses", Null))
    ensures var responses := GetOr(operation, "responses", Null);
      CompileAllResponses(u, document, operation).Some? <==>
        forall s :: s in Keys(responses.members) ==> ResponseNullFree(document, At(responses.members, s))
  {
    var responses := GetOr(operation, "responses", Null);
    forall s | s in Keys(responses.members) ensures StatusShaped(s) {
      assert ResponseValid(u, document, s, At(responses.members, s));
    }
    EachResponse(u, document, responses);
    TraverseNames(responses, StatusKey, (s: string) => CompileResponse(u, document, responses, s));
  }

  lemma ResponsesRegular(u: Unicode, document: Doc, operation: Doc)
    requires WellFormed(operation) && ResponsesValid(u, document, GetOr(operation, "responses", Null))
    requires CompileAllResponses(u, document, operation).Some?
    ensures var rs := CompileAllResponses(u, document, operation).value;
      && rs != []
      && (forall i :: 0 <= i < |rs| ==> ResponseRegular(rs[i]))
      && (forall i, j :: 0 <= i < j < |rs| ==> StatusNumber(rs[i].status) < StatusNumber(rs[j].status))
  {
    var responses := GetOr(operation, "responses", Null);
    var statuses := Sorted(Names(responses), StatusKey);
    var f := (s: string) => CompileResponse(u, document, responses, s);
    SortedNames(responses, StatusKey);
    EachResponse(u, document, responses);
    TraverseAt(f, statuses);
    StatusesAscend(u, document, responses, statuses);
    var rs := Traverse(f, statuses).value;
    forall i | 0 <= i < |rs| ensures ResponseRegular(rs[i]) && rs[i].status == statuses[i] {
      assert statuses[i] in statuses && f(statuses[i]) == J.Some(rs[i]);
    }
  }

  // ----- parameters and security -----

  ghost predicate Compiles(document: Doc, raw: Doc, p: ParameterIr) {
    && ParameterRegular(p)
    && PathName(document, raw) == if p.location == "path" then J.Some(p.name) else J.None
  }

  lemma ParametersListed(document: Doc, raws: seq<Doc>)
    requires forall i :: 0 <= i < |raws| ==> ParameterValid(document, raws[i])
    ensures CompileParameters(document, raws).Some? && |CompileParameters(document, raws).value| == |raws|
    ensures forall i :: 0 <= i < |raws| ==> Compiles(document, raws[i], CompileParameters(document, raws).value[i])
  {
    var f := (raw: Doc) => CompileParameter(document, raw);
    forall i | 0 <= i < |raws| ensures f(raws[i]).Some? && Compiles(document, raws[i], f(raws[i]).value) {
      ParameterCompiles(document, raws[i]);
    }
    TraverseAt(f, raws);
  }

  lemma PathNamesCompiled(document: Doc, raws: seq<Doc>, ps: seq<ParameterIr>)
    requires |ps| == |raws| && forall i :: 0 <= i < |raws| ==> Compiles(document, raws[i], ps[i])
    ensures PathParameters(ps) == PathNames(document, raws)
  {
    forall name | name in PathParameters(ps) ensures name in PathNames(document, raws) {
      var i :| 0 <= i < |ps| && ps[i].location == "path" && ps[i].name == name;
      assert PathName(document, raws[i]) == J.Some(name);
    }
    forall name | name in PathNames(document, raws) ensures name in PathParameters(ps) {
      var i :| 0 <= i < |raws| && PathName(document, raws[i]) == J.Some(name);
      assert Compiles(document, raws[i], ps[i]) && ps[i].name == name;
    }
  }

  lemma SortedRegular(listed: seq<ParameterIr>)
    requires forall i :: 0 <= i < |listed| ==> ParameterRegular(listed[i])
    ensures var ps := Sorted(listed, ParameterKey);
      && (forall i :: 0 <= i < |ps| ==> ParameterRegular(ps[i]))
      && PathParameters(ps) == PathParameters(listed)
      && Ascending(ps, ParameterKey)
  {
    var ps := Sorted(listed, ParameterKey);
    SortedAscending(listed, ParameterKey);
    SameElements(listed, ps);
    forall i | 0 <= i < |ps| ensures ParameterRegular(ps[i]) {
      assert ps[i] in ps && ps[i] in listed;
    }
    PathParametersShuffled(listed, ps);
  }

  lemma ParametersCompile(document: Doc, raws: seq<Doc>)
    requires forall i :: 0 <= i < |raws| ==> ParameterValid(document, raws[i])
    ensures CompileParameters(document, raws).Some?
    ensures var ps := Sorted(CompileParameters(document, raws).value, ParameterKey);
      && (forall i :: 0 <= i < |ps| ==> ParameterRegular(ps[i]))
      && PathParameters(ps) == PathNames(document, raws)
      && Ascending(ps, ParameterKey)
  {
    ParametersListed(document, raws);
    var listed := CompileParameters(document, raws).value;
    PathNamesCompiled(document, raws, listed);
    assert forall i :: 0 <= i < |raws| ==> Compiles(document, raws[i], listed[i]);
    SortedRegular(listed);
  }

  lemma PathParametersShuffled(a: seq<ParameterIr>, b: seq<ParameterIr>)
    requires forall p :: p in a <==> p in b
    ensures PathParameters(a) == PathParameters(b)
  {
    forall name | name in PathParameters(a) ensures name in PathParameters(b) {
      var i :| 0 <= i < |a| && a[i].location == "path" && a[i].name == name;
      assert a[i] in b;
    }
    forall name | name in PathParameters(b) ensures name in PathParameters(a) {
      var i :| 0 <= i < |b| && b[i].location == "path" && b[i].name == name;
      assert b[i] in a;
    }
  }

  lemma {:induction false} NamesCollected(requirements: seq<Doc>)
    requires forall i :: 0 <= i < |requirements| ==> requirements[i].Obj?
    ensures CollectNames(requirements).Some?
    decreases |requirements|
  {
    if requirements != [] {
      NamesCollected(requirements[..|requirements| - 1]);
    }
  }

  lemma SecurityCompiles(security: Doc)
    requires SecurityValid(security)
    ensures SecurityNames(security).Some?
  {
    if security.Arr? {
      forall i | 0 <= i < |security.items| ensures security.items[i].Obj? {
        assert RequirementValid(security.items[i]);
      }
      NamesCollected(security.items);
    }
  }

  // ----- operations -----

  /** A valid operation compiles exactly when it has no explicit null in the places the
      validator passes over, and then its compiled form is regular. */
  lemma EntryCompiles(u: Unicode, document: Doc, e: Entry)
    requires WellFormed(e.operation) && OperationValid(u, document, e.path, e.pathItem, e.operation)
    ensures CompileEntry(u, document, e).Some? <==> OperationNullFree(document, e.operation)
    ensures CompileEntry(u, document, e).Some? ==>
      OperationRegular(CompileEntry(u, document, e).value) && CompileEntry(u, document, e).value.operationId == e.id
  {
    ParametersCompile(document, AllParameters(e.pathItem, e.operation));
    BodyCompiles(u, document, e.operation);
    ResponsesDefined(u, document, e.operation);
    SecurityCompiles(SecurityOf(document, e.operation));
    if CompileEntry(u, document, e).Some? {
      ResponsesRegular(u, document, e.operation);
    }
  }

  lemma {:induction false} FindEntry(index: seq<Entry>, i: nat)
    requires i < |index| && forall j, k :: 0 <= j < k < |index| ==> index[j].id != index[k].id
    ensures Find(index, index[i].id) == J.Some(index[i])
  {
    if i > 0 {
      assert index[1..][i - 1] == index[i];
      FindEntry(index[1..], i - 1);
    }
  }

  lemma IndexedOperation(u: Unicode, document: Doc, paths: Doc, index: seq<Entry>, e: Entry)
    requires WellFormed(paths) && PathsValid(u, document, paths) && IsIndex(paths, index) && e in index
    ensures WellFormed(e.operation) && OperationValid(u, document, e.path, e.pathItem, e.operation)
  {
    var v :| Indexed(paths, index, e.path, v) && e == EntryAt(paths, e.path, v);
    assert PathValid(u, document, e.path, At(paths.members, e.path));
  }

  /** The identifiers of the compiled operations: each of the index once, in order. */
  ghost predicate IdsRegular(index: seq<Entry>, ops: seq<OperationIr>) {
    && |ops| == |index|
    && (forall i, j :: 0 <= i < j < |ops| ==> Before(ops[i].operationId, ops[j].operationId))
    && (forall i :: 0 <= i < |ops| ==> ops[i].operationId in Ids(index))
    && (forall i :: 0 <= i < |index| ==> exists k :: 0 <= k < |ops| && ops[k].operationId == index[i].id)
  }

  lemma IdsInIndex(index: seq<Entry>)
    ensures forall i :: 0 <= i < |index| ==> index[i].id in Ids(index)
    ensures forall id :: id in Ids(index) ==> exists i :: 0 <= i < |index| && index[i].id == id
  {
    forall i | 0 <= i < |index| ensures index[i].id in Ids(index) { assert Ids(index)[i] == index[i].id; }
  }

  lemma EachId(u: Unicode, document: Doc, paths: Doc, index: seq<Entry>, id: string)
    requires WellFormed(paths) && PathsValid(u, document, paths) && IsIndex(paths, index) && id in Ids(index)
    ensures Find(index, id).Some? && Find(index, id).value in index
    ensures CompileId(u, document, index, id).Some? <==> OperationNullFree(document, Find(index, id).value.operation)
    ensures CompileId(u, document, index, id).Some? ==> OperationRegular(CompileId(u, document, index, id).value)
    ensures CompileId(u, document, index, id).Some? ==> CompileId(u, document, index, id).value.operationId == id
  {
    IdsInIndex(index);
    var i :| 0 <= i < |index| && index[i].id == id;
    FindEntry(index, i);
    IndexedOperation(u, document, paths, index, index[i]);
    EntryCompiles(u, document, index[i]);
  }

  /** Compilation of a validated document is defined exactly when no operation has an
      explicit null at requestBody, content or headers. */
  lemma CompilesExactly(u: Unicode, document: Doc, index: seq<Entry>)
    requires WellFormed(document) && DocumentValid(u, document) && IsIndex(GetOr(document, "paths", Null), index)
    ensures Compile(u, document, index).Some? <==> NullFree(document, index)
  {
    var paths := GetOr(document, "paths", Null);
    var ids := Sorted(Ids(index), TextKey);
    var f := (id: string) => CompileId(u, document, index, id);
    SameElements(Ids(index), ids);
    TraverseAt(f, ids);
    if NullFree(document, index) {
      forall k | 0 <= k < |ids| ensures f(ids[k]).Some? {
        assert ids[k] in ids;
        EachId(u, document, paths, index, ids[k]);
      }
    }
    if Compile(u, document, index).Some? {
      forall i | 0 <= i < |index| ensures OperationNullFree(document, index[i].operation) {
        assert Ids(index)[i] == index[i].id;
        EachId(u, document, paths, index, index[i].id);
        FindEntry(index, i);
        var k :| 0 <= k < |ids| && ids[k] == index[i].id;
        assert f(ids[k]).Some?;
      }
    }
  }

  lemma EachCompiled(u: Unicode, document: Doc, index: seq<Entry>, ids: seq<string>)
    requires WellFormed(document) && DocumentValid(u, document) && IsIndex(GetOr(document, "paths", Null), index)
    requires Compile(u, document, index).Some? && ids == Sorted(Ids(index), TextKey)
    ensures var ops := Compile(u, document, index).value;
      && |ops| == |ids| && (forall i :: 0 <= i < |ids| ==> ids[i] in Ids(index))
      && forall i :: 0 <= i < |ops| ==> OperationRegular(ops[i]) && ops[i].operationId == ids[i]
  {
    var f := (id: string) => CompileId(u, document, index, id);
    SameElements(Ids(index), ids);
    TraverseAt(f, ids);
    var ops := Traverse(f, ids).value;
    forall i | 0 <= i < |ids| ensures ids[i] in Ids(index) && OperationRegular(ops[i]) && ops[i].operationId == ids[i] {
      assert ids[i] in ids;
      EachId(u, document, GetOr(document, "paths", Null), index, ids[i]);
      assert f(ids[i]) == J.Some(ops[i]);
    }
  }

  lemma IdsListed(index: seq<Entry>, ids: seq<string>)
    requires forall i, j :: 0 <= i < j < |index| ==> index[i].id != index[j].id
    requires ids == Sorted(Ids(index), TextKey)
    ensures |ids| == |index|
    ensures forall i :: 0 <= i < |index| ==> exists k :: 0 <= k < |ids| && ids[k] == index[i].id
  {
    var listed := Ids(index);
    SameElements(listed, ids);
    forall i | 0 <= i < |index| ensures exists k :: 0 <= k < |ids| && ids[k] == index[i].id {
      assert listed[i] in ids;
    }
  }

  lemma IdsCarried(index: seq<Entry>, ids: seq<string>, ops: seq<OperationIr>)
    requires forall i, j :: 0 <= i < j < |index| ==> index[i].id != index[j].id
    requires ids == Sorted(Ids(index), TextKey) && |ops| == |ids|
    requires forall i :: 0 <= i < |ids| ==> ids[i] in Ids(index) && ops[i].operationId == ids[i]
    ensures IdsRegular(index, ops)
  {
    IdsListed(index, ids);
    IdsAscend(index, ids);
    forall i | 0 <= i < |index| ensures exists k :: 0 <= k < |ops| && ops[k].operationId == index[i].id {
      var k :| 0 <= k < |ids| && ids[k] == index[i].id;
      assert ops[k].operationId == index[i].id;
    }
  }

  /** The compiled list has exactly one operation per identifier, in identifier order,
      and every operation is regular. */
  lemma CompiledRegular(u: Unicode, document: Doc, index: seq<Entry>)
    requires WellFormed(document) && DocumentValid(u, document) && IsIndex(GetOr(document, "paths", Null), index)
    requires Compile(u, document, index).Some?
    ensures IdsRegular(index, Compile(u, document, index).value)
    ensures forall i :: 0 <= i < |Compile(u, document, index).value| ==> OperationRegular(Compile(u, document, index).value[i])
  {
    var ids := Sorted(Ids(index), TextKey);
    EachCompiled(u, document, index, ids);
    IdsCarried(index, ids, Compile(u, document, index).value);
  }

  lemma IdsAscend(index: seq<Entry>, ids: seq<string>)
    requires forall i, j :: 0 <= i < j < |index| ==> index[i].id != index[j].id
    requires ids == Sorted(Ids(index), TextKey)
    ensures forall i, j :: 0 <= i < j < |ids| ==> Before(ids[i], ids[j])
  {
    SortedAscending(Ids(index), TextKey);
    assert NoRepeats(Ids(index));
    SortedNoRepeats(Ids(index), TextKey);
    forall i, j | 0 <= i < j < |ids| ensures Before(ids[i], ids[j]) {
      assert Leq(TextKey(ids[i]), TextKey(ids[j]));
      BeforeTotal(ids[i], ids[j]);
    }
  }
}
