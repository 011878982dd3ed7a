/** When the compiled form forgets the member order of the document: exactly when no response
    has two header names equal ignoring case. */
module FrontendOrder {
  import J = Json
  import opened Sorting
  import opened OrderedJson
  import opened FrontendDocument
  import opened FrontendValidator
  import opened FrontendCompiler
  import opened FrontendCanonical
  import opened FrontendTotality
  import FrontendAcceptance
  import opened FrontendReversal

  // ----- what the rendered form tells -----

  /** Two objects rendered alike have values rendered alike under each key. */
  lemma RenderedMember(a: seq<Member>, b: seq<Member>, key: string)
    requires DistinctMembers(a) && DistinctMembers(b) && key in Keys(a) && key in Keys(b)
    requires SortKeys(Obj(a)) == SortKeys(Obj(b))
    ensures SortKeys(At(a, key)) == SortKeys(At(b, key))
  {
    SortKeysOfObject(a);
    SortKeysOfObject(b);
    SortedAt(a, key);
    SortedAt(b, key);
  }

  lemma RenderedItems(a: Doc, b: Doc)
    requires a.Arr? && b.Arr? && SortKeys(a) == SortKeys(b)
    ensures |a.items| == |b.items| && forall i :: 0 <= i < |a.items| ==> SortKeys(a.items[i]) == SortKeys(b.items[i])
  {
    var x, y := SortKeys(a), SortKeys(b);
    assert |x.items| == |a.items| && |y.items| == |b.items|;
    forall i | 0 <= i < |a.items| ensures SortKeys(a.items[i]) == SortKeys(b.items[i]) {
      assert x.items[i] == SortKeys(a.items[i]) && y.items[i] == SortKeys(b.items[i]);
    }
  }

  lemma RenderedListed<T>(f: T -> Doc, a: seq<T>, b: seq<T>)
    requires SortKeys(Listed(f, a)) == SortKeys(Listed(f, b))
    ensures |a| == |b| && forall i :: 0 <= i < |a| ==> SortKeys(f(a[i])) == SortKeys(f(b[i]))
  {
    RenderedItems(Listed(f, a), Listed(f, b));
    forall i | 0 <= i < |a| ensures SortKeys(f(a[i])) == SortKeys(f(b[i])) {
      assert Listed(f, a).items[i] == f(a[i]) && Listed(f, b).items[i] == f(b[i]);
    }
  }

  /** Two objects with one key at a place, rendered alike, have values rendered alike there. */
  lemma RenderedAt(a: Doc, b: Doc, i: nat)
    requires a.Obj? && b.Obj? && DistinctMembers(a.members) && DistinctMembers(b.members)
    requires i < |a.members| && i < |b.members| && a.members[i].key == b.members[i].key
    requires SortKeys(a) == SortKeys(b)
    ensures SortKeys(a.members[i].value) == SortKeys(b.members[i].value)
  {
    IndexUnique(a.members, i);
    IndexUnique(b.members, i);
    RenderedMember(a.members, b.members, a.members[i].key);
  }

  function HeaderNames(hs: seq<HeaderIr>): (r: seq<string>)
    ensures |r| == |hs| && forall i :: 0 <= i < |r| ==> r[i] == hs[i].name
  {
    seq(|hs|, i requires 0 <= i < |hs| => hs[i].name)
  }

  lemma HeaderDocDistinct(h: HeaderIr)
    ensures DistinctMembers(HeaderDoc(h).members) && |HeaderDoc(h).members| > 0
    ensures HeaderDoc(h).members[0] == Member("name", Str(h.name))
  {
  }

  lemma ResponseDocDistinct(r: ResponseIr)
    ensures DistinctMembers(ResponseDoc(r).members) && |ResponseDoc(r).members| > 1
    ensures ResponseDoc(r).members[1] == Member("headers", Listed(HeaderDoc, r.headers))
  {
  }

  lemma OperationDocDistinct(op: OperationIr)
    ensures DistinctMembers(OperationDoc(op).members) && |OperationDoc(op).members| > 6
    ensures OperationDoc(op).members[6] == Member("responses", Listed(ResponseDoc, op.responses))
  {
  }

  lemma RenderedHeader(a: HeaderIr, b: HeaderIr, x: Doc, y: Doc)
    requires x == HeaderDoc(a) && y == HeaderDoc(b) && SortKeys(x) == SortKeys(y)
    ensures a.name == b.name
  {
    HeaderDocDistinct(a);
    HeaderDocDistinct(b);
    RenderedAt(x, y, 0);
  }

  lemma RenderedHeaders(a: seq<HeaderIr>, b: seq<HeaderIr>)
    requires SortKeys(Listed(HeaderDoc, a)) == SortKeys(Listed(HeaderDoc, b))
    ensures HeaderNames(a) == HeaderNames(b)
  {
    RenderedListed(HeaderDoc, a, b);
    forall i | 0 <= i < |a| ensures a[i].name == b[i].name { RenderedHeader(a[i], b[i], HeaderDoc(a[i]), HeaderDoc(b[i])); }
  }

  lemma RenderedResponse(a: ResponseIr, b: ResponseIr, x: Doc, y: Doc)
    requires x == ResponseDoc(a) && y == ResponseDoc(b) && SortKeys(x) == SortKeys(y)
    ensures HeaderNames(a.headers) == HeaderNames(b.headers)
  {
    ResponseDocDistinct(a);
    ResponseDocDistinct(b);
    RenderedAt(x, y, 1);
    RenderedHeaders(a.headers, b.headers);
  }

  /** The same header names at every response. */
  predicate HeadersAlike(a: OperationIr, b: OperationIr) {
    && |a.responses| == |b.responses|
    && forall j :: 0 <= j < |a.responses| ==> HeaderNames(a.responses[j].headers) == HeaderNames(b.responses[j].headers)
  }

  lemma RenderedOperation(a: OperationIr, b: OperationIr, x: Doc, y: Doc)
    requires x == OperationDoc(a) && y == OperationDoc(b) && SortKeys(x) == SortKeys(y)
    ensures HeadersAlike(a, b)
  {
    OperationDocDistinct(a);
    OperationDocDistinct(b);
    RenderedAt(x, y, 6);
    RenderedListed(ResponseDoc, a.responses, b.responses);
    forall j | 0 <= j < |a.responses| ensures HeaderNames(a.responses[j].headers) == HeaderNames(b.responses[j].headers) {
      RenderedResponse(a.responses[j], b.responses[j], ResponseDoc(a.responses[j]), ResponseDoc(b.responses[j]));
    }
  }

  function Whole(ops: seq<OperationIr>): (d: Doc)
    ensures d.Obj? && |d.members| == 2 && DistinctMembers(d.members)
    ensures d.members[1] == Member("operations", Listed(OperationDoc, ops))
    ensures SortKeys(d) == Render(ops)
  {
    Obj([Member("schemaVersion", Num(1.0)), Member("operations", Listed(OperationDoc, ops))])
  }

  /** Texts that render alike show the same header names at every place. */
  lemma RenderedAlike(a: seq<OperationIr>, b: seq<OperationIr>)
    requires Render(a) == Render(b)
    ensures |a| == |b| && forall i :: 0 <= i < |a| ==> HeadersAlike(a[i], b[i])
  {
    RenderedAt(Whole(a), Whole(b), 1);
    RenderedListed(OperationDoc, a, b);
    forall i | 0 <= i < |a| ensures HeadersAlike(a[i], b[i]) {
      RenderedOperation(a[i], b[i], OperationDoc(a[i]), OperationDoc(b[i]));
    }
  }

  // ----- the reversed document -----

  function ReversedEntry(e: Entry): Entry {
    Entry(e.id, e.verb, e.path, Reverse(e.operation), Reverse(e.pathItem))
  }

  function ReversedIndex(index: seq<Entry>): (r: seq<Entry>)
    ensures |r| == |index| && forall i :: 0 <= i < |r| ==> r[i] == ReversedEntry(index[i])
  {
    seq(|index|, i requires 0 <= i < |index| => ReversedEntry(index[i]))
  }

  lemma ReverseOperation(paths: Doc, path: string, verb: string)
    requires WellFormed(paths)
    ensures IsOperation(Reverse(paths), path, verb) <==> IsOperation(paths, path, verb)
    ensures IsOperation(paths, path, verb) ==>
      && OperationAt(Reverse(paths), path, verb) == Reverse(OperationAt(paths, path, verb))
      && At(Reverse(paths).members, path) == Reverse(At(paths.members, path))
      && IdAt(Reverse(paths), path, verb) == Reverse(IdAt(paths, path, verb))
  {
    ReverseMember(paths, path);
    if Has(paths, path) {
      WellFormedAt(paths, path);
      ReverseMember(At(paths.members, path), verb);
      if IsOperation(paths, path, verb) {
        WellFormedAt(At(paths.members, path), verb);
        ReverseGetOr(OperationAt(paths, path, verb), "operationId", Null);
      }
    }
  }

  lemma ReverseIndexed(paths: Doc, index: seq<Entry>, path: string, verb: string)
    requires WellFormed(paths) && Indexed(paths, index, path, verb)
    ensures Indexed(Reverse(paths), ReversedIndex(index), path, verb)
    ensures EntryAt(Reverse(paths), path, verb) == ReversedEntry(EntryAt(paths, path, verb))
  {
    ReverseOperation(paths, path, verb);
    var i :| 0 <= i < |index| && index[i] == EntryAt(paths, path, verb);
    assert ReversedIndex(index)[i] == EntryAt(Reverse(paths), path, verb);
  }

  lemma ReverseIsIndex(paths: Doc, index: seq<Entry>)
    requires WellFormed(paths) && IsIndex(paths, index)
    ensures IsIndex(Reverse(paths), ReversedIndex(index))
  {
    var p2, x2 := Reverse(paths), ReversedIndex(index);
    forall p, v | IsOperation(p2, p, v) ensures Indexed(p2, x2, p, v) {
      ReverseOperation(paths, p, v);
      ReverseIndexed(paths, index, p, v);
    }
    forall e | e in x2 ensures exists v :: Indexed(p2, x2, e.path, v) && e == EntryAt(p2, e.path, v) {
      var i :| 0 <= i < |x2| && x2[i] == e;
      var v :| Indexed(paths, index, index[i].path, v) && index[i] == EntryAt(paths, index[i].path, v);
      ReverseIndexed(paths, index, index[i].path, v);
    }
  }

  // ----- a clash of names shows -----

  lemma CompiledNames(u: Unicode, document: Doc, headers: Doc, hs: seq<HeaderIr>)
    requires headers.Obj? && CompileHeaders(u, document, headers) == J.Some(hs)
    ensures HeaderNames(hs) == Sorted(Names(headers), HeaderKey(u))
  {
    var names := Sorted(Names(headers), HeaderKey(u));
    var f := (name: string) => CompileHeader(document, headers, name);
    TraverseAt(f, names);
    forall i | 0 <= i < |names| ensures hs[i].name == names[i] {
      assert f(names[i]) == J.Some(hs[i]);
    }
  }

  /** The headers a response declares, once its reference is resolved. */
  function DeclaredHeaders(document: Doc, raw: Doc): J.Option<Doc> {
    match Resolve(document, raw)
    case Some(r) => J.Some(GetOr(r, "headers", Obj([])))
    case None => J.None
  }

  lemma CompiledResponseHeaders(u: Unicode, document: Doc, responses: Doc, status: string, r: ResponseIr)
    requires Has(responses, status) && CompileResponse(u, document, responses, status) == J.Some(r)
    ensures var h := DeclaredHeaders(document, At(responses.members, status));
      h.Some? && h.value.Obj? && HeaderNames(r.headers) == Sorted(Names(h.value), HeaderKey(u))
  {
    CompiledNames(u, document, DeclaredHeaders(document, At(responses.members, status)).value, r.headers);
  }

  lemma ReverseDeclared(document: Doc, raw: Doc)
    requires WellFormed(document) && WellFormed(raw) && Resolve(document, raw).Some?
    ensures WellFormed(DeclaredHeaders(document, raw).value)
    ensures DeclaredHeaders(Reverse(document), Reverse(raw)) == J.Some(Reverse(DeclaredHeaders(document, raw).value))
  {
    ReverseResolve(document, raw, "headers");
    ResolveWellFormed(document, raw);
    var r := Resolve(document, raw).value;
    if Has(r, "headers") {
      WellFormedAt(r, "headers");
    }
    assert Reverse(Obj([])) == Obj([]);
  }

  lemma NamesClash(u: Unicode, headers: Doc)
    requires WellFormed(headers) && headers.Obj? && Reverse(headers).Obj?
    requires Sorted(Names(headers), HeaderKey(u)) == Sorted(Names(Reverse(headers)), HeaderKey(u))
    ensures CaseDistinct(u, headers)
  {
    ReversedNames(headers);
    SortedAlikeKeyed(Names(headers), HeaderKey(u));
  }

  lemma ResponseClash(u: Unicode, document: Doc, responses: Doc, status: string, a: ResponseIr, b: ResponseIr)
    requires WellFormed(document) && WellFormed(responses) && Has(responses, status)
    requires CompileResponse(u, document, responses, status) == J.Some(a)
    requires CompileResponse(u, Reverse(document), Reverse(responses), status) == J.Some(b)
    requires HeaderNames(a.headers) == HeaderNames(b.headers)
    ensures ResponseCaseDistinct(u, document, At(responses.members, status))
  {
    var raw := At(responses.members, status);
    ReverseMember(responses, status);
    WellFormedAt(responses, status);
    CompiledResponseHeaders(u, document, responses, status, a);
    CompiledResponseHeaders(u, Reverse(document), Reverse(responses), status, b);
    ReverseDeclared(document, raw);
    NamesClash(u, DeclaredHeaders(document, raw).value);
  }

  lemma StatusesAlike(u: Unicode, document: Doc, responses: Doc)
    requires WellFormed(document) && WellFormed(responses) && ResponsesValid(u, document, responses)
    ensures Reverse(responses).Obj? && Sorted(Names(Reverse(responses)), StatusKey) == Sorted(Names(responses), StatusKey)
  {
    StatusKeyed(u, document, responses);
    ReversePaired(document, responses);
    ReverseObject(responses.members);
    SortedNamesSame(responses, Reverse(responses), StatusKey);
  }

  lemma StatusesClash(u: Unicode, document: Doc, responses: Doc, a: seq<ResponseIr>, b: seq<ResponseIr>, status: string)
    requires WellFormed(document) && WellFormed(responses) && ResponsesValid(u, document, responses) && Has(responses, status)
    requires Reverse(responses).Obj?
    requires CompileStatuses(u, document, responses) == J.Some(a)
    requires CompileStatuses(u, Reverse(document), Reverse(responses)) == J.Some(b)
    requires |a| == |b| && forall j :: 0 <= j < |a| ==> HeaderNames(a[j].headers) == HeaderNames(b[j].headers)
    ensures ResponseCaseDistinct(u, document, At(responses.members, status))
  {
    StatusesAlike(u, document, responses);
    var statuses := Sorted(Names(responses), StatusKey);
    var f, g := (s: string) => CompileResponse(u, document, responses, s),
                (s: string) => CompileResponse(u, Reverse(document), Reverse(responses), s);
    TraverseAt(f, statuses);
    TraverseAt(g, statuses);
    SortedNames(responses, StatusKey);
    var j :| 0 <= j < |statuses| && statuses[j] == status;
    assert f(statuses[j]) == J.Some(a[j]) && g(statuses[j]) == J.Some(b[j]);
    ResponseClash(u, document, responses, status, a[j], b[j]);
  }

  lemma OperationClash(u: Unicode, document: Doc, operation: Doc, a: seq<ResponseIr>, b: seq<ResponseIr>)
    requires WellFormed(document) && WellFormed(operation) && ResponsesValid(u, document, GetOr(operation, "responses", Null))
    requires CompileAllResponses(u, document, operation) == J.Some(a)
    requires CompileAllResponses(u, Reverse(document), Reverse(operation)) == J.Some(b)
    requires |a| == |b| && forall j :: 0 <= j < |a| ==> HeaderNames(a[j].headers) == HeaderNames(b[j].headers)
    ensures OperationCaseDistinct(u, document, operation)
  {
    var responses := GetOr(operation, "responses", Null);
    ReverseGetOr(operation, "responses", Null);
    WellFormedAt(operation, "responses");
    forall s | s in Keys(responses.members) ensures ResponseCaseDistinct(u, document, At(responses.members, s)) {
      StatusesClash(u, document, responses, a, b, s);
    }
  }

  lemma EntryClash(u: Unicode, document: Doc, e: Entry, a: OperationIr, b: OperationIr)
    requires WellFormed(document) && WellFormed(e.operation) && EntryParts(u, document, e)
    requires CompileEntry(u, document, e) == J.Some(a)
    requires CompileEntry(u, Reverse(document), ReversedEntry(e)) == J.Some(b)
    requires HeadersAlike(a, b)
    ensures OperationCaseDistinct(u, document, e.operation)
  {
    OperationClash(u, document, e.operation, a.responses, b.responses);
  }

  lemma EntryWellFormed(paths: Doc, index: seq<Entry>, e: Entry)
    requires WellFormed(paths) && IsIndex(paths, index) && e in index
    ensures WellFormed(e.operation)
  {
    var v :| Indexed(paths, index, e.path, v) && e == EntryAt(paths, e.path, v);
    WellFormedAt(paths, e.path);
    WellFormedAt(At(paths.members, e.path), v);
  }

  /** Where the compiled operation of an entry stands. */
  lemma Compiled(u: Unicode, document: Doc, index: seq<Entry>, ops: seq<OperationIr>, e: Entry) returns (i: nat)
    requires forall i, j :: 0 <= i < j < |index| ==> index[i].id != index[j].id
    requires Compile(u, document, index) == J.Some(ops) && e in index
    ensures i < |ops| && i < |Sorted(Ids(index), TextKey)| && Sorted(Ids(index), TextKey)[i] == e.id
    ensures CompileEntry(u, document, e) == J.Some(ops[i])
  {
    var ids := Sorted(Ids(index), TextKey);
    var f := (id: string) => CompileId(u, document, index, id);
    TraverseAt(f, ids);
    SameElements(Ids(index), ids);
    var k :| 0 <= k < |index| && index[k] == e;
    assert Ids(index)[k] in Ids(index);
    i :| 0 <= i < |ids| && ids[i] == e.id;
    assert f(ids[i]) == J.Some(ops[i]);
    FoundById(index, e);
  }

  /** The same place holds the operation of the reversed entry. */
  lemma CompiledAt(u: Unicode, document: Doc, index: seq<Entry>, ops: seq<OperationIr>, e: Entry, i: nat)
    requires forall i, j :: 0 <= i < j < |index| ==> index[i].id != index[j].id
    requires Compile(u, document, index) == J.Some(ops) && e in index
    requires i < |Sorted(Ids(index), TextKey)| && Sorted(Ids(index), TextKey)[i] == e.id
    ensures i < |ops| && CompileEntry(u, document, e) == J.Some(ops[i])
  {
    var ids := Sorted(Ids(index), TextKey);
    var f := (id: string) => CompileId(u, document, index, id);
    TraverseAt(f, ids);
    assert f(ids[i]) == J.Some(ops[i]);
    FoundById(index, e);
  }

  lemma AlikeAt(u: Unicode, d: Doc, x: seq<Entry>, a: seq<OperationIr>, b: seq<OperationIr>, e: Entry)
    requires WellFormed(d) && WellFormed(e.operation) && EntryParts(u, d, e) && e in x
    requires forall i, j :: 0 <= i < j < |x| ==> x[i].id != x[j].id
    requires Compile(u, d, x) == J.Some(a) && Compile(u, Reverse(d), ReversedIndex(x)) == J.Some(b)
    requires |a| == |b| && forall i :: 0 <= i < |a| ==> HeadersAlike(a[i], b[i])
    ensures OperationCaseDistinct(u, d, e.operation)
  {
    assert Ids(ReversedIndex(x)) == Ids(x);
    var i := Compiled(u, d, x, a, e);
    var k :| 0 <= k < |x| && x[k] == e;
    assert ReversedIndex(x)[k] == ReversedEntry(e);
    CompiledAt(u, Reverse(d), ReversedIndex(x), b, ReversedEntry(e), i);
    EntryClash(u, d, e, a[i], b[i]);
  }

  lemma EntryInOrder(u: Unicode, d: Doc, x: seq<Entry>, e: Entry)
    requires WellFormed(d) && DocumentValid(u, d) && IsIndex(GetOr(d, "paths", Null), x) && e in x
    ensures WellFormed(e.operation) && EntryParts(u, d, e)
  {
    var paths := GetOr(d, "paths", Null);
    WellFormedAt(d, "paths");
    ValidEntry(u, d, paths, x, e);
    EntryWellFormed(paths, x, e);
  }

  /** If the reversed document renders to the same text, no header names clash. */
  lemma AlikeDistinct(u: Unicode, d: Doc, x: seq<Entry>, a: seq<OperationIr>, b: seq<OperationIr>)
    requires WellFormed(d) && DocumentValid(u, d) && IsIndex(GetOr(d, "paths", Null), x)
    requires Compile(u, d, x) == J.Some(a) && Compile(u, Reverse(d), ReversedIndex(x)) == J.Some(b)
    requires Render(a) == Render(b)
    ensures AllCaseDistinct(u, d, x)
  {
    RenderedAlike(a, b);
    forall e | e in x ensures OperationCaseDistinct(u, d, e.operation) {
      EntryInOrder(u, d, x, e);
      AlikeAt(u, d, x, a, b, e);
    }
  }

  // ----- exactly when the order is forgotten -----

  /** `d2` is the same document up to member order, and `x2` its index. */
  ghost predicate Reordered(d1: Doc, d2: Doc, x2: seq<Entry>) {
    WellFormed(d2) && Same(d1, d2) && IsIndex(GetOr(d2, "paths", Null), x2)
  }

  /** Both compile, to the same text. */
  predicate RendersAlike(u: Unicode, d1: Doc, x1: seq<Entry>, d2: Doc, x2: seq<Entry>) {
    && Compile(u, d1, x1).Some? && Compile(u, d2, x2).Some?
    && Render(Compile(u, d1, x1).value) == Render(Compile(u, d2, x2).value)
  }

  lemma ReversedReorders(d: Doc, x: seq<Entry>)
    requires WellFormed(d) && Has(d, "paths") && IsIndex(GetOr(d, "paths", Null), x)
    ensures Reordered(d, Reverse(d), ReversedIndex(x))
  {
    ReversePaired(d, d);
    ReverseGetOr(d, "paths", Null);
    WellFormedAt(d, "paths");
    ReverseIsIndex(GetOr(d, "paths", Null), x);
  }

  /** A document that is accepted and compiles is accepted in all its member orders, and
      renders to one text in all of them exactly when no response has two header names equal ignoring case. */
  lemma OrderForgottenExactly(u: Unicode, d: Doc, x: seq<Entry>)
    requires WellFormed(d) && DocumentValid(u, d) && IsIndex(GetOr(d, "paths", Null), x) && NullFree(d, x)
    ensures forall d2, x2 :: Reordered(d, d2, x2) ==> DocumentValid(u, d2)
    ensures AllCaseDistinct(u, d, x) <==> forall d2, x2 :: Reordered(d, d2, x2) ==> RendersAlike(u, d, x, d2, x2)
  {
    EveryOrderAccepted(u, d);
    ExactlyAlike(u, d, x);
  }

  lemma EveryOrderAccepted(u: Unicode, d: Doc)
    requires WellFormed(d) && DocumentValid(u, d)
    ensures forall d2, x2 :: Reordered(d, d2, x2) ==> DocumentValid(u, d2)
  {
    forall d2, x2 | Reordered(d, d2, x2) ensures DocumentValid(u, d2) {
      FrontendAcceptance.DocumentAccepted(u, d, d2);
    }
  }

  lemma ExactlyAlike(u: Unicode, d: Doc, x: seq<Entry>)
    requires WellFormed(d) && DocumentValid(u, d) && IsIndex(GetOr(d, "paths", Null), x) && NullFree(d, x)
    ensures AllCaseDistinct(u, d, x) <==> forall d2, x2 :: Reordered(d, d2, x2) ==> RendersAlike(u, d, x, d2, x2)
  {
    CompilesExactly(u, d, x);
    if AllCaseDistinct(u, d, x) {
      forall d2, x2 | Reordered(d, d2, x2) ensures RendersAlike(u, d, x, d2, x2) {
        Canonical(u, d, d2, x, x2);
      }
    } else {
      ReversedReorders(d, x);
      if RendersAlike(u, d, x, Reverse(d), ReversedIndex(x)) {
        AlikeDistinct(u, d, x, Compile(u, d, x).value, Compile(u, Reverse(d), ReversedIndex(x)).value);
      }
    }
  }
}
