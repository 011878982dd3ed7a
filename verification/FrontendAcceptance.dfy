/** Acceptance does not depend on the member order of the document's objects. */
module FrontendAcceptance {
  import J = Json
  import opened OrderedJson
  import opened FrontendDocument
  import opened FrontendValidator
  import opened FrontendCanonical

  // ----- schemas -----

  lemma ItemPaired(d1: Doc, d2: Doc, a: Doc, b: Doc)
    requires Paired(d1, d2, a, b)
    ensures a.Arr? <==> b.Arr?
    ensures a.Arr? ==> |a.items| == |b.items| && forall i :: 0 <= i < |a.items| ==> Paired(d1, d2, a.items[i], b.items[i])
  {
    SameItems(a, b);
  }

  lemma KeysSame(a: Doc, b: Doc)
    requires Same(a, b)
    ensures a.Obj? <==> b.Obj?
    ensures a.Obj? ==> Keys(a.members) == Keys(b.members)
  {
    SameObjects(a, b);
  }

  lemma {:induction false} SchemaValidSame(d1: Doc, d2: Doc, a: Doc, b: Doc)
    requires Paired(d1, d2, a, b) && SchemaValid(d1, a)
    ensures SchemaValid(d2, b)
    decreases a, 1
  {
    KeysSame(a, b);
    ResolvedPaired(d1, d2, a, b);
    PropertiesSame(d1, d2, a, b);
    forall k | k in SINGLE_CHILD && k in Keys(b.members) && At(b.members, k).Obj? ensures SchemaValid(d2, At(b.members, k)) {
      MemberPaired(d1, d2, a, b, k);
      KeysSame(At(a.members, k), At(b.members, k));
      SchemaValidSame(d1, d2, At(a.members, k), At(b.members, k));
    }
    forall k | k in MANY_CHILDREN && k in Keys(b.members) && At(b.members, k) != Null
      ensures At(b.members, k).Arr? && forall i :: 0 <= i < |At(b.members, k).items| ==> SchemaValid(d2, At(b.members, k).items[i])
    {
      MemberPaired(d1, d2, a, b, k);
      ChildrenSame(d1, d2, At(a.members, k), At(b.members, k));
    }
  }

  lemma {:induction false} ChildrenSame(d1: Doc, d2: Doc, a: Doc, b: Doc)
    requires Paired(d1, d2, a, b) && a.Arr?
    requires forall i :: 0 <= i < |a.items| ==> SchemaValid(d1, a.items[i])
    ensures b.Arr? && forall i :: 0 <= i < |b.items| ==> SchemaValid(d2, b.items[i])
    decreases a
  {
    ItemPaired(d1, d2, a, b);
    forall i | 0 <= i < |b.items| ensures SchemaValid(d2, b.items[i]) {
      SchemaValidSame(d1, d2, a.items[i], b.items[i]);
    }
  }

  lemma {:induction false} PropertiesSame(d1: Doc, d2: Doc, a: Doc, b: Doc)
    requires Paired(d1, d2, a, b) && a.Obj? && b.Obj? && PropertiesValid(d1, a)
    ensures PropertiesValid(d2, b)
    decreases a, 0
  {
    MemberPaired(d1, d2, a, b, "properties");
    if "properties" in Keys(b.members) && At(b.members, "properties") != Null {
      var x, y := At(a.members, "properties"), At(b.members, "properties");
      KeysSame(x, y);
      SameScalarOrShape(x, y);
      forall p | p in Keys(y.members) ensures SchemaValid(d2, At(y.members, p)) {
        MemberPaired(d1, d2, x, y, p);
        SchemaValidSame(d1, d2, At(x.members, p), At(y.members, p));
      }
    }
  }

  // ----- contents, parameters, headers -----

  lemma PermissiveSame(a: Doc, b: Doc)
    requires WellFormed(a) && WellFormed(b) && Same(a, b)
    ensures Permissive(a) <==> Permissive(b)
  {
    KeysSame(a, b);
    if a.Obj? {
      DistinctCount(a.members);
      DistinctCount(b.members);
      ScalarSame(a, b, "type", Null);
    }
  }

  lemma MediaValidSame(u: Unicode, d1: Doc, d2: Doc, text: string, a: Doc, b: Doc, problemOnly: bool)
    requires Paired(d1, d2, a, b) && MediaValid(u, d1, text, a, problemOnly)
    ensures MediaValid(u, d2, text, b, problemOnly)
  {
    MemberPaired(d1, d2, a, b, "schema");
    var x, y := At(a.members, "schema"), At(b.members, "schema");
    SchemaValidSame(d1, d2, x, y);
    ResolvedPaired(d1, d2, x, y);
    if Resolve(d1, x).Some? {
      PermissiveSame(Resolve(d1, x).value, Resolve(d2, y).value);
    }
  }

  lemma NotEmptySame(a: Doc, b: Doc)
    requires WellFormed(a) && WellFormed(b) && Same(a, b) && a.Obj? && a.members != []
    ensures b.Obj? && b.members != []
  {
    KeysSame(a, b);
    DistinctCount(a.members);
    DistinctCount(b.members);
  }

  lemma ContentValidSame(u: Unicode, d1: Doc, d2: Doc, a: Doc, b: Doc, problemOnly: bool)
    requires Paired(d1, d2, a, b)
    ensures ContentValid(u, d1, a, problemOnly) ==> ContentValid(u, d2, b, problemOnly)
  {
    if ContentValid(u, d1, a, problemOnly) {
      NotEmptySame(a, b);
      KeysSame(a, b);
      forall t | t in Keys(b.members) ensures MediaValid(u, d2, t, At(b.members, t), problemOnly) {
        MemberPaired(d1, d2, a, b, t);
        MediaValidSame(u, d1, d2, t, At(a.members, t), At(b.members, t), problemOnly);
      }
    }
  }

  lemma ParameterShapedSame(d1: Doc, d2: Doc, p: Doc, q: Doc)
    requires Paired(d1, d2, p, q) && ParameterShaped(d1, p)
    ensures ParameterShaped(d2, q)
  {
    KeysSame(p, q);
    ScalarSame(p, q, "in", Null);
    ScalarSame(p, q, "name", Null);
    ScalarSame(p, q, "required", Null);
    var location := GetOr(p, "in", Null).s;
    ScalarSame(p, q, "style", Str(ExpectedStyle(location)));
    ScalarSame(p, q, "explode", Bool(location == "query"));
    MemberPaired(d1, d2, p, q, "schema");
    SchemaValidSame(d1, d2, At(p.members, "schema"), At(q.members, "schema"));
  }

  lemma ParameterValidSame(d1: Doc, d2: Doc, a: Doc, b: Doc)
    requires Paired(d1, d2, a, b) && ParameterValid(d1, a)
    ensures ParameterValid(d2, b) && PathName(d2, b) == PathName(d1, a)
  {
    ResolvedPaired(d1, d2, a, b);
    var p, q := Resolve(d1, a).value, Resolve(d2, b).value;
    ParameterShapedSame(d1, d2, p, q);
    ScalarSame(p, q, "in", Null);
    ScalarSame(p, q, "name", Null);
  }

  lemma HeaderShapedSame(d1: Doc, d2: Doc, h: Doc, k: Doc)
    requires Paired(d1, d2, h, k) && h.Obj? && !Has(h, "content") && Has(h, "schema") && SchemaValid(d1, At(h.members, "schema"))
    requires GetOr(h, "style", Str("simple")) == Str("simple") && GetOr(h, "explode", Bool(false)) == Bool(false)
    ensures k.Obj? && !Has(k, "content") && Has(k, "schema") && SchemaValid(d2, At(k.members, "schema"))
    ensures GetOr(k, "style", Str("simple")) == Str("simple") && GetOr(k, "explode", Bool(false)) == Bool(false)
  {
    KeysSame(h, k);
    ScalarSame(h, k, "style", Str("simple"));
    ScalarSame(h, k, "explode", Bool(false));
    MemberPaired(d1, d2, h, k, "schema");
    SchemaValidSame(d1, d2, At(h.members, "schema"), At(k.members, "schema"));
  }

  lemma HeaderValidSame(d1: Doc, d2: Doc, name: string, a: Doc, b: Doc)
    requires Paired(d1, d2, a, b) && HeaderValid(d1, name, a)
    ensures HeaderValid(d2, name, b)
  {
    ResolvedPaired(d1, d2, a, b);
    HeaderShapedSame(d1, d2, Resolve(d1, a).value, Resolve(d2, b).value);
  }

  lemma HeadersValidSame(d1: Doc, d2: Doc, a: Doc, b: Doc)
    requires Paired(d1, d2, a, b) && HeadersValid(d1, a)
    ensures HeadersValid(d2, b)
  {
    KeysSame(a, b);
    SameScalarOrShape(a, b);
    if b.Obj? {
      forall name | name in Keys(b.members) ensures HeaderValid(d2, name, At(b.members, name)) {
        MemberPaired(d1, d2, a, b, name);
        HeaderValidSame(d1, d2, name, At(a.members, name), At(b.members, name));
      }
    }
  }

  // ----- responses, bodies, security -----

  lemma GetOrPaired(d1: Doc, d2: Doc, a: Doc, b: Doc, key: string, default: Doc)
    requires Paired(d1, d2, a, b) && WellFormed(default)
    ensures Paired(d1, d2, GetOr(a, key, default), GetOr(b, key, default))
    ensures GetOr(a, key, default) == Null <==> GetOr(b, key, default) == Null
  {
    GetOrSame(a, b, key, default);
    SameScalarOrShape(GetOr(a, key, default), GetOr(b, key, default));
  }

  lemma ResponseContentSame(u: Unicode, d1: Doc, d2: Doc, status: string, r: Doc, t: Doc)
    requires StatusShaped(status) && Paired(d1, d2, r, t) && ResponseShaped(u, d1, status, r)
    ensures GetOr(t, "content", Null) != Null ==>
      && ContentValid(u, d2, GetOr(t, "content", Null), false)
      && (StatusNumber(status) >= 400 ==> ContentValid(u, d2, GetOr(t, "content", Null), true))
  {
    GetOrPaired(d1, d2, r, t, "content", Null);
    ContentValidSame(u, d1, d2, GetOr(r, "content", Null), GetOr(t, "content", Null), false);
    ContentValidSame(u, d1, d2, GetOr(r, "content", Null), GetOr(t, "content", Null), true);
  }

  lemma ResponseShapedSame(u: Unicode, d1: Doc, d2: Doc, status: string, r: Doc, t: Doc)
    requires StatusShaped(status) && Paired(d1, d2, r, t) && ResponseShaped(u, d1, status, r)
    ensures ResponseShaped(u, d2, status, t)
  {
    KeysSame(r, t);
    GetOrPaired(d1, d2, r, t, "headers", Obj([]));
    HeadersValidSame(d1, d2, GetOr(r, "headers", Obj([])), GetOr(t, "headers", Obj([])));
    ResponseContentSame(u, d1, d2, status, r, t);
  }

  lemma ResponseValidSame(u: Unicode, d1: Doc, d2: Doc, status: string, a: Doc, b: Doc)
    requires Paired(d1, d2, a, b) && ResponseValid(u, d1, status, a)
    ensures ResponseValid(u, d2, status, b)
  {
    ResolvedPaired(d1, d2, a, b);
    ResponseShapedSame(u, d1, d2, status, Resolve(d1, a).value, Resolve(d2, b).value);
  }

  lemma ResponsesValidSame(u: Unicode, d1: Doc, d2: Doc, a: Doc, b: Doc)
    requires Paired(d1, d2, a, b) && ResponsesValid(u, d1, a)
    ensures ResponsesValid(u, d2, b)
  {
    NotEmptySame(a, b);
    KeysSame(a, b);
    forall s | s in Keys(b.members) ensures ResponseValid(u, d2, s, At(b.members, s)) {
      MemberPaired(d1, d2, a, b, s);
      ResponseValidSame(u, d1, d2, s, At(a.members, s), At(b.members, s));
    }
  }

  lemma BodyValidSame(u: Unicode, d1: Doc, d2: Doc, a: Doc, b: Doc)
    requires Paired(d1, d2, a, b) && BodyValid(u, d1, a)
    ensures BodyValid(u, d2, b)
  {
    SameScalarOrShape(a, b);
    if b != Null {
      ResolvedPaired(d1, d2, a, b);
      var x, y := Resolve(d1, a).value, Resolve(d2, b).value;
      KeysSame(x, y);
      ScalarSame(x, y, "required", Null);
      GetOrPaired(d1, d2, x, y, "content", Null);
      ContentValidSame(u, d1, d2, GetOr(x, "content", Null), GetOr(y, "content", Null), false);
    }
  }

  lemma RequirementValidSame(d1: Doc, d2: Doc, a: Doc, b: Doc)
    requires Paired(d1, d2, a, b) && RequirementValid(a)
    ensures RequirementValid(b)
  {
    KeysSame(a, b);
    forall k | k in Keys(b.members) ensures At(b.members, k) == Arr([]) {
      MemberPaired(d1, d2, a, b, k);
      ItemPaired(d1, d2, At(a.members, k), At(b.members, k));
    }
  }

  lemma SecurityValidSame(d1: Doc, d2: Doc, a: Doc, b: Doc)
    requires Paired(d1, d2, a, b) && SecurityValid(a)
    ensures SecurityValid(b)
  {
    SameScalarOrShape(a, b);
    ItemPaired(d1, d2, a, b);
    if b != Null {
      forall i | 0 <= i < |b.items| ensures RequirementValid(b.items[i]) {
        RequirementValidSame(d1, d2, a.items[i], b.items[i]);
      }
    }
  }

  // ----- operations -----

  lemma PathNamesSame(d1: Doc, d2: Doc, xs: seq<Doc>, ys: seq<Doc>)
    requires |xs| == |ys| && forall i :: 0 <= i < |xs| ==> PathName(d1, xs[i]) == PathName(d2, ys[i])
    ensures PathNames(d1, xs) == PathNames(d2, ys)
  {
    forall name | name in PathNames(d1, xs) ensures name in PathNames(d2, ys) {
      var i :| 0 <= i < |xs| && PathName(d1, xs[i]) == J.Some(name);
      assert PathName(d2, ys[i]) == J.Some(name);
    }
    forall name | name in PathNames(d2, ys) ensures name in PathNames(d1, xs) {
      var i :| 0 <= i < |ys| && PathName(d2, ys[i]) == J.Some(name);
      assert PathName(d1, xs[i]) == J.Some(name);
    }
  }

  lemma ParametersValidSame(d1: Doc, d2: Doc, i1: Doc, i2: Doc, o1: Doc, o2: Doc)
    requires Paired(d1, d2, i1, i2) && Paired(d1, d2, o1, o2)
    requires ParametersOf(i1).Arr? && ParametersOf(o1).Arr?
    requires forall i :: 0 <= i < |AllParameters(i1, o1)| ==> ParameterValid(d1, AllParameters(i1, o1)[i])
    ensures ParametersOf(i2).Arr? && ParametersOf(o2).Arr?
    ensures forall i :: 0 <= i < |AllParameters(i2, o2)| ==> ParameterValid(d2, AllParameters(i2, o2)[i])
    ensures PathNames(d2, AllParameters(i2, o2)) == PathNames(d1, AllParameters(i1, o1))
  {
    AllParametersPaired(d1, d2, i1, i2, o1, o2);
    var xs, ys := AllParameters(i1, o1), AllParameters(i2, o2);
    forall i | 0 <= i < |ys| ensures ParameterValid(d2, ys[i]) && PathName(d1, xs[i]) == PathName(d2, ys[i]) {
      ParameterValidSame(d1, d2, xs[i], ys[i]);
    }
    PathNamesSame(d1, d2, xs, ys);
  }

  lemma SecurityPaired(d1: Doc, d2: Doc, a: Doc, b: Doc)
    requires Paired(d1, d2, a, b)
    ensures Paired(d1, d2, SecurityOf(d1, a), SecurityOf(d2, b))
  {
    GetOrPaired(d1, d2, d1, d2, "security", Arr([]));
    MemberPaired(d1, d2, a, b, "security");
  }

  lemma IdentifierSame(d1: Doc, d2: Doc, a: Doc, b: Doc)
    requires Paired(d1, d2, a, b) && a.Obj? && GetOr(a, "operationId", Null).Str?
    ensures b.Obj? && GetOr(b, "operationId", Null) == GetOr(a, "operationId", Null)
  {
    KeysSame(a, b);
    ScalarSame(a, b, "operationId", Null);
  }

  /** An operation is accepted or refused alike in every member order of the document, of
      its path item and of itself. */
  lemma OperationAccepted(u: Unicode, d1: Doc, d2: Doc, path: string, i1: Doc, i2: Doc, o1: Doc, o2: Doc)
    requires Paired(d1, d2, i1, i2) && Paired(d1, d2, o1, o2)
    requires OperationValid(u, d1, path, i1, o1)
    ensures OperationValid(u, d2, path, i2, o2)
  {
    IdentifierSame(d1, d2, o1, o2);
    ParametersValidSame(d1, d2, i1, i2, o1, o2);
    SecurityPaired(d1, d2, o1, o2);
    SecurityValidSame(d1, d2, SecurityOf(d1, o1), SecurityOf(d2, o2));
    GetOrPaired(d1, d2, o1, o2, "requestBody", Null);
    BodyValidSame(u, d1, d2, GetOr(o1, "requestBody", Null), GetOr(o2, "requestBody", Null));
    GetOrPaired(d1, d2, o1, o2, "responses", Null);
    ResponsesValidSame(u, d1, d2, GetOr(o1, "responses", Null), GetOr(o2, "responses", Null));
  }

  lemma OperationAcceptedExactly(u: Unicode, d1: Doc, d2: Doc, path: string, i1: Doc, i2: Doc, o1: Doc, o2: Doc)
    requires Paired(d1, d2, i1, i2) && Paired(d1, d2, o1, o2)
    ensures OperationValid(u, d1, path, i1, o1) <==> OperationValid(u, d2, path, i2, o2)
  {
    PairedSymmetric(d1, d2, i1, i2);
    PairedSymmetric(d1, d2, o1, o2);
    if OperationValid(u, d1, path, i1, o1) {
      OperationAccepted(u, d1, d2, path, i1, i2, o1, o2);
    } else if OperationValid(u, d2, path, i2, o2) {
      OperationAccepted(u, d2, d1, path, i2, i1, o2, o1);
    }
  }

  // ----- documents -----

  lemma PathAccepted(u: Unicode, d1: Doc, d2: Doc, path: string, a: Doc, b: Doc)
    requires Paired(d1, d2, a, b) && PathValid(u, d1, path, a)
    ensures PathValid(u, d2, path, b)
  {
    KeysSame(a, b);
    forall verb | verb in Keys(b.members) && !Skipped(verb)
      ensures verb in HTTP_METHODS && OperationValid(u, d2, path, b, At(b.members, verb))
    {
      MemberPaired(d1, d2, a, b, verb);
      OperationAcceptedExactly(u, d1, d2, path, a, b, At(a.members, verb), At(b.members, verb));
    }
  }

  lemma IdSameAt(u: Unicode, d1: Doc, d2: Doc, a: Doc, b: Doc, path: string, verb: string)
    requires Paired(d1, d2, a, b) && IsOperation(b, path, verb) && PathsValid(u, d1, a)
    ensures IsOperation(a, path, verb) && IdAt(a, path, verb) == IdAt(b, path, verb)
  {
    MemberPaired(d1, d2, a, b, path);
    MemberPaired(d1, d2, At(a.members, path), At(b.members, path), verb);
    assert PathValid(u, d1, path, At(a.members, path));
    IdentifierSame(d1, d2, OperationAt(a, path, verb), OperationAt(b, path, verb));
  }

  lemma PathsAccepted(u: Unicode, d1: Doc, d2: Doc, a: Doc, b: Doc)
    requires Paired(d1, d2, a, b) && PathsValid(u, d1, a)
    ensures PathsValid(u, d2, b)
  {
    KeysSame(a, b);
    forall path | path in Keys(b.members) ensures PathValid(u, d2, path, At(b.members, path)) {
      MemberPaired(d1, d2, a, b, path);
      PathAccepted(u, d1, d2, path, At(a.members, path), At(b.members, path));
    }
    forall p, v, q, w | IsOperation(b, p, v) && IsOperation(b, q, w) && IdAt(b, p, v) == IdAt(b, q, w) ensures p == q && v == w {
      IdSameAt(u, d1, d2, a, b, p, v);
      IdSameAt(u, d1, d2, a, b, q, w);
    }
  }

  lemma {:induction false} RepairFreeSame(a: Doc, b: Doc)
    requires WellFormed(a) && WellFormed(b) && Same(a, b) && RepairFree(a)
    ensures RepairFree(b)
    decreases a
  {
    SameScalarOrShape(a, b);
    if b.Arr? {
      SameItems(a, b);
      forall i | 0 <= i < |b.items| ensures RepairFree(b.items[i]) { RepairFreeSame(a.items[i], b.items[i]); }
    }
    if b.Obj? {
      SameObjects(a, b);
      forall i | 0 <= i < |b.members| ensures b.members[i].key !in FORBIDDEN_REPAIR_EXTENSIONS && RepairFree(b.members[i].value) {
        IndexUnique(b.members, i);
        var j := IndexOf(a.members, b.members[i].key);
        RepairFreeSame(a.members[j].value, b.members[i].value);
      }
    }
  }

  lemma ComponentsAccepted(d1: Doc, d2: Doc, a: Doc, b: Doc)
    requires Paired(d1, d2, a, b) && ComponentsValid(d1, a)
    ensures ComponentsValid(d2, b)
  {
    KeysSame(a, b);
    GetOrPaired(d1, d2, a, b, "securitySchemes", Obj([]));
    KeysSame(GetOr(a, "securitySchemes", Obj([])), GetOr(b, "securitySchemes", Obj([])));
    GetOrPaired(d1, d2, a, b, "schemas", Obj([]));
    var x, y := GetOr(a, "schemas", Obj([])), GetOr(b, "schemas", Obj([]));
    KeysSame(x, y);
    forall name | name in Keys(y.members) ensures SchemaValid(d2, At(y.members, name)) {
      MemberPaired(d1, d2, x, y, name);
      SchemaValidSame(d1, d2, At(x.members, name), At(y.members, name));
    }
  }

  lemma DocumentAccepted(u: Unicode, d1: Doc, d2: Doc)
    requires WellFormed(d1) && WellFormed(d2) && Same(d1, d2) && DocumentValid(u, d1)
    ensures DocumentValid(u, d2)
  {
    KeysSame(d1, d2);
    ScalarSame(d1, d2, "openapi", Null);
    RepairFreeSame(d1, d2);
    GetOrPaired(d1, d2, d1, d2, "components", Null);
    ComponentsAccepted(d1, d2, GetOr(d1, "components", Null), GetOr(d2, "components", Null));
    GetOrPaired(d1, d2, d1, d2, "paths", Null);
    PathsAccepted(u, d1, d2, GetOr(d1, "paths", Null), GetOr(d2, "paths", Null));
  }

  /** A document is accepted or refused alike in every member order. */
  lemma DocumentAcceptedExactly(u: Unicode, d1: Doc, d2: Doc)
    requires WellFormed(d1) && WellFormed(d2) && Same(d1, d2)
    ensures DocumentValid(u, d1) <==> DocumentValid(u, d2)
  {
    if DocumentValid(u, d1) {
      DocumentAccepted(u, d1, d2);
    } else if DocumentValid(u, d2) {
      DocumentAccepted(u, d2, d1);
    }
  }
}
