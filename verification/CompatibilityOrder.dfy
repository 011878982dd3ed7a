/** The schema comparison as an order, at a fixed set of roles: when a schema accepts
    itself, and when two accepted steps make an accepted step. */
module CompatibilityOrder {
  import opened Json
  import opened SchemaRoles
  import opened Compatibility

  const KEYWORDS := {"$ref", "type", "format"}

  lemma AcceptsUnfold(before: Json, now: Json, roles: set<Role>)
    requires before.Obj? && now.Obj?
    ensures Accepts(before, now, roles) <==>
      && CompareKeyword(before, now, roles, "$ref") == []
      && CompareKeyword(before, now, roles, "type") == []
      && CompareKeyword(before, now, roles, "format") == []
      && CompareEnum(before, now, roles) == []
      && (ComparesItems(before) ==> Get(now, "items").Obj? && Accepts(before.members["items"], Get(now, "items"), roles))
  {
  }

  // ----- reflexivity -----

  /** Every compared enum is a list, or absent. */
  predicate EnumsShaped(schema: Json)
    requires schema.Obj?
    decreases schema
  {
    && (Get(schema, "enum").Arr? || Get(schema, "enum").Null?)
    && (ComparesItems(schema) ==> EnumsShaped(schema.members["items"]))
  }

  lemma SelfIn(xs: seq<Json>)
    ensures forall i :: 0 <= i < |xs| ==> PyIn(xs[i], xs)
  {
    forall i | 0 <= i < |xs| ensures PyIn(xs[i], xs) { assert PyEq(xs[i], xs[i]); }
  }

  /** A schema is an acceptable successor of itself exactly when its enums are lists. */
  lemma {:induction false} Reflexive(schema: Json, roles: set<Role>)
    requires schema.Obj?
    ensures Accepts(schema, schema, roles) <==> EnumsShaped(schema)
    decreases schema
  {
    AcceptsUnfold(schema, schema, roles);
    if Get(schema, "enum").Arr? {
      SelfIn(Get(schema, "enum").items);
    }
    if ComparesItems(schema) {
      Reflexive(schema.members["items"], roles);
    }
  }

  // ----- transitivity -----

  /** No compared keyword is present with an explicit null. */
  predicate NullFree(schema: Json)
    requires schema.Obj?
    decreases schema
  {
    && (forall k :: k in KEYWORDS && k in schema.members ==> schema.members[k] != Null)
    && (ComparesItems(schema) ==> NullFree(schema.members["items"]))
  }

  lemma FoldNull(a: Json)
    ensures PyFold(a) == Null <==> a == Null
  {
  }

  lemma KeywordTransitive(a: Json, b: Json, c: Json, roles: set<Role>, keyword: string)
    requires a.Obj? && b.Obj? && c.Obj?
    requires Request in roles || (keyword in a.members ==> a.members[keyword] != Null)
    requires CompareKeyword(a, b, roles, keyword) == [] && CompareKeyword(b, c, roles, keyword) == []
    ensures CompareKeyword(a, c, roles, keyword) == []
  {
    if keyword in a.members {
      FoldNull(a.members[keyword]);
    }
  }

  lemma InTransitive(xs: seq<Json>, ys: seq<Json>, zs: seq<Json>)
    requires forall i :: 0 <= i < |xs| ==> PyIn(xs[i], ys)
    requires forall i :: 0 <= i < |ys| ==> PyIn(ys[i], zs)
    ensures forall i :: 0 <= i < |xs| ==> PyIn(xs[i], zs)
  {
    forall i | 0 <= i < |xs| ensures PyIn(xs[i], zs) {
      var j :| 0 <= j < |ys| && PyEq(xs[i], ys[j]);
      var k :| 0 <= k < |zs| && PyEq(ys[j], zs[k]);
      assert PyEq(xs[i], zs[k]);
    }
  }

  lemma EnumTransitive(a: Json, b: Json, c: Json, roles: set<Role>)
    requires a.Obj? && b.Obj? && c.Obj?
    requires CompareEnum(a, b, roles) == [] && CompareEnum(b, c, roles) == []
    ensures CompareEnum(a, c, roles) == []
  {
    var x, y, z := Get(a, "enum"), Get(b, "enum"), Get(c, "enum");
    if x.Arr? && y.Arr? && z.Arr? {
      if Request in roles { InTransitive(x.items, y.items, z.items); }
      if Response in roles { InTransitive(z.items, y.items, x.items); }
    }
  }

  /** Two accepted steps make an accepted step, through nested items and enums, unless a
      keyword is an explicit null and only responses are compared. */
  lemma {:induction false} Transitive(a: Json, b: Json, c: Json, roles: set<Role>)
    requires a.Obj? && b.Obj? && c.Obj?
    requires Request in roles || NullFree(a)
    requires Accepts(a, b, roles) && Accepts(b, c, roles)
    ensures Accepts(a, c, roles)
    decreases a
  {
    AcceptsUnfold(a, b, roles);
    AcceptsUnfold(b, c, roles);
    AcceptsUnfold(a, c, roles);
    KeywordTransitive(a, b, c, roles, "$ref");
    KeywordTransitive(a, b, c, roles, "type");
    KeywordTransitive(a, b, c, roles, "format");
    EnumTransitive(a, b, c, roles);
    if ComparesItems(a) {
      TypeArrayKept(a, b, roles);
      Transitive(a.members["items"], b.members["items"], Get(c, "items"), roles);
    }
  }

  lemma TypeArrayKept(a: Json, b: Json, roles: set<Role>)
    requires a.Obj? && b.Obj? && Get(a, "type") == Str("array")
    requires CompareKeyword(a, b, roles, "type") == []
    ensures Get(b, "type") == Str("array")
  {
    assert PyFold(Get(b, "type")) == Str("array");
  }

  // ----- and only then: the two steps that drift -----

  /** `schema` with its explicit nulls and malformed enums dropped. */
  function Cleared(schema: Json): (r: Json)
    requires schema.Obj?
    ensures r.Obj?
    decreases schema
  {
    var kept := map k | k in schema.members
      && !(k in KEYWORDS && schema.members[k] == Null)
      && !(k == "enum" && !schema.members[k].Arr?)
      && (k == "items" ==> !ComparesItems(schema)) :: schema.members[k];
    Obj(if ComparesItems(schema) then kept["items" := Cleared(schema.members["items"])] else kept)
  }

  predicate NullKeyword(schema: Json, k: string)
    requires schema.Obj?
  {
    k in KEYWORDS && k in schema.members && schema.members[k] == Null
  }

  /** `Cleared(schema)` with one of the dropped nulls replaced by a real value. */
  function Drifted(schema: Json): (r: Json)
    requires schema.Obj?
    ensures r.Obj?
    decreases schema
  {
    if NullKeyword(schema, "$ref") then Obj(Cleared(schema).members["$ref" := Str("")])
    else if NullKeyword(schema, "type") then Obj(Cleared(schema).members["type" := Str("")])
    else if NullKeyword(schema, "format") then Obj(Cleared(schema).members["format" := Str("")])
    else if ComparesItems(schema) then Obj(Cleared(schema).members["items" := Drifted(schema.members["items"])])
    else Cleared(schema)
  }

  lemma {:induction false} ToCleared(schema: Json, roles: set<Role>)
    requires schema.Obj?
    ensures Accepts(schema, Cleared(schema), roles)
    decreases schema
  {
    var now := Cleared(schema);
    AcceptsUnfold(schema, now, roles);
    if Get(schema, "enum").Arr? {
      SelfIn(Get(schema, "enum").items);
    }
    if ComparesItems(schema) {
      ToCleared(schema.members["items"], roles);
    }
  }

  lemma {:induction false} ToDrifted(schema: Json, roles: set<Role>)
    requires schema.Obj? && Request !in roles
    ensures Accepts(Cleared(schema), Drifted(schema), roles)
    decreases schema
  {
    var before, now := Cleared(schema), Drifted(schema);
    AcceptsUnfold(before, now, roles);
    if Get(before, "enum").Arr? {
      SelfIn(Get(before, "enum").items);
    }
    if ComparesItems(schema) {
      ToDrifted(schema.members["items"], roles);
      if !(NullKeyword(schema, "$ref") || NullKeyword(schema, "type") || NullKeyword(schema, "format")) {
      } else {
        ClearedSelf(schema.members["items"], roles);
      }
    }
  }

  lemma ClearedSelf(schema: Json, roles: set<Role>)
    requires schema.Obj?
    ensures Accepts(Cleared(schema), Cleared(schema), roles)
  {
    ClearedShaped(schema);
    Reflexive(Cleared(schema), roles);
  }

  lemma {:induction false} ClearedShaped(schema: Json)
    requires schema.Obj?
    ensures EnumsShaped(Cleared(schema))
    decreases schema
  {
    if ComparesItems(schema) {
      ClearedShaped(schema.members["items"]);
    }
  }

  lemma {:induction false} DriftRefused(schema: Json, roles: set<Role>)
    requires schema.Obj? && !NullFree(schema)
    ensures !Accepts(schema, Drifted(schema), roles)
    decreases schema
  {
    AcceptsUnfold(schema, Drifted(schema), roles);
    if NullKeyword(schema, "$ref") {
    } else if NullKeyword(schema, "type") {
    } else if NullKeyword(schema, "format") {
    } else {
      DriftRefused(schema.members["items"], roles);
    }
  }

  /** No pair of accepted steps from `schema` drifts into a refused one exactly when
      requests are compared or no compared keyword of it is an explicit null. */
  lemma TransitiveExactly(schema: Json, roles: set<Role>)
    requires schema.Obj?
    ensures (forall b: Json, c: Json :: b.Obj? && c.Obj? && Accepts(schema, b, roles) && Accepts(b, c, roles) ==> Accepts(schema, c, roles))
      <==> (Request in roles || NullFree(schema))
  {
    if Request in roles || NullFree(schema) {
      forall b: Json, c: Json | b.Obj? && c.Obj? && Accepts(schema, b, roles) && Accepts(b, c, roles)
        ensures Accepts(schema, c, roles)
      {
        Transitive(schema, b, c, roles);
      }
    } else {
      ToCleared(schema, roles);
      ToDrifted(schema, roles);
      DriftRefused(schema, roles);
    }
  }
}
