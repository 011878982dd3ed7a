/** References inside an ordered document, and one level of resolution with siblings. */
module FrontendDocument {
  import J = Json
  import Pointers
  import opened OrderedJson

  function Walk(d: Doc, path: seq<string>): J.Option<Doc>
    decreases |path|
  {
    if path == [] then J.Some(d)
    else if Has(d, path[0]) then Walk(At(d.members, path[0]), path[1..])
    else J.None
  }

  /** What a local reference denotes. */
  function Target(document: Doc, reference: string): J.Option<Doc> {
    if "#/" <= reference then Walk(document, Pointers.UnescapeAll(Pointers.Split(reference[2..], '/'))) else J.None
  }

  /** `mapping[member.key] = member.value`. */
  function Put(members: seq<Member>, member: Member): seq<Member> {
    if member.key in Keys(members) then members[IndexOf(members, member.key) := member] else members + [member]
  }

  /** A copy of `base` updated with every sibling of the reference. */
  function WithSiblings(base: seq<Member>, siblings: seq<Member>): seq<Member> {
    if siblings == [] then base
    else
      var front, last := siblings[..|siblings| - 1], siblings[|siblings| - 1];
      if last.key == "$ref" then WithSiblings(base, front) else Put(WithSiblings(base, front), last)
  }

  /** `resolve`: None where the script raises. */
  function Resolve(document: Doc, value: Doc): J.Option<Doc> {
    if !Has(value, "$ref") then J.Some(value)
    else
      var reference := At(value.members, "$ref");
      if !reference.Str? then J.None
      else
        match Target(document, reference.s)
        case None => J.None
        case Some(current) =>
          if |value.members| == 1 then J.Some(current)
          else if !current.Obj? then J.None
          else J.Some(Obj(WithSiblings(current.members, value.members)))
  }

  method ResolveValue(document: Doc, value: Doc) returns (r: J.Option<Doc>)
    ensures r == Resolve(document, value)
  {
    if !Has(value, "$ref") {
      return J.Some(value);
    }
    var reference := At(value.members, "$ref");
    if !reference.Str? || !("#/" <= reference.s) {
      return J.None;
    }
    var tokens := Pointers.Split(reference.s[2..], '/');
    ghost var keys := Pointers.UnescapeAll(tokens);
    var current := document;
    for i := 0 to |tokens|
      invariant Walk(document, keys) == Walk(current, keys[i..])
    {
      var key := Pointers.Unescape(tokens[i]);
      assert keys[i..][0] == key && keys[i..][1..] == keys[i + 1..];
      if !Has(current, key) {
        return J.None;
      }
      current := At(current.members, key);
    }
    if |value.members| == 1 {
      return J.Some(current);
    }
    if !current.Obj? {
      return J.None;
    }
    var merged := current.members;
    for i := 0 to |value.members|
      invariant merged == WithSiblings(current.members, value.members[..i])
    {
      assert value.members[..i + 1][..i] == value.members[..i];
      if value.members[i].key != "$ref" {
        merged := Put(merged, value.members[i]);
      }
    }
    assert value.members[..|value.members|] == value.members;
    r := J.Some(Obj(merged));
  }

  // ----- what resolution means -----

  /** The ordered and the unordered resolver follow a path to the same value. */
  lemma {:induction false} WalkValue(d: Doc, path: seq<string>)
    ensures match Walk(d, path)
      case Some(r) => Pointers.Walk(Value(d), path) == J.Some(Value(r))
      case None => Pointers.Walk(Value(d), path) == J.None
    decreases |path|
  {
    if path != [] && Has(d, path[0]) {
      assert Value(d).members[path[0]] == Value(At(d.members, path[0]));
      WalkValue(At(d.members, path[0]), path[1..]);
    }
  }

  /** Resolving the reference built from any path of arbitrary keys finds what lies there. */
  lemma PointerInverse(document: Doc, path: seq<string>)
    requires path != []
    ensures Target(document, Pointers.Reference(path)) == Walk(document, path)
  {
    Pointers.ReferenceTokens(path);
  }

  lemma WalkSame(a: Doc, b: Doc, path: seq<string>)
    requires Same(a, b)
    ensures Walk(a, path).Some? <==> Walk(b, path).Some?
    ensures Walk(a, path).Some? ==> Same(Walk(a, path).value, Walk(b, path).value)
  {
    WalkValue(a, path);
    WalkValue(b, path);
  }

  lemma {:induction false} WalkWellFormed(d: Doc, path: seq<string>)
    requires WellFormed(d)
    ensures Walk(d, path).Some? ==> WellFormed(Walk(d, path).value)
    decreases |path|
  {
    if path != [] && Has(d, path[0]) {
      WalkWellFormed(At(d.members, path[0]), path[1..]);
    }
  }

  lemma PutKeys(members: seq<Member>, member: Member)
    ensures Keys(Put(members, member)) == Keys(members) + {member.key}
  {
    var r := Put(members, member);
    forall k | k in Keys(members) ensures k in Keys(r) {
      var i :| 0 <= i < |members| && members[i].key == k;
      assert r[i].key == k;
    }
    if member.key !in Keys(members) {
      assert r[|members|] == member;
    }
  }

  lemma PutDistinct(members: seq<Member>, member: Member)
    requires DistinctMembers(members)
    ensures DistinctMembers(Put(members, member))
    ensures forall k :: k in Keys(Put(members, member)) ==>
      At(Put(members, member), k) == if k == member.key then member.value else if k in Keys(members) then At(members, k) else Null
  {
    var r := Put(members, member);
    PutKeys(members, member);
    forall k | k in Keys(r)
      ensures At(r, k) == if k == member.key then member.value else if k in Keys(members) then At(members, k) else Null
    {
      var i := IndexOf(r, k);
      if k != member.key {
        assert r[i] == members[i];
        IndexUnique(members, i);
      }
    }
  }

  function Merged(base: seq<Member>, siblings: seq<Member>, key: string): Doc {
    if key in Keys(siblings) && key != "$ref" then At(siblings, key) else if key in Keys(base) then At(base, key) else Null
  }

  /** Siblings win over the target's own members; the reference itself is dropped. */
  lemma {:induction false} SiblingsMerge(base: seq<Member>, siblings: seq<Member>)
    requires DistinctMembers(base) && DistinctMembers(siblings)
    ensures DistinctMembers(WithSiblings(base, siblings))
    ensures Keys(WithSiblings(base, siblings)) == Keys(base) + (Keys(siblings) - {"$ref"})
    ensures forall k :: k in Keys(WithSiblings(base, siblings)) ==> At(WithSiblings(base, siblings), k) == Merged(base, siblings, k)
  {
    if siblings != [] {
      var n := |siblings| - 1;
      var front, last := siblings[..n], siblings[n];
      SiblingsMerge(base, front);
      FrontKeys(siblings);
      var merged := WithSiblings(base, front);
      PutKeys(merged, last);
      PutDistinct(merged, last);
    }
  }

  lemma FrontKeys(members: seq<Member>)
    requires members != [] && DistinctMembers(members)
    ensures var n := |members| - 1;
      && Keys(members) == Keys(members[..n]) + {members[n].key}
      && members[n].key !in Keys(members[..n])
      && At(members, members[n].key) == members[n].value
      && forall k :: k in Keys(members[..n]) ==> At(members, k) == At(members[..n], k)
  {
    var n := |members| - 1;
    var front := members[..n];
    forall k | k in Keys(members) ensures k in Keys(front) + {members[n].key} {
      var i :| 0 <= i < |members| && members[i].key == k;
      if i < n { assert front[i].key == k; }
    }
    IndexUnique(members, n);
    forall k | k in Keys(front) ensures k in Keys(members) && At(members, k) == At(front, k) {
      var i := IndexOf(front, k);
      assert members[i] == front[i];
      IndexUnique(members, i);
    }
  }

  lemma {:induction false} DistinctCount(members: seq<Member>)
    requires DistinctMembers(members)
    ensures |Keys(members)| == |members|
  {
    if members != [] {
      FrontKeys(members);
      DistinctCount(members[..|members| - 1]);
    }
  }

  lemma ResolveWellFormed(document: Doc, value: Doc)
    requires WellFormed(document) && WellFormed(value) && Resolve(document, value).Some?
    ensures WellFormed(Resolve(document, value).value)
  {
    if Has(value, "$ref") {
      var reference := At(value.members, "$ref").s;
      WalkWellFormed(document, Pointers.UnescapeAll(Pointers.Split(reference[2..], '/')));
      var current := Target(document, reference).value;
      if |value.members| != 1 {
        SiblingsMerge(current.members, value.members);
        MergedWellFormed(current.members, value.members);
      }
    }
  }

  lemma MergedWellFormed(base: seq<Member>, siblings: seq<Member>)
    requires WellFormed(Obj(base)) && WellFormed(Obj(siblings))
    ensures WellFormed(Obj(WithSiblings(base, siblings)))
  {
    SiblingsMerge(base, siblings);
    var merged := WithSiblings(base, siblings);
    forall i | 0 <= i < |merged| ensures WellFormed(merged[i].value) {
      var k := merged[i].key;
      IndexUnique(merged, i);
      assert At(merged, k) == merged[i].value;
    }
  }

  lemma SameByMembers(a: seq<Member>, b: seq<Member>)
    requires Keys(a) == Keys(b) && forall k :: k in Keys(a) ==> Same(At(a, k), At(b, k))
    ensures Same(Obj(a), Obj(b))
  {
    assert Value(Obj(a)).members == Value(Obj(b)).members;
  }

  /** Resolution does not look at member order. */
  lemma ResolveSame(d1: Doc, d2: Doc, v1: Doc, v2: Doc)
    requires WellFormed(d1) && WellFormed(d2) && WellFormed(v1) && WellFormed(v2)
    requires Same(d1, d2) && Same(v1, v2)
    ensures Resolve(d1, v1).Some? <==> Resolve(d2, v2).Some?
    ensures Resolve(d1, v1).Some? ==> Same(Resolve(d1, v1).value, Resolve(d2, v2).value)
  {
    SameMember(v1, v2, "$ref");
    if Has(v1, "$ref") {
      var r1, r2 := At(v1.members, "$ref"), At(v2.members, "$ref");
      SameScalarOrShape(r1, r2);
      DistinctCount(v1.members);
      DistinctCount(v2.members);
      SameObjects(v1, v2);
      if r1.Str? && "#/" <= r1.s {
        WalkSame(d1, d2, Pointers.UnescapeAll(Pointers.Split(r1.s[2..], '/')));
        if Target(d1, r1.s).Some? && |v1.members| != 1 {
          WalkWellFormed(d1, Pointers.UnescapeAll(Pointers.Split(r1.s[2..], '/')));
          WalkWellFormed(d2, Pointers.UnescapeAll(Pointers.Split(r1.s[2..], '/')));
          SiblingsSame(Target(d1, r1.s).value, Target(d2, r1.s).value, v1, v2);
        }
      }
    }
  }

  lemma SameScalarOrShape(a: Doc, b: Doc)
    requires Same(a, b)
    ensures a.Arr? <==> b.Arr?
    ensures a.Obj? <==> b.Obj?
    ensures !a.Arr? && !a.Obj? ==> a == b
  {
  }

  lemma MergedSame(c1: Doc, c2: Doc, v1: Doc, v2: Doc, key: string)
    requires c1.Obj? && c2.Obj? && v1.Obj? && v2.Obj? && Same(c1, c2) && Same(v1, v2)
    ensures Same(Merged(c1.members, v1.members, key), Merged(c2.members, v2.members, key))
  {
    SameObjects(c1, c2);
    SameObjects(v1, v2);
  }

  lemma SiblingsSame(c1: Doc, c2: Doc, v1: Doc, v2: Doc)
    requires WellFormed(c1) && WellFormed(c2) && WellFormed(v1) && WellFormed(v2)
    requires v1.Obj? && Same(c1, c2) && Same(v1, v2)
    ensures v2.Obj? && (c1.Obj? <==> c2.Obj?)
    ensures c1.Obj? ==> Same(Obj(WithSiblings(c1.members, v1.members)), Obj(WithSiblings(c2.members, v2.members)))
  {
    SameObjects(c1, c2);
    SameObjects(v1, v2);
    if c1.Obj? {
      SiblingsSameMembers(c1, c2, v1, v2);
    }
  }

  lemma SiblingsSameMembers(c1: Doc, c2: Doc, v1: Doc, v2: Doc)
    requires c1.Obj? && c2.Obj? && v1.Obj? && v2.Obj? && Same(c1, c2) && Same(v1, v2)
    requires DistinctMembers(c1.members) && DistinctMembers(c2.members)
    requires DistinctMembers(v1.members) && DistinctMembers(v2.members)
    requires Keys(c1.members) == Keys(c2.members) && Keys(v1.members) == Keys(v2.members)
    ensures Same(Obj(WithSiblings(c1.members, v1.members)), Obj(WithSiblings(c2.members, v2.members)))
  {
    var a, b := WithSiblings(c1.members, v1.members), WithSiblings(c2.members, v2.members);
    SiblingsMerge(c1.members, v1.members);
    SiblingsMerge(c2.members, v2.members);
    forall k | k in Keys(a) ensures Same(At(a, k), At(b, k)) {
      MergedSame(c1, c2, v1, v2, k);
    }
    SameByMembers(a, b);
  }
}
