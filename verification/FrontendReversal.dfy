/** A document with the members of every object in reverse order: what the compiler sees of
    it, for showing where its output does depend on the order. */
module FrontendReversal {
  import J = Json
  import Pointers
  import opened Sorting
  import opened OrderedJson
  import opened FrontendDocument
  import opened FrontendValidator
  import opened FrontendCompiler
  import opened FrontendCanonical

  function Reverse(d: Doc): Doc {
    match d
    case Arr(xs) => Arr(seq(|xs|, i requires 0 <= i < |xs| => Reverse(xs[i])))
    case Obj(ms) => Obj(seq(|ms|, i requires 0 <= i < |ms| => Member(ms[|ms| - 1 - i].key, Reverse(ms[|ms| - 1 - i].value))))
    case _ => d
  }

  function ReversedMembers(ms: seq<Member>): (r: seq<Member>)
    ensures |r| == |ms|
    ensures forall i :: 0 <= i < |r| ==> r[i] == Member(ms[|ms| - 1 - i].key, Reverse(ms[|ms| - 1 - i].value))
  {
    seq(|ms|, i requires 0 <= i < |ms| => Member(ms[|ms| - 1 - i].key, Reverse(ms[|ms| - 1 - i].value)))
  }

  lemma ReverseObject(ms: seq<Member>)
    ensures Reverse(Obj(ms)) == Obj(ReversedMembers(ms))
  {
    assert Reverse(Obj(ms)).members == ReversedMembers(ms);
  }

  lemma ReversedKeys(ms: seq<Member>)
    ensures Keys(ReversedMembers(ms)) == Keys(ms)
    ensures DistinctMembers(ms) ==> DistinctMembers(ReversedMembers(ms))
  {
    var r := ReversedMembers(ms);
    forall k | k in Keys(ms) ensures k in Keys(r) {
      var i :| 0 <= i < |ms| && ms[i].key == k;
      assert r[|ms| - 1 - i].key == k;
    }
    forall k | k in Keys(r) ensures k in Keys(ms) {
      var i :| 0 <= i < |r| && r[i].key == k;
      assert ms[|ms| - 1 - i].key == k;
    }
  }

  lemma ReversedAt(ms: seq<Member>, key: string)
    requires DistinctMembers(ms) && key in Keys(ms)
    ensures key in Keys(ReversedMembers(ms)) && At(ReversedMembers(ms), key) == Reverse(At(ms, key))
  {
    ReversedKeys(ms);
    var r := ReversedMembers(ms);
    var i := IndexOf(r, key);
    assert ms[|ms| - 1 - i].key == key;
    IndexUnique(ms, |ms| - 1 - i);
  }

  /** Looking a key up in the reversed object gives the reversed value. */
  lemma ReverseMember(d: Doc, key: string)
    requires WellFormed(d)
    ensures Has(Reverse(d), key) <==> Has(d, key)
    ensures Has(d, key) ==> At(Reverse(d).members, key) == Reverse(At(d.members, key))
  {
    if d.Obj? {
      ReverseObject(d.members);
      ReversedKeys(d.members);
      if Has(d, key) {
        ReversedAt(d.members, key);
      }
    }
  }

  lemma ReverseGetOr(d: Doc, key: string, default: Doc)
    requires WellFormed(d)
    ensures GetOr(Reverse(d), key, Reverse(default)) == Reverse(GetOr(d, key, default))
  {
    ReverseMember(d, key);
  }

  lemma {:induction false} ReverseWellFormed(d: Doc)
    requires WellFormed(d)
    ensures WellFormed(Reverse(d))
    decreases d
  {
    match d
    case Arr(xs) =>
      forall i | 0 <= i < |xs| ensures WellFormed(Reverse(xs[i])) { ReverseWellFormed(xs[i]); }
    case Obj(ms) =>
      ReverseObject(ms);
      ReversedKeys(ms);
      forall i | 0 <= i < |ms| ensures WellFormed(ReversedMembers(ms)[i].value) { ReverseWellFormed(ms[|ms| - 1 - i].value); }
    case _ =>
  }

  lemma {:induction false} ReverseSame(d: Doc)
    requires WellFormed(d)
    ensures Same(Reverse(d), d)
    decreases d
  {
    match d
    case Arr(xs) =>
      forall i | 0 <= i < |xs| ensures Same(Reverse(xs[i]), xs[i]) { ReverseSame(xs[i]); }
      assert Value(Reverse(d)).items == Value(d).items;
    case Obj(ms) =>
      ReverseObject(ms);
      ReversedKeys(ms);
      forall k | k in Keys(ms) ensures Same(At(ReversedMembers(ms), k), At(ms, k)) {
        ReversedAt(ms, k);
        ReverseSame(At(ms, k));
      }
      SameByMembers(ReversedMembers(ms), ms);
    case _ =>
  }

  lemma ReversePaired(d: Doc, a: Doc)
    requires WellFormed(d) && WellFormed(a)
    ensures Paired(d, Reverse(d), a, Reverse(a))
  {
    ReverseWellFormed(d);
    ReverseSame(d);
    ReverseWellFormed(a);
    ReverseSame(a);
  }

  /** A well-formed object lists no name twice; the reversed one lists them backwards. */
  lemma ReversedNames(d: Doc)
    requires WellFormed(d) && d.Obj?
    ensures Reverse(d).Obj? && Names(Reverse(d)) == Reversed(Names(d)) && NoRepeats(Names(d))
  {
    ReverseObject(d.members);
    assert Names(Reverse(d)) == Reversed(Names(d));
  }

  // ----- resolution -----

  lemma {:induction false} ReverseWalk(d: Doc, path: seq<string>)
    requires WellFormed(d)
    ensures Walk(Reverse(d), path).Some? <==> Walk(d, path).Some?
    ensures Walk(d, path).Some? ==> Walk(Reverse(d), path).value == Reverse(Walk(d, path).value)
    decreases |path|
  {
    if path != [] {
      ReverseMember(d, path[0]);
      if Has(d, path[0]) {
        ReverseWalk(At(d.members, path[0]), path[1..]);
      }
    }
  }

  lemma MergedReversed(base: seq<Member>, siblings: seq<Member>, key: string)
    requires DistinctMembers(base) && DistinctMembers(siblings)
    ensures Merged(ReversedMembers(base), ReversedMembers(siblings), key) == Reverse(Merged(base, siblings, key))
  {
    ReversedKeys(base);
    ReversedKeys(siblings);
    if key in Keys(base) { ReversedAt(base, key); }
    if key in Keys(siblings) { ReversedAt(siblings, key); }
  }

  /** Merging siblings may change the order of the result, but each value is the reversed one. */
  lemma SiblingsReversed(base: seq<Member>, siblings: seq<Member>, key: string)
    requires DistinctMembers(base) && DistinctMembers(siblings)
    ensures var r, t := WithSiblings(base, siblings), WithSiblings(ReversedMembers(base), ReversedMembers(siblings));
      && (key in Keys(t) <==> key in Keys(r))
      && (key in Keys(r) ==> At(t, key) == Reverse(At(r, key)))
  {
    ReversedKeys(base);
    ReversedKeys(siblings);
    SiblingsMerge(base, siblings);
    SiblingsMerge(ReversedMembers(base), ReversedMembers(siblings));
    MergedReversed(base, siblings, key);
  }

  /** What a reversed reference resolves to has the reversed value under every key. */
  ghost predicate ReversedUnder(r: Doc, t: Doc, key: string) {
    && (t.Obj? <==> r.Obj?)
    && (Has(t, key) <==> Has(r, key))
    && (Has(r, key) ==> At(t.members, key) == Reverse(At(r.members, key)))
  }

  lemma ReverseUnder(d: Doc, key: string)
    requires WellFormed(d)
    ensures ReversedUnder(d, Reverse(d), key)
  {
    ReverseMember(d, key);
  }

  lemma ReverseTarget(document: Doc, reference: string)
    requires WellFormed(document)
    ensures Target(Reverse(document), reference).Some? <==> Target(document, reference).Some?
    ensures Target(document, reference).Some? ==>
      && WellFormed(Target(document, reference).value)
      && Target(Reverse(document), reference).value == Reverse(Target(document, reference).value)
  {
    if "#/" <= reference {
      ReverseWalk(document, Pointers.UnescapeAll(Pointers.Split(reference[2..], '/')));
      WalkWellFormed(document, Pointers.UnescapeAll(Pointers.Split(reference[2..], '/')));
    }
  }

  lemma ReverseResolve(document: Doc, value: Doc, key: string)
    requires WellFormed(document) && WellFormed(value) && Resolve(document, value).Some?
    ensures Resolve(Reverse(document), Reverse(value)).Some?
    ensures ReversedUnder(Resolve(document, value).value, Resolve(Reverse(document), Reverse(value)).value, key)
  {
    ReverseMember(value, "$ref");
    if Has(value, "$ref") {
      var reference := At(value.members, "$ref").s;
      ReverseTarget(document, reference);
      ReverseObject(value.members);
      var current := Target(document, reference).value;
      if |value.members| == 1 {
        ReverseUnder(current, key);
      } else {
        ReverseObject(current.members);
        SiblingsReversed(current.members, value.members, key);
      }
    } else {
      ReverseUnder(value, key);
    }
  }
}
