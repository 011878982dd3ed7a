/** JSON documents as parsed texts: an object is a list of members, so that what does and
    does not depend on member order can be told apart. */
module OrderedJson {
  import J = Json
  import opened Sorting

  datatype Doc =
    | Null
    | Bool(b: bool)
    | Num(n: real)
    | Str(s: string)
    | Arr(items: seq<Doc>)
    | Obj(members: seq<Member>)

  datatype Member = Member(key: string, value: Doc)

  function Keys(members: seq<Member>): set<string> {
    set i | 0 <= i < |members| :: members[i].key
  }

  function IndexOf(members: seq<Member>, key: string): (i: nat)
    requires key in Keys(members)
    ensures i < |members| && members[i].key == key
  {
    if members[0].key == key then 0
    else
      assert exists j :: 0 <= j < |members[1..]| && members[1..][j].key == key by {
        var j :| 0 <= j < |members| && members[j].key == key;
        assert members[1..][j - 1].key == key;
      }
      1 + IndexOf(members[1..], key)
  }

  function At(members: seq<Member>, key: string): Doc
    requires key in Keys(members)
  {
    members[IndexOf(members, key)].value
  }

  predicate Has(d: Doc, key: string) {
    d.Obj? && key in Keys(d.members)
  }

  /** `mapping.get(key)`, telling an absent key from an explicit null. */
  function Get(d: Doc, key: string): J.Option<Doc> {
    if Has(d, key) then J.Some(At(d.members, key)) else J.None
  }

  function GetOr(d: Doc, key: string, default: Doc): Doc {
    if Has(d, key) then At(d.members, key) else default
  }

  predicate DistinctMembers(members: seq<Member>) {
    forall i, j :: 0 <= i < j < |members| ==> members[i].key != members[j].key
  }

  /** No object repeats a key: what every Python dictionary satisfies. */
  predicate WellFormed(d: Doc) {
    match d
    case Arr(xs) => forall i :: 0 <= i < |xs| ==> WellFormed(xs[i])
    case Obj(ms) => DistinctMembers(ms) && forall i :: 0 <= i < |ms| ==> WellFormed(ms[i].value)
    case _ => true
  }

  /** The value of a document: its members without their order. */
  function Value(d: Doc): J.Json {
    match d
    case Null => J.Null
    case Bool(b) => J.Bool(b)
    case Num(n) => J.Num(n)
    case Str(s) => J.Str(s)
    case Arr(xs) => J.Arr(seq(|xs|, i requires 0 <= i < |xs| => Value(xs[i])))
    case Obj(ms) => J.Obj(map k | k in Keys(ms) :: Value(ms[IndexOf(ms, k)].value))
  }

  /** Two documents that differ at most in the member order of their objects. */
  ghost predicate Same(a: Doc, b: Doc) {
    Value(a) == Value(b)
  }

  // ----- looking things up -----

  lemma IndexUnique(members: seq<Member>, i: nat)
    requires DistinctMembers(members) && i < |members|
    ensures members[i].key in Keys(members) && IndexOf(members, members[i].key) == i
  {
    var j := IndexOf(members, members[i].key);
    assert !(i < j) && !(j < i);
  }

  lemma SameObjects(a: Doc, b: Doc)
    requires Same(a, b)
    ensures a.Obj? <==> b.Obj?
    ensures a.Obj? ==> Keys(a.members) == Keys(b.members)
    ensures a.Obj? ==> forall k :: k in Keys(a.members) ==> Same(At(a.members, k), At(b.members, k))
  {
    if a.Obj? {
      assert Value(a).members.Keys == Keys(a.members);
      assert Value(b).members.Keys == Keys(b.members);
      forall k | k in Keys(a.members) ensures Same(At(a.members, k), At(b.members, k)) {
        assert Value(a).members[k] == Value(At(a.members, k));
        assert Value(b).members[k] == Value(At(b.members, k));
      }
    }
  }

  lemma SameMember(a: Doc, b: Doc, key: string)
    requires Same(a, b)
    ensures Has(a, key) <==> Has(b, key)
    ensures Has(a, key) ==> Same(At(a.members, key), At(b.members, key))
  {
    SameObjects(a, b);
  }

  lemma SameItems(a: Doc, b: Doc)
    requires Same(a, b)
    ensures a.Arr? <==> b.Arr?
    ensures a.Arr? ==> |a.items| == |b.items| && forall i :: 0 <= i < |a.items| ==> Same(a.items[i], b.items[i])
  {
    if a.Arr? {
      forall i | 0 <= i < |a.items| ensures Same(a.items[i], b.items[i]) {
        assert Value(a).items[i] == Value(a.items[i]);
        assert Value(b).items[i] == Value(b.items[i]);
      }
    }
  }

  lemma SameScalar(a: Doc, b: Doc)
    requires Same(a, b) && !a.Arr? && !a.Obj?
    ensures a == b
  {
  }

  lemma WellFormedAt(d: Doc, key: string)
    requires WellFormed(d) && Has(d, key)
    ensures WellFormed(At(d.members, key))
  {
  }

  // ----- the canonical form -----

  function MemberKey(m: Member): Key {
    Text(m.key)
  }

  /** `json.loads(json.dumps(value, sort_keys=True))`. */
  function SortKeys(d: Doc): Doc {
    match d
    case Arr(xs) => Arr(seq(|xs|, i requires 0 <= i < |xs| => SortKeys(xs[i])))
    case Obj(ms) => Obj(Sorted(seq(|ms|, i requires 0 <= i < |ms| => Member(ms[i].key, SortKeys(ms[i].value))), MemberKey))
    case _ => d
  }

  function SortedValues(ms: seq<Member>): (r: seq<Member>)
    ensures |r| == |ms|
    ensures forall i :: 0 <= i < |r| ==> r[i] == Member(ms[i].key, SortKeys(ms[i].value))
  {
    seq(|ms|, i requires 0 <= i < |ms| => Member(ms[i].key, SortKeys(ms[i].value)))
  }

  lemma SortKeysOfObject(ms: seq<Member>)
    ensures SortKeys(Obj(ms)) == Obj(Sorted(SortedValues(ms), MemberKey))
  {
    assert SortedValues(ms) == seq(|ms|, i requires 0 <= i < |ms| => Member(ms[i].key, SortKeys(ms[i].value)));
  }

  /** Equal values have equal canonical forms, whatever their member orders. */
  lemma {:induction false} SortKeysForgetsOrder(a: Doc, b: Doc)
    requires WellFormed(a) && WellFormed(b) && Same(a, b)
    ensures SortKeys(a) == SortKeys(b)
    decreases a
  {
    match a
    case Arr(xs) =>
      SameItems(a, b);
      forall i | 0 <= i < |xs| ensures SortKeys(xs[i]) == SortKeys(b.items[i]) {
        SortKeysForgetsOrder(xs[i], b.items[i]);
      }
      assert SortKeys(a).items == SortKeys(b).items;
    case Obj(ms) =>
      SameObjects(a, b);
      var x, y := SortedValues(ms), SortedValues(b.members);
      forall m | m in x ensures m in y {
        var i :| 0 <= i < |x| && x[i] == m;
        IndexUnique(ms, i);
        var j := IndexOf(b.members, ms[i].key);
        assert Same(ms[i].value, b.members[j].value);
        SortKeysForgetsOrder(ms[i].value, b.members[j].value);
        assert y[j] == m;
      }
      forall m | m in y ensures m in x {
        var j :| 0 <= j < |y| && y[j] == m;
        IndexUnique(b.members, j);
        var i := IndexOf(ms, b.members[j].key);
        assert Same(ms[i].value, b.members[j].value);
        SortKeysForgetsOrder(ms[i].value, b.members[j].value);
        assert x[i] == m;
      }
      assert DistinctKeys(x, MemberKey) && DistinctKeys(y, MemberKey);
      KeysNoRepeats(x, MemberKey);
      KeysNoRepeats(y, MemberKey);
      SameListing(x, y);
      DistinctKeyed(x, MemberKey);
      SortedForgetsOrder(x, y, MemberKey);
      SortKeysOfObject(ms);
      SortKeysOfObject(b.members);
    case _ => SameScalar(a, b);
  }

  lemma SortedKeys(ms: seq<Member>)
    ensures Keys(Sorted(SortedValues(ms), MemberKey)) == Keys(ms)
  {
    var x := SortedValues(ms);
    var y := Sorted(x, MemberKey);
    SameElements(x, y);
    forall k | k in Keys(y) ensures k in Keys(ms) {
      assert y[IndexOf(y, k)] in x;
    }
    forall k | k in Keys(ms) ensures k in Keys(y) {
      var m := x[IndexOf(ms, k)];
      assert m in x && m in y;
      var j :| 0 <= j < |y| && y[j] == m;
    }
  }

  lemma SortedAt(ms: seq<Member>, key: string)
    requires DistinctMembers(ms) && key in Keys(ms)
    ensures key in Keys(Sorted(SortedValues(ms), MemberKey))
    ensures At(Sorted(SortedValues(ms), MemberKey), key) == SortKeys(At(ms, key))
  {
    SortedKeys(ms);
    var x := SortedValues(ms);
    var y := Sorted(x, MemberKey);
    SameElements(x, y);
    assert y[IndexOf(y, key)] in x;
    var i :| 0 <= i < |x| && x[i] == y[IndexOf(y, key)];
    IndexUnique(ms, i);
  }

  lemma SortedArrayKeeps(xs: seq<Doc>)
    requires forall i :: 0 <= i < |xs| ==> Same(SortKeys(xs[i]), xs[i])
    ensures Same(SortKeys(Arr(xs)), Arr(xs))
  {
    assert Value(SortKeys(Arr(xs))).items == Value(Arr(xs)).items;
  }

  lemma SortedObjectKeeps(ms: seq<Member>)
    requires DistinctMembers(ms)
    requires forall k :: k in Keys(ms) ==> Same(SortKeys(At(ms, k)), At(ms, k))
    ensures Same(SortKeys(Obj(ms)), Obj(ms))
  {
    SortKeysOfObject(ms);
    SortedKeys(ms);
    forall k | k in Keys(ms) ensures Same(At(SortKeys(Obj(ms)).members, k), At(ms, k)) {
      SortedAt(ms, k);
    }
    assert Value(SortKeys(Obj(ms))).members == Value(Obj(ms)).members;
  }

  /** The canonical form keeps the value. */
  lemma {:induction false} SortKeysKeepsValue(d: Doc)
    requires WellFormed(d)
    ensures Same(SortKeys(d), d)
    decreases d
  {
    match d
    case Arr(xs) =>
      forall i | 0 <= i < |xs| ensures Same(SortKeys(xs[i]), xs[i]) { SortKeysKeepsValue(xs[i]); }
      SortedArrayKeeps(xs);
    case Obj(ms) =>
      forall k | k in Keys(ms) ensures Same(SortKeys(At(ms, k)), At(ms, k)) {
        WellFormedAt(d, k);
        SortKeysKeepsValue(At(ms, k));
      }
      SortedObjectKeeps(ms);
    case _ =>
  }

  /** Canonical forms are equal exactly when the values are. */
  lemma CanonicalExactly(a: Doc, b: Doc)
    requires WellFormed(a) && WellFormed(b)
    ensures SortKeys(a) == SortKeys(b) <==> Same(a, b)
  {
    SortKeysKeepsValue(a);
    SortKeysKeepsValue(b);
    if Same(a, b) {
      SortKeysForgetsOrder(a, b);
    }
  }
}
