/** Python's stable `sorted(xs, key=...)` for the three kinds of key the scripts use. */
module Sorting {

  datatype Key = Text(s: string) | Number(n: int) | Pair(first: string, second: string)

  /** Code-point order on strings. */
  predicate Before(a: string, b: string) {
    b != "" && (a == "" || a[0] < b[0] || (a[0] == b[0] && Before(a[1..], b[1..])))
  }

  predicate Less(a: Key, b: Key) {
    match (a, b)
    case (Text(x), Text(y)) => Before(x, y)
    case (Number(x), Number(y)) => x < y
    case (Pair(x, y), Pair(z, w)) => Before(x, z) || (x == z && Before(y, w))
    case (Text(_), _) => true
    case (Number(_), Pair(_, _)) => true
    case _ => false
  }

  lemma {:induction false} BeforeTotal(a: string, b: string)
    ensures Before(a, b) || Before(b, a) || a == b
    ensures !(Before(a, b) && Before(b, a))
    ensures !Before(a, a)
  {
    if a != "" && b != "" {
      BeforeTotal(a[1..], b[1..]);
      if a[0] == b[0] && a[1..] == b[1..] {
        assert a == [a[0]] + a[1..] && b == [b[0]] + b[1..];
      }
    }
    if a != "" {
      BeforeIrreflexive(a);
    }
  }

  lemma {:induction false} BeforeIrreflexive(a: string)
    ensures !Before(a, a)
  {
    if a != "" {
      BeforeIrreflexive(a[1..]);
    }
  }

  lemma {:induction false} BeforeTransitive(a: string, b: string, c: string)
    requires Before(a, b) && Before(b, c)
    ensures Before(a, c)
  {
    if a != "" && a[0] == b[0] == c[0] {
      BeforeTransitive(a[1..], b[1..], c[1..]);
    }
  }

  lemma LessTotal(a: Key, b: Key)
    ensures Less(a, b) || Less(b, a) || a == b
    ensures !(Less(a, b) && Less(b, a))
    ensures !Less(a, a)
  {
    match (a, b)
    case (Text(x), Text(y)) => BeforeTotal(x, y);
    case (Pair(x, y), Pair(z, w)) => BeforeTotal(x, z); BeforeTotal(y, w);
    case _ =>
    match a
    case Text(x) => BeforeIrreflexive(x);
    case Pair(x, y) => BeforeIrreflexive(x); BeforeIrreflexive(y);
    case _ =>
  }

  lemma LessTransitive(a: Key, b: Key, c: Key)
    requires Less(a, b) && Less(b, c)
    ensures Less(a, c)
  {
    match (a, b, c)
    case (Text(x), Text(y), Text(z)) => BeforeTransitive(x, y, z);
    case (Pair(x, y), Pair(z, w), Pair(v, t)) =>
      BeforeIrreflexive(x);
      BeforeIrreflexive(z);
      if Before(x, z) && Before(z, v) { BeforeTransitive(x, z, v); }
      if x == z && z == v { BeforeTransitive(y, w, t); }
    case _ =>
  }

  /** Neither element may come later in sorted order. */
  predicate Leq(a: Key, b: Key) {
    !Less(b, a)
  }

  lemma LeqTransitive(a: Key, b: Key, c: Key)
    requires Leq(a, b) && Leq(b, c)
    ensures Leq(a, c)
  {
    LessTotal(a, b);
    LessTotal(b, c);
    if Less(c, a) {
      if Less(a, b) { LessTransitive(c, a, b); }
    }
  }

  /** `x` placed after everything not greater than it. */
  function Insert<T>(xs: seq<T>, x: T, key: T -> Key): (r: seq<T>)
    ensures multiset(r) == multiset(xs) + multiset{x} && |r| == |xs| + 1
  {
    if xs == [] || Leq(key(xs[|xs| - 1]), key(x)) then xs + [x]
    else
      var last := xs[|xs| - 1];
      assert xs == xs[..|xs| - 1] + [last];
      Insert(xs[..|xs| - 1], x, key) + [last]
  }

  function Sorted<T>(xs: seq<T>, key: T -> Key): (r: seq<T>)
    ensures multiset(r) == multiset(xs) && |r| == |xs|
  {
    if xs == [] then []
    else
      assert xs == xs[..|xs| - 1] + [xs[|xs| - 1]];
      Insert(Sorted(xs[..|xs| - 1], key), xs[|xs| - 1], key)
  }

  ghost predicate Ascending<T>(xs: seq<T>, key: T -> Key) {
    forall i, j :: 0 <= i < j < |xs| ==> Leq(key(xs[i]), key(xs[j]))
  }

  lemma {:induction false} InsertAscending<T>(xs: seq<T>, x: T, key: T -> Key)
    requires Ascending(xs, key)
    ensures Ascending(Insert(xs, x, key), key)
  {
    if xs == [] {
    } else if Leq(key(xs[|xs| - 1]), key(x)) {
      var r := xs + [x];
      assert Insert(xs, x, key) == r;
      forall i, j | 0 <= i < j < |r| ensures Leq(key(r[i]), key(r[j])) {
        if j == |xs| {
          if i < |xs| - 1 {
            LeqTransitive(key(xs[i]), key(xs[|xs| - 1]), key(x));
          }
        }
      }
    } else {
      var front, last := xs[..|xs| - 1], xs[|xs| - 1];
      InsertAscending(front, x, key);
      var r := Insert(front, x, key);
      assert Insert(xs, x, key) == r + [last];
      forall i | 0 <= i < |r| ensures Leq(key(r[i]), key(last)) {
        assert r[i] in multiset(front) + multiset{x};
        if r[i] == x {
          LessTotal(key(x), key(last));
        } else {
          assert r[i] in front;
          var k :| 0 <= k < |front| && front[k] == r[i];
          assert Leq(key(xs[k]), key(xs[|xs| - 1]));
        }
      }
    }
  }

  lemma {:induction false} SortedAscending<T>(xs: seq<T>, key: T -> Key)
    ensures Ascending(Sorted(xs, key), key)
  {
    if xs != [] {
      SortedAscending(xs[..|xs| - 1], key);
      InsertAscending(Sorted(xs[..|xs| - 1], key), xs[|xs| - 1], key);
    }
  }

  ghost predicate DistinctKeys<T>(xs: seq<T>, key: T -> Key) {
    forall i, j :: 0 <= i < j < |xs| ==> key(xs[i]) != key(xs[j])
  }

  lemma SameElements<T>(a: seq<T>, b: seq<T>)
    requires multiset(a) == multiset(b)
    ensures forall x :: x in a <==> x in b
  {
    forall x ensures x in a <==> x in b {
      assert x in a <==> x in multiset(a);
      assert x in b <==> x in multiset(b);
    }
  }

  /** Equal keys of two elements mean equal elements. */
  ghost predicate Keyed<T(!new)>(xs: seq<T>, key: T -> Key) {
    forall x, y :: x in xs && y in xs && key(x) == key(y) ==> x == y
  }

  /** The last element of an ascending sequence has the greatest key. */
  lemma LastGreatest<T>(a: seq<T>, key: T -> Key, x: T)
    requires Ascending(a, key) && x in a
    ensures Leq(key(x), key(a[|a| - 1]))
  {
    var i :| 0 <= i < |a| && a[i] == x;
    LessTotal(key(x), key(x));
  }

  lemma WithoutLast<T>(a: seq<T>)
    requires a != []
    ensures multiset(a[..|a| - 1]) == multiset(a) - multiset{a[|a| - 1]}
  {
    assert a == a[..|a| - 1] + [a[|a| - 1]];
  }

  lemma SameLast<T(!new)>(a: seq<T>, b: seq<T>, key: T -> Key)
    requires a != [] && b != []
    requires multiset(a) == multiset(b) && Ascending(a, key) && Ascending(b, key) && Keyed(a, key)
    ensures a[|a| - 1] == b[|b| - 1]
  {
    var x, y := a[|a| - 1], b[|b| - 1];
    SameElements(a, b);
    assert x in b && y in a;
    LastGreatest(a, key, y);
    LastGreatest(b, key, x);
    LessTotal(key(x), key(y));
  }

  lemma KeyedFront<T(!new)>(a: seq<T>, key: T -> Key)
    requires a != [] && Keyed(a, key)
    ensures Keyed(a[..|a| - 1], key)
  {
    assert forall x :: x in a[..|a| - 1] ==> x in a;
  }

  lemma AscendingFront<T(!new)>(a: seq<T>, key: T -> Key)
    requires a != [] && Ascending(a, key)
    ensures Ascending(a[..|a| - 1], key)
  {
  }

  /** What is left of two ascending listings of the same elements without their last. */
  lemma Fronts<T(!new)>(a: seq<T>, b: seq<T>, key: T -> Key)
    requires a != [] && b != []
    requires multiset(a) == multiset(b) && Ascending(a, key) && Ascending(b, key) && Keyed(a, key)
    ensures a[|a| - 1] == b[|b| - 1] && multiset(a[..|a| - 1]) == multiset(b[..|b| - 1])
    ensures Ascending(a[..|a| - 1], key) && Ascending(b[..|b| - 1], key) && Keyed(a[..|a| - 1], key)
  {
    SameLast(a, b, key);
    KeyedFront(a, key);
    WithoutLast(a);
    WithoutLast(b);
    AscendingFront(a, key);
    AscendingFront(b, key);
  }

  /** Ascending sequences over keyed elements are determined by their elements. */
  lemma {:induction false} AscendingUnique<T(!new)>(a: seq<T>, b: seq<T>, key: T -> Key)
    requires multiset(a) == multiset(b) && Ascending(a, key) && Ascending(b, key) && Keyed(a, key)
    ensures a == b
    decreases |a|
  {
    assert |a| == |multiset(a)| == |multiset(b)| == |b|;
    if a != [] {
      Fronts(a, b, key);
      AscendingUnique(a[..|a| - 1], b[..|b| - 1], key);
      assert a == a[..|a| - 1] + [a[|a| - 1]] && b == b[..|b| - 1] + [b[|b| - 1]];
    }
  }

  /** Sorting keyed elements forgets the order they were listed in. */
  lemma SortedForgetsOrder<T(!new)>(a: seq<T>, b: seq<T>, key: T -> Key)
    requires multiset(a) == multiset(b) && Keyed(a, key)
    ensures Sorted(a, key) == Sorted(b, key)
  {
    SortedAscending(a, key);
    SortedAscending(b, key);
    SameElements(a, Sorted(a, key));
    AscendingUnique(Sorted(a, key), Sorted(b, key), key);
  }

  // ----- sequences without repetition -----

  ghost predicate NoRepeats<T>(xs: seq<T>) {
    forall i, j :: 0 <= i < j < |xs| ==> xs[i] != xs[j]
  }

  lemma {:induction false} CountedOnce<T>(xs: seq<T>, x: T)
    requires NoRepeats(xs)
    ensures multiset(xs)[x] == if x in xs then 1 else 0
  {
    if xs != [] {
      var front, last := xs[..|xs| - 1], xs[|xs| - 1];
      assert xs == front + [last];
      CountedOnce(front, x);
      assert last !in front;
    }
  }

  /** Two listings of the same elements without repetition are permutations. */
  lemma SameListing<T>(a: seq<T>, b: seq<T>)
    requires NoRepeats(a) && NoRepeats(b)
    requires forall x :: x in a <==> x in b
    ensures multiset(a) == multiset(b)
  {
    forall x ensures multiset(a)[x] == multiset(b)[x] {
      CountedOnce(a, x);
      CountedOnce(b, x);
    }
  }

  lemma KeysNoRepeats<T>(xs: seq<T>, key: T -> Key)
    requires DistinctKeys(xs, key)
    ensures NoRepeats(xs)
  {
  }

  lemma DistinctKeyed<T(!new)>(xs: seq<T>, key: T -> Key)
    requires DistinctKeys(xs, key)
    ensures Keyed(xs, key)
  {
    forall x, y | x in xs && y in xs && key(x) == key(y) ensures x == y {
      var i :| 0 <= i < |xs| && xs[i] == x;
      var j :| 0 <= j < |xs| && xs[j] == y;
      assert !(i < j) && !(j < i);
    }
  }

  // ----- sorting and mapping -----

  function Mapped<A, B>(f: A -> B, xs: seq<A>): (r: seq<B>)
    ensures |r| == |xs| && forall i :: 0 <= i < |r| ==> r[i] == f(xs[i])
  {
    seq(|xs|, i requires 0 <= i < |xs| => f(xs[i]))
  }

  lemma {:induction false} InsertMapped<A, B>(f: A -> B, xs: seq<A>, x: A, before: A -> Key, after: B -> Key)
    requires forall a :: a in xs || a == x ==> after(f(a)) == before(a)
    ensures Insert(Mapped(f, xs), f(x), after) == Mapped(f, Insert(xs, x, before))
    decreases |xs|
  {
    if xs != [] {
      var n := |xs| - 1;
      var front, last := xs[..n], xs[n];
      assert last in xs && Mapped(f, xs)[..n] == Mapped(f, front);
      if Leq(before(last), before(x)) {
        assert Mapped(f, xs + [x]) == Mapped(f, xs) + [f(x)];
      } else {
        InsertMapped(f, front, x, before, after);
        var r := Insert(front, x, before);
        assert Mapped(f, r + [last]) == Mapped(f, r) + [f(last)];
      }
    } else {
      assert Mapped(f, [x]) == [f(x)];
    }
  }

  /** Sorting mapped elements is mapping sorted elements, when the keys agree. */
  lemma {:induction false} SortedMapped<A, B>(f: A -> B, xs: seq<A>, before: A -> Key, after: B -> Key)
    requires forall a :: a in xs ==> after(f(a)) == before(a)
    ensures Sorted(Mapped(f, xs), after) == Mapped(f, Sorted(xs, before))
    decreases |xs|
  {
    if xs != [] {
      var n := |xs| - 1;
      SortedMapped(f, xs[..n], before, after);
      assert Mapped(f, xs)[..n] == Mapped(f, xs[..n]);
      SameElements(xs[..n], Sorted(xs[..n], before));
      assert forall a :: a in xs[..n] ==> a in xs;
      InsertMapped(f, Sorted(xs[..n], before), xs[n], before, after);
    }
  }

  // ----- stability -----

  /** The elements of one key, in the order they are listed. */
  function Picked<T>(xs: seq<T>, key: T -> Key, k: Key): seq<T> {
    if xs == [] then []
    else Picked(xs[..|xs| - 1], key, k) + if key(xs[|xs| - 1]) == k then [xs[|xs| - 1]] else []
  }

  lemma PickedNext<T>(xs: seq<T>, x: T, key: T -> Key, k: Key)
    ensures Picked(xs + [x], key, k) == Picked(xs, key, k) + if key(x) == k then [x] else []
  {
    assert (xs + [x])[..|xs|] == xs;
  }

  lemma {:induction false} InsertStable<T>(xs: seq<T>, x: T, key: T -> Key, k: Key)
    ensures Picked(Insert(xs, x, key), key, k) == Picked(xs, key, k) + if key(x) == k then [x] else []
  {
    if xs == [] || Leq(key(xs[|xs| - 1]), key(x)) {
      PickedNext(xs, x, key, k);
    } else {
      var front, last := xs[..|xs| - 1], xs[|xs| - 1];
      LessTotal(key(x), key(x));
      InsertStable(front, x, key, k);
      PickedNext(Insert(front, x, key), last, key, k);
    }
  }

  /** Sorting keeps elements of equal keys in the order they were listed. */
  lemma {:induction false} SortedStable<T>(xs: seq<T>, key: T -> Key, k: Key)
    ensures Picked(Sorted(xs, key), key, k) == Picked(xs, key, k)
  {
    if xs != [] {
      SortedStable(xs[..|xs| - 1], key, k);
      InsertStable(Sorted(xs[..|xs| - 1], key), xs[|xs| - 1], key, k);
    }
  }

  function Reversed<T>(xs: seq<T>): (r: seq<T>)
    ensures |r| == |xs| && forall i :: 0 <= i < |r| ==> r[i] == xs[|xs| - 1 - i]
  {
    seq(|xs|, i requires 0 <= i < |xs| => xs[|xs| - 1 - i])
  }

  lemma {:induction false} PickedConcat<T>(a: seq<T>, b: seq<T>, key: T -> Key, k: Key)
    ensures Picked(a + b, key, k) == Picked(a, key, k) + Picked(b, key, k)
    decreases |b|
  {
    if b == [] {
      assert a + b == a;
    } else {
      var front, last := b[..|b| - 1], b[|b| - 1];
      PickedConcat(a, front, key, k);
      assert a + b == (a + front) + [last];
      PickedNext(a + front, last, key, k);
    }
  }

  lemma {:induction false} PickedReversed<T>(xs: seq<T>, key: T -> Key, k: Key)
    ensures Picked(Reversed(xs), key, k) == Reversed(Picked(xs, key, k))
  {
    if xs != [] {
      var front, last := xs[..|xs| - 1], xs[|xs| - 1];
      PickedReversed(front, key, k);
      assert Reversed(xs) == [last] + Reversed(front);
      PickedConcat([last], Reversed(front), key, k);
      PickedNext([], last, key, k);
      assert [] + [last] == [last];
    }
  }

  lemma {:induction false} PickedElements<T>(xs: seq<T>, key: T -> Key, k: Key)
    ensures forall x :: x in Picked(xs, key, k) <==> x in xs && key(x) == k
    ensures NoRepeats(xs) ==> NoRepeats(Picked(xs, key, k))
  {
    if xs != [] {
      var front, last := xs[..|xs| - 1], xs[|xs| - 1];
      PickedElements(front, key, k);
      assert xs == front + [last];
      if NoRepeats(xs) {
        assert last !in front;
      }
    }
  }

  lemma ReversedItself<T>(xs: seq<T>)
    requires NoRepeats(xs) && Reversed(xs) == xs
    ensures |xs| <= 1
  {
    assert |xs| > 0 ==> Reversed(xs)[0] == xs[0] == xs[|xs| - 1];
  }

  lemma PickedOnce<T(!new)>(xs: seq<T>, key: T -> Key, k: Key)
    requires NoRepeats(xs) && Sorted(xs, key) == Sorted(Reversed(xs), key)
    ensures |Picked(xs, key, k)| <= 1
  {
    SortedStable(xs, key, k);
    SortedStable(Reversed(xs), key, k);
    PickedReversed(xs, key, k);
    PickedElements(xs, key, k);
    ReversedItself(Picked(xs, key, k));
  }

  lemma PickedTogether<T(!new)>(xs: seq<T>, key: T -> Key, x: T, y: T)
    requires x in xs && y in xs && key(x) == key(y) && |Picked(xs, key, key(x))| <= 1
    ensures x == y
  {
    PickedElements(xs, key, key(x));
    var p := Picked(xs, key, key(x));
    assert x in p && y in p;
  }

  /** The converse of forgetting the order: where a listing and its reverse sort alike, no
      two of its elements share a key. */
  lemma SortedAlikeKeyed<T(!new)>(xs: seq<T>, key: T -> Key)
    requires NoRepeats(xs) && Sorted(xs, key) == Sorted(Reversed(xs), key)
    ensures Keyed(xs, key)
  {
    forall k ensures |Picked(xs, key, k)| <= 1 { PickedOnce(xs, key, k); }
    forall x, y | x in xs && y in xs && key(x) == key(y) ensures x == y { PickedTogether(xs, key, x, y); }
  }
}
