/** Lexicographic sort keys and the stable sort the readers and the export use. A key is a
    list of components and a component a list of integers: strings by code point, enums by
    declaration order, floats by their total-order rank. */
module Ordering {

  type Component = seq<int>
  type Key = seq<Component>

  predicate ComponentLess(a: Component, b: Component) {
    b != [] && (a == [] || a[0] < b[0] || (a[0] == b[0] && ComponentLess(a[1..], b[1..])))
  }

  predicate KeyLess(a: Key, b: Key) {
    b != [] && (a == [] || ComponentLess(a[0], b[0]) || (a[0] == b[0] && KeyLess(a[1..], b[1..])))
  }

  lemma {:induction false} ComponentOrder(a: Component, b: Component, c: Component)
    ensures ComponentLess(a, b) ==> a != b && !ComponentLess(b, a)
    ensures ComponentLess(a, b) && ComponentLess(b, c) ==> ComponentLess(a, c)
    ensures ComponentLess(a, b) || a == b || ComponentLess(b, a)
  {
    if a != [] && b != [] {
      ComponentOrder(a[1..], b[1..], if c == [] then [] else c[1..]);
      if a[0] == b[0] && a[1..] == b[1..] {
        assert a == [a[0]] + a[1..] && b == [b[0]] + b[1..];
      }
    }
  }

  /** `KeyLess` is a strict total order. */
  lemma {:induction false} KeyOrder(a: Key, b: Key, c: Key)
    ensures KeyLess(a, b) ==> a != b && !KeyLess(b, a)
    ensures KeyLess(a, b) && KeyLess(b, c) ==> KeyLess(a, c)
    ensures KeyLess(a, b) || a == b || KeyLess(b, a)
  {
    if a != [] && b != [] {
      ComponentOrder(a[0], b[0], if c == [] then [] else c[0]);
      KeyOrder(a[1..], b[1..], if c == [] then [] else c[1..]);
      if a[0] == b[0] && a[1..] == b[1..] {
        assert a == [a[0]] + a[1..] && b == [b[0]] + b[1..];
      }
    }
  }

  // ---- the stable sort ------------------------------------------------------------

  function InsertSorted<T>(x: T, s: seq<T>, key: T -> Key): (r: seq<T>)
    ensures multiset(r) == multiset{x} + multiset(s)
  {
    if s == [] || !KeyLess(key(s[0]), key(x)) then [x] + s
    else
      assert s == [s[0]] + s[1..];
      [s[0]] + InsertSorted(x, s[1..], key)
  }

  /** A stable sort: equal keys keep their order. */
  function SortBy<T>(s: seq<T>, key: T -> Key): (r: seq<T>)
    ensures multiset(r) == multiset(s)
    ensures |r| == |s|
  {
    if s == [] then [] else
      assert s == [s[0]] + s[1..];
      var r := InsertSorted(s[0], SortBy(s[1..], key), key);
      assert |multiset(r)| == |multiset(s)|;
      r
  }

  predicate Ordered<T>(s: seq<T>, key: T -> Key) {
    forall i, j :: 0 <= i < j < |s| ==> !KeyLess(key(s[j]), key(s[i]))
  }

  lemma {:induction false} InsertOrdered<T>(x: T, s: seq<T>, key: T -> Key)
    requires Ordered(s, key)
    ensures Ordered(InsertSorted(x, s, key), key)
  {
    if s == [] {
    } else if !KeyLess(key(s[0]), key(x)) {
      var r := [x] + s;
      forall i, j | 0 <= i < j < |r|
        ensures !KeyLess(key(r[j]), key(r[i]))
      {
        assert r[j] == s[j - 1];
        if i == 0 {
          KeyOrder(key(s[j - 1]), key(x), key(s[0]));
          KeyOrder(key(s[0]), key(s[j - 1]), key(x));
        }
      }
    } else {
      InsertOrdered(x, s[1..], key);
      var rest := InsertSorted(x, s[1..], key);
      var r := [s[0]] + rest;
      forall i, j | 0 <= i < j < |r|
        ensures !KeyLess(key(r[j]), key(r[i]))
      {
        if i == 0 {
          assert rest[j - 1] in multiset(rest);
          assert rest[j - 1] == x || rest[j - 1] in s[1..];
          KeyOrder(key(x), key(s[0]), key(x));
        }
      }
    }
  }

  lemma {:induction false} SortOrdered<T>(s: seq<T>, key: T -> Key)
    ensures Ordered(SortBy(s, key), key)
  {
    if s != [] {
      SortOrdered(s[1..], key);
      InsertOrdered(s[0], SortBy(s[1..], key), key);
    }
  }

  /** Elements with equal keys are equal. */
  predicate KeysIdentify<T(==)>(s: seq<T>, key: T -> Key) {
    forall i, j :: 0 <= i < |s| && 0 <= j < |s| && key(s[i]) == key(s[j]) ==> s[i] == s[j]
  }

  lemma MemberOf<T>(x: T, s: seq<T>) returns (i: nat)
    requires x in multiset(s)
    ensures i < |s| && s[i] == x
  {
    i :| 0 <= i < |s| && s[i] == x;
  }

  lemma WithoutHead<T>(s: seq<T>)
    requires s != []
    ensures multiset(s[1..]) == multiset(s) - multiset{s[0]}
  {
    assert s == [s[0]] + s[1..];
  }

  /** Two ordered arrangements start with the same element. */
  lemma SameHead<T>(a: seq<T>, b: seq<T>, key: T -> Key)
    requires Ordered(a, key) && Ordered(b, key) && multiset(a) == multiset(b) && KeysIdentify(a, key)
    requires a != [] && b != []
    ensures a[0] == b[0]
  {
    assert a[0] in multiset(a) && b[0] in multiset(b);
    var j := MemberOf(a[0], b);
    var i := MemberOf(b[0], a);
    KeyOrder(key(a[0]), key(b[0]), key(a[0]));
    assert key(a[0]) == key(a[i]);
  }

  lemma SameLength<T>(a: seq<T>, b: seq<T>)
    requires multiset(a) == multiset(b)
    ensures |a| == |b|
  {
    assert |multiset(a)| == |a| && |multiset(b)| == |b|;
  }

  /** An ordered arrangement of identified elements is unique. */
  lemma {:induction false} OrderedUnique<T>(a: seq<T>, b: seq<T>, key: T -> Key)
    requires Ordered(a, key) && Ordered(b, key) && multiset(a) == multiset(b)
    requires KeysIdentify(a, key)
    ensures a == b
  {
    SameLength(a, b);
    if a != [] {
      SameHead(a, b, key);
      WithoutHead(a);
      WithoutHead(b);
      OrderedUnique(a[1..], b[1..], key);
      assert a == [a[0]] + a[1..] && b == [b[0]] + b[1..];
    }
  }

  /** The order rows arrive in does not show: any permutation sorts to the same list. */
  lemma SortIgnoresArrival<T>(a: seq<T>, b: seq<T>, key: T -> Key)
    requires multiset(a) == multiset(b) && KeysIdentify(a, key)
    ensures SortBy(a, key) == SortBy(b, key)
  {
    var s, t := SortBy(a, key), SortBy(b, key);
    SortOrdered(a, key);
    SortOrdered(b, key);
    forall i, j | 0 <= i < |s| && 0 <= j < |s| && key(s[i]) == key(s[j])
      ensures s[i] == s[j]
    {
      assert s[i] in multiset(a) && s[j] in multiset(a);
    }
    OrderedUnique(s, t, key);
  }
}
