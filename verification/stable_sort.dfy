/**
 * The stable sort `Array.prototype.sort` performs when the comparator only
 * compares one string key per element: an element goes strictly before
 * another when its key is smaller (`desc == false`) or larger
 * (`desc == true`) in JavaScript string order; elements with equal keys
 * keep their relative order.
 */
module StableSort {
  import opened JsString
  import opened Sequences

  predicate KeyBefore(ka: string, kb: string, desc: bool) {
    if desc then LexLess(kb, ka) else LexLess(ka, kb)
  }

  lemma KeyBeforeIrreflexive(k: string, desc: bool)
    ensures !KeyBefore(k, k, desc)
  {
    LexLessIrreflexive(k);
  }

  lemma KeyBeforeTransitive(a: string, b: string, c: string, desc: bool)
    requires KeyBefore(a, b, desc) && KeyBefore(b, c, desc)
    ensures KeyBefore(a, c, desc)
  {
    if desc {
      LexLessTransitive(c, b, a);
    } else {
      LexLessTransitive(a, b, c);
    }
  }

  /** No element goes strictly before an element that precedes it. */
  predicate Sorted<T>(s: seq<T>, key: T -> string, desc: bool) {
    forall i, j :: 0 <= i < j < |s| ==> !KeyBefore(key(s[j]), key(s[i]), desc)
  }

  /** Puts `x` in front of the first element it goes strictly before, so after its equals. */
  function Insert<T>(s: seq<T>, x: T, key: T -> string, desc: bool): (r: seq<T>)
    ensures multiset(r) == multiset(s) + multiset{x}
    ensures |r| == |s| + 1
  {
    if s == [] then [x]
    else if KeyBefore(key(x), key(s[0]), desc) then [x] + s
    else
      assert s == [s[0]] + s[1..];
      [s[0]] + Insert(s[1..], x, key, desc)
  }

  function InsertionSort<T>(s: seq<T>, key: T -> string, desc: bool): (r: seq<T>)
    ensures multiset(r) == multiset(s)
    ensures |r| == |s|
  {
    if s == [] then []
    else
      assert s == s[..|s| - 1] + [s[|s| - 1]];
      Insert(InsertionSort(s[..|s| - 1], key, desc), s[|s| - 1], key, desc)
  }

  lemma SortedTail<T>(s: seq<T>, key: T -> string, desc: bool)
    requires s != [] && Sorted(s, key, desc)
    ensures Sorted(s[1..], key, desc)
  {
    forall i, j | 0 <= i < j < |s[1..]| ensures !KeyBefore(key(s[1..][j]), key(s[1..][i]), desc) {
      assert s[1..][j] == s[j + 1] && s[1..][i] == s[i + 1];
    }
  }

  /** An element of `Insert(s, x)` is `x` or an element of `s`. */
  lemma InsertMember<T>(s: seq<T>, x: T, key: T -> string, desc: bool, y: T)
    requires y in Insert(s, x, key, desc)
    ensures y == x || y in s
  {
    assert y in multiset(Insert(s, x, key, desc));
  }

  /** A sorted list stays sorted under a new head that no element goes before. */
  lemma SortedCons<T>(h: T, t: seq<T>, key: T -> string, desc: bool)
    requires Sorted(t, key, desc)
    requires forall j :: 0 <= j < |t| ==> !KeyBefore(key(t[j]), key(h), desc)
    ensures Sorted([h] + t, key, desc)
  {
    var r := [h] + t;
    forall i, j | 0 <= i < j < |r| ensures !KeyBefore(key(r[j]), key(r[i]), desc) {
      assert r[j] == t[j - 1];
      if i > 0 {
        assert r[i] == t[i - 1];
      }
    }
  }

  lemma {:induction false} InsertSorted<T>(s: seq<T>, x: T, key: T -> string, desc: bool)
    requires Sorted(s, key, desc)
    ensures Sorted(Insert(s, x, key, desc), key, desc)
  {
    if s == [] {
    } else if KeyBefore(key(x), key(s[0]), desc) {
      forall j | 0 <= j < |s| ensures !KeyBefore(key(s[j]), key(x), desc) {
        if KeyBefore(key(s[j]), key(x), desc) {
          KeyBeforeTransitive(key(s[j]), key(x), key(s[0]), desc);
          if j == 0 {
            KeyBeforeIrreflexive(key(s[0]), desc);
          }
        }
      }
      SortedCons(x, s, key, desc);
    } else {
      SortedTail(s, key, desc);
      InsertSorted(s[1..], x, key, desc);
      var t := Insert(s[1..], x, key, desc);
      forall j | 0 <= j < |t| ensures !KeyBefore(key(t[j]), key(s[0]), desc) {
        InsertMember(s[1..], x, key, desc, t[j]);
        if t[j] != x {
          var k :| 0 <= k < |s[1..]| && s[1..][k] == t[j];
          assert s[k + 1] == t[j];
        }
      }
      SortedCons(s[0], t, key, desc);
    }
  }

  /** The sort's output is ordered by the comparator. */
  lemma {:induction false} InsertionSortSorted<T>(s: seq<T>, key: T -> string, desc: bool)
    ensures Sorted(InsertionSort(s, key, desc), key, desc)
  {
    if s != [] {
      InsertionSortSorted(s[..|s| - 1], key, desc);
      InsertSorted(InsertionSort(s[..|s| - 1], key, desc), s[|s| - 1], key, desc);
    }
  }

  /** The elements whose key is `k`, in order. */
  function WithKey<T>(s: seq<T>, key: T -> string, k: string): (r: seq<T>)
    ensures |r| <= |s|
  {
    if s == [] then []
    else (if key(s[0]) == k then [s[0]] else []) + WithKey(s[1..], key, k)
  }

  lemma {:induction false} WithKeyAppend<T>(a: seq<T>, b: seq<T>, key: T -> string, k: string)
    ensures WithKey(a + b, key, k) == WithKey(a, key, k) + WithKey(b, key, k)
  {
    if a != [] {
      var h := if key(a[0]) == k then [a[0]] else [];
      assert (a + b)[0] == a[0];
      assert (a + b)[1..] == a[1..] + b;
      WithKeyAppend(a[1..], b, key, k);
      assert WithKey(a + b, key, k) == h + (WithKey(a[1..], key, k) + WithKey(b, key, k));
    } else {
      assert a + b == b;
    }
  }

  lemma WithKeySingle<T>(x: T, key: T -> string, k: string)
    ensures WithKey([x], key, k) == if key(x) == k then [x] else []
  {
    assert [x][1..] == [];
  }

  lemma {:induction false} WithKeyNone<T>(s: seq<T>, key: T -> string, k: string)
    requires forall j :: 0 <= j < |s| ==> key(s[j]) != k
    ensures WithKey(s, key, k) == []
  {
    if s != [] {
      WithKeyNone(s[1..], key, k);
    }
  }

  /** In a sorted list whose head `x` goes strictly before, no element has `x`'s key. */
  lemma NoEqualKeyAfter<T>(s: seq<T>, x: T, key: T -> string, desc: bool)
    requires Sorted(s, key, desc) && s != [] && KeyBefore(key(x), key(s[0]), desc)
    ensures WithKey(s, key, key(x)) == []
  {
    KeyBeforeIrreflexive(key(s[0]), desc);
    WithKeyNone(s, key, key(x));
  }

  lemma WithKeyCons<T>(y: T, t: seq<T>, key: T -> string, k: string)
    ensures WithKey([y] + t, key, k) == (if key(y) == k then [y] else []) + WithKey(t, key, k)
  {
    assert ([y] + t)[0] == y && ([y] + t)[1..] == t;
  }

  /** `x` goes in front: it is the last of its key. */
  lemma InsertWithKeyFront<T>(s: seq<T>, x: T, key: T -> string, desc: bool, k: string)
    requires Sorted(s, key, desc) && s != [] && KeyBefore(key(x), key(s[0]), desc)
    ensures WithKey([x] + s, key, k) == WithKey(s, key, k) + (if key(x) == k then [x] else [])
  {
    WithKeyCons(x, s, key, k);
    if key(x) == k {
      NoEqualKeyAfter(s, x, key, desc);
    }
  }

  lemma {:induction false} InsertWithKey<T>(s: seq<T>, x: T, key: T -> string, desc: bool, k: string)
    requires Sorted(s, key, desc)
    ensures WithKey(Insert(s, x, key, desc), key, k)
      == WithKey(s, key, k) + (if key(x) == k then [x] else [])
  {
    var hx := if key(x) == k then [x] else [];
    if s == [] {
      WithKeySingle(x, key, k);
      assert WithKey(s, key, k) + hx == hx;
    } else if KeyBefore(key(x), key(s[0]), desc) {
      InsertWithKeyFront(s, x, key, desc, k);
      assert Insert(s, x, key, desc) == [x] + s;
    } else {
      var t := Insert(s[1..], x, key, desc);
      var h0 := if key(s[0]) == k then [s[0]] else [];
      assert Insert(s, x, key, desc) == [s[0]] + t;
      SortedTail(s, key, desc);
      InsertWithKey(s[1..], x, key, desc, k);
      WithKeyCons(s[0], t, key, k);
      ConsTail(s);
      WithKeyCons(s[0], s[1..], key, k);
      assert WithKey(Insert(s, x, key, desc), key, k) == h0 + (WithKey(s[1..], key, k) + hx);
      ConcatAssoc(h0, WithKey(s[1..], key, k), hx);
    }
  }

  /** Stability: elements sharing a key come out in the order they went in. */
  lemma {:induction false} InsertionSortStable<T>(s: seq<T>, key: T -> string, desc: bool, k: string)
    ensures WithKey(InsertionSort(s, key, desc), key, k) == WithKey(s, key, k)
  {
    if s != [] {
      var init := s[..|s| - 1];
      var last := s[|s| - 1];
      assert InsertionSort(s, key, desc) == Insert(InsertionSort(init, key, desc), last, key, desc);
      InsertionSortStable(init, key, desc, k);
      InsertionSortSorted(init, key, desc);
      InsertWithKey(InsertionSort(init, key, desc), last, key, desc, k);
      InitLast(s);
      WithKeyAppend(init, [last], key, k);
      WithKeySingle(last, key, k);
    }
  }
}
