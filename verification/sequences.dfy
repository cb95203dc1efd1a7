/**
 * Order-preserving selection: `a` is a subsequence of `b` when `a` can be
 * obtained from `b` by dropping elements without reordering the rest. Every
 * `Array.prototype.filter` and every `slice(0, n)` in the blocks produces a
 * subsequence of its input. `FilterMap` is the `map(...).filter(Boolean)`
 * idiom the blocks use to turn rows into entries.
 */
module Sequences {
  import opened Common

  predicate IsSubsequence<T(==)>(a: seq<T>, b: seq<T>)
    decreases |b|
  {
    if b == [] then a == []
    else
      (a != [] && a[|a| - 1] == b[|b| - 1] && IsSubsequence(a[..|a| - 1], b[..|b| - 1]))
      || IsSubsequence(a, b[..|b| - 1])
  }

  lemma {:induction false} SubsequenceRefl<T>(s: seq<T>)
    ensures IsSubsequence(s, s)
    decreases |s|
  {
    if s != [] {
      SubsequenceRefl(s[..|s| - 1]);
    }
  }

  /** Keeping an element of `b`'s end extends the subsequence; dropping it keeps it one. */
  lemma SubsequenceSnoc<T>(a: seq<T>, b: seq<T>, x: T)
    requires IsSubsequence(a, b)
    ensures IsSubsequence(a + [x], b + [x])
    ensures IsSubsequence(a, b + [x])
  {
    assert (a + [x])[..|a + [x]| - 1] == a;
    assert (b + [x])[..|b + [x]| - 1] == b;
  }

  lemma {:induction false} SubsequenceTrans<T>(a: seq<T>, b: seq<T>, c: seq<T>)
    requires IsSubsequence(a, b) && IsSubsequence(b, c)
    ensures IsSubsequence(a, c)
    decreases |c|
  {
    if c == [] {
      assert b == [] && a == [];
    } else if IsSubsequence(b, c[..|c| - 1]) {
      SubsequenceTrans(a, b, c[..|c| - 1]);
    } else {
      assert b != [] && b[|b| - 1] == c[|c| - 1] && IsSubsequence(b[..|b| - 1], c[..|c| - 1]);
      if a != [] && a[|a| - 1] == b[|b| - 1] && IsSubsequence(a[..|a| - 1], b[..|b| - 1]) {
        SubsequenceTrans(a[..|a| - 1], b[..|b| - 1], c[..|c| - 1]);
      } else {
        SubsequenceTrans(a, b[..|b| - 1], c[..|c| - 1]);
      }
    }
  }

  /** `slice(0, n)`: a prefix is a subsequence. */
  lemma {:induction false} PrefixIsSubsequence<T>(s: seq<T>, n: nat)
    requires n <= |s|
    ensures IsSubsequence(s[..n], s)
    decreases |s|
  {
    if n == |s| {
      assert s[..n] == s;
      SubsequenceRefl(s);
    } else {
      PrefixIsSubsequence(s[..|s| - 1], n);
      assert s[..|s| - 1][..n] == s[..n];
    }
  }

  /** A subsequence takes each element at most as often as the original has it. */
  lemma {:induction false} SubsequenceMultiset<T>(a: seq<T>, b: seq<T>)
    requires IsSubsequence(a, b)
    ensures multiset(a) <= multiset(b) && |a| <= |b|
    decreases |b|
  {
    if b != [] {
      assert b == b[..|b| - 1] + [b[|b| - 1]];
      if a != [] && a[|a| - 1] == b[|b| - 1] && IsSubsequence(a[..|a| - 1], b[..|b| - 1]) {
        SubsequenceMultiset(a[..|a| - 1], b[..|b| - 1]);
        assert a == a[..|a| - 1] + [a[|a| - 1]];
      } else {
        SubsequenceMultiset(a, b[..|b| - 1]);
      }
    }
  }

  // Small sequence identities, stated once so that proofs elsewhere need
  // not rediscover them in a large context.

  /** Dropping element `h`: entries before it keep their index, later ones move down by one. */
  lemma DropAt<T>(s: seq<T>, h: nat)
    requires h < |s|
    ensures |s[..h] + s[h + 1..]| == |s| - 1
    ensures forall i :: 0 <= i < |s| - 1 ==> (s[..h] + s[h + 1..])[i] == if i < h then s[i] else s[i + 1]
  {
    var m := s[..h] + s[h + 1..];
    forall i | 0 <= i < |s| - 1
      ensures m[i] == if i < h then s[i] else s[i + 1]
    {
      if i < h {
        assert m[i] == s[..h][i];
      } else {
        assert m[i] == s[h + 1..][i - h];
      }
    }
  }

  /** Appending `y` adds one occurrence of `y` and leaves every other count alone. */
  lemma CountSnoc<T>(s: seq<T>, y: T)
    ensures forall x :: multiset(s + [y])[x] == multiset(s)[x] + (if x == y then 1 else 0)
  {
    assert multiset(s + [y]) == multiset(s) + multiset{y};
  }

  lemma InitLast<T>(s: seq<T>)
    requires s != []
    ensures s == s[..|s| - 1] + [s[|s| - 1]]
  {
  }

  lemma ConsTail<T>(s: seq<T>)
    requires s != []
    ensures [s[0]] + s[1..] == s
  {
  }

  lemma ConcatAssoc<T>(a: seq<T>, b: seq<T>, c: seq<T>)
    ensures a + (b + c) == (a + b) + c
  {
  }

  predicate Distinct<T(==)>(s: seq<T>) {
    forall i, j :: 0 <= i < j < |s| ==> s[i] != s[j]
  }

  lemma {:induction false} DistinctCount<T>(s: seq<T>, x: T)
    requires Distinct(s)
    ensures multiset(s)[x] <= 1
    decreases |s|
  {
    if s != [] {
      var init := s[..|s| - 1];
      DistinctCount(init, x);
      InitLast(s);
      assert multiset(s) == multiset(init) + multiset{s[|s| - 1]};
      if s[|s| - 1] == x {
        assert x !in init;
      }
    }
  }

  lemma RepeatCount<T>(s: seq<T>, i: nat, j: nat)
    requires i < j < |s| && s[i] == s[j]
    ensures multiset(s)[s[i]] >= 2
  {
    var a := s[..j];
    assert s == a + [s[j]] + s[j + 1..];
    assert a[i] == s[i];
    assert multiset(s) == multiset(a) + multiset{s[j]} + multiset(s[j + 1..]);
  }

  /** A rearrangement of a list without repeats has none either. */
  lemma DistinctPermutation<T>(a: seq<T>, b: seq<T>)
    requires Distinct(a) && multiset(a) == multiset(b)
    ensures Distinct(b)
  {
    forall i, j | 0 <= i < j < |b| ensures b[i] != b[j] {
      if b[i] == b[j] {
        RepeatCount(b, i, j);
        DistinctCount(a, b[i]);
      }
    }
  }

  /** Dropping one element leaves a subsequence. */
  lemma {:induction false} SubsequenceDrop<T>(a: seq<T>, x: T, c: seq<T>)
    ensures IsSubsequence(a + c, a + [x] + c)
    decreases |c|
  {
    if c == [] {
      assert a + c == a && a + [x] + c == a + [x];
      SubsequenceRefl(a);
      SubsequenceSnoc(a, a, x);
    } else {
      var c' := c[..|c| - 1];
      var y := c[|c| - 1];
      SubsequenceDrop(a, x, c');
      SubsequenceSnoc(a + c', a + [x] + c', y);
      assert a + c' + [y] == a + c;
      assert a + [x] + c' + [y] == a + [x] + c;
    }
  }

  /** The `Some` results of `f` over `s`, in order: `s.map(f).filter(Boolean)`. */
  function FilterMap<T, U>(s: seq<T>, f: T -> Option<U>): (r: seq<U>)
    ensures |r| <= |s|
    decreases |s|
  {
    if s == [] then []
    else
      var last := f(s[|s| - 1]);
      FilterMap(s[..|s| - 1], f) + (if last.Some? then [last.value] else [])
  }

  /** Every kept value is `f` of some element, and every element `f` keeps is there. */
  lemma {:induction false} FilterMapSpec<T, U>(s: seq<T>, f: T -> Option<U>)
    ensures forall u :: u in FilterMap(s, f) ==> exists i :: 0 <= i < |s| && f(s[i]) == Some(u)
    ensures forall i :: 0 <= i < |s| && f(s[i]).Some? ==> f(s[i]).value in FilterMap(s, f)
    decreases |s|
  {
    if s != [] {
      var init := s[..|s| - 1];
      FilterMapSpec(init, f);
      forall u | u in FilterMap(s, f)
        ensures exists i :: 0 <= i < |s| && f(s[i]) == Some(u)
      {
        if u in FilterMap(init, f) {
          var i :| 0 <= i < |init| && f(init[i]) == Some(u);
          assert s[i] == init[i];
        } else {
          assert f(s[|s| - 1]) == Some(u);
        }
      }
      forall i | 0 <= i < |s| && f(s[i]).Some?
        ensures f(s[i]).value in FilterMap(s, f)
      {
        if i < |init| {
          assert s[i] == init[i];
        }
      }
    }
  }

  /** The last `Some` result of `f` over `s`, scanning from the end. */
  function LastSome<T, U>(s: seq<T>, f: T -> Option<U>): Option<U>
    decreases |s|
  {
    if s == [] then None
    else if f(s[|s| - 1]).Some? then f(s[|s| - 1])
    else LastSome(s[..|s| - 1], f)
  }

  /**
   * There is no result exactly when `f` keeps no element; otherwise it is
   * `f` of an element after which `f` keeps none.
   */
  lemma {:induction false} LastSomeSpec<T, U>(s: seq<T>, f: T -> Option<U>)
    ensures LastSome(s, f).None? <==> forall k :: 0 <= k < |s| ==> f(s[k]).None?
    ensures LastSome(s, f).Some? ==>
      exists j :: 0 <= j < |s| && f(s[j]) == LastSome(s, f) && forall k :: j < k < |s| ==> f(s[k]).None?
    decreases |s|
  {
    if s != [] && f(s[|s| - 1]).None? {
      var init := s[..|s| - 1];
      LastSomeSpec(init, f);
      forall k | 0 <= k < |init| ensures s[k] == init[k] { }
      if LastSome(s, f).Some? {
        var j :| 0 <= j < |init| && f(init[j]) == LastSome(init, f) && forall k :: j < k < |init| ==> f(init[k]).None?;
        assert f(s[j]) == LastSome(s, f);
      }
    }
  }

  /** The concatenated results of `f` over `s`, in order. */
  function FlatMap<T, U>(s: seq<T>, f: T -> seq<U>): seq<U>
    decreases |s|
  {
    if s == [] then [] else FlatMap(s[..|s| - 1], f) + f(s[|s| - 1])
  }

  /** The loop that appends `f` of one element at a time builds `FlatMap`. */
  lemma FlatMapSnoc<T, U>(s: seq<T>, i: nat, f: T -> seq<U>)
    requires i < |s|
    ensures FlatMap(s[..i + 1], f) == FlatMap(s[..i], f) + f(s[i])
  {
    assert s[..i + 1][..i] == s[..i];
  }

  /** Every element is kept exactly when `f` keeps each one. */
  lemma {:induction false} FilterMapAll<T, U>(s: seq<T>, f: T -> Option<U>)
    ensures |FilterMap(s, f)| == |s| <==> forall i :: 0 <= i < |s| ==> f(s[i]).Some?
    decreases |s|
  {
    if s != [] {
      var init := s[..|s| - 1];
      FilterMapAll(init, f);
      if forall i :: 0 <= i < |s| ==> f(s[i]).Some? {
        forall i | 0 <= i < |init|
          ensures f(init[i]).Some?
        {
          assert init[i] == s[i];
        }
      } else {
        var k :| 0 <= k < |s| && f(s[k]).None?;
        if k < |init| {
          assert init[k] == s[k];
        }
      }
    }
  }

  /** Nothing is kept exactly when `f` keeps no element. */
  lemma FilterMapEmpty<T, U>(s: seq<T>, f: T -> Option<U>)
    ensures FilterMap(s, f) == [] <==> forall i :: 0 <= i < |s| ==> f(s[i]).None?
  {
    FilterMapSpec(s, f);
    if FilterMap(s, f) != [] {
      assert FilterMap(s, f)[0] in FilterMap(s, f);
    }
  }

  /** The loop that appends `f`'s kept values one element at a time builds `FilterMap`. */
  lemma FilterMapSnoc<T, U>(s: seq<T>, i: nat, f: T -> Option<U>)
    requires i < |s|
    ensures FilterMap(s[..i + 1], f) == FilterMap(s[..i], f) + (if f(s[i]).Some? then [f(s[i]).value] else [])
  {
    assert s[..i + 1][..i] == s[..i];
  }
}
