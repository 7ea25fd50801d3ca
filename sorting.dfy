/** Stable sorting by an integer key: a functional insertion sort that serves
    as the specification, its properties (ordered, a permutation, stable), and
    an in-place insertion sort on an array proved to compute the same sequence. */
module Sorting {

  /** Inserts `x` into `t` after every trailing element whose key is at most
      `key(x)`, so that `x` goes after all elements of equal key. */
  function Insert<T>(t: seq<T>, x: T, key: T -> int): (r: seq<T>)
    ensures |r| == |t| + 1
    decreases |t|
  {
    if |t| == 0 || key(t[|t| - 1]) <= key(x) then t + [x]
    else Insert(t[..|t| - 1], x, key) + [t[|t| - 1]]
  }

  /** Insertion sort, taking the elements of `s` from left to right. */
  function Sort<T>(s: seq<T>, key: T -> int): (r: seq<T>)
    ensures |r| == |s|
  {
    if |s| == 0 then []
    else Insert(Sort(s[..|s| - 1], key), s[|s| - 1], key)
  }

  /** The keys never decrease along `s`. */
  predicate Ascending<T>(s: seq<T>, key: T -> int)
  {
    forall i, j :: 0 <= i < j < |s| ==> key(s[i]) <= key(s[j])
  }

  /** The subsequence of the elements of `s` whose key is `k`, in their order in `s`. */
  function WithKey<T>(s: seq<T>, key: T -> int, k: int): (r: seq<T>)
    ensures |r| <= |s|
    ensures forall i :: 0 <= i < |r| ==> key(r[i]) == k
  {
    if |s| == 0 then []
    else WithKey(s[..|s| - 1], key, k) + (if key(s[|s| - 1]) == k then [s[|s| - 1]] else [])
  }

  /** `f` applied to every element of `s`. */
  function Project<T, U>(s: seq<T>, f: T -> U): (r: seq<U>)
    ensures |r| == |s|
    ensures forall i :: 0 <= i < |s| ==> r[i] == f(s[i])
  {
    if |s| == 0 then []
    else Project(s[..|s| - 1], f) + [f(s[|s| - 1])]
  }

  lemma {:induction false} InsertPermutation<T>(t: seq<T>, x: T, key: T -> int)
    ensures multiset(Insert(t, x, key)) == multiset(t) + multiset{x}
    decreases |t|
  {
    if |t| > 0 && key(t[|t| - 1]) > key(x) {
      InsertPermutation(t[..|t| - 1], x, key);
      assert t == t[..|t| - 1] + [t[|t| - 1]];
    }
  }

  /** The sorted sequence is a permutation of the input. */
  lemma {:induction false} SortPermutation<T>(s: seq<T>, key: T -> int)
    ensures multiset(Sort(s, key)) == multiset(s)
  {
    if |s| > 0 {
      SortPermutation(s[..|s| - 1], key);
      InsertPermutation(Sort(s[..|s| - 1], key), s[|s| - 1], key);
      assert s == s[..|s| - 1] + [s[|s| - 1]];
    }
  }

  lemma {:induction false} InsertAscending<T>(t: seq<T>, x: T, key: T -> int)
    requires Ascending(t, key)
    ensures Ascending(Insert(t, x, key), key)
    decreases |t|
  {
    if |t| == 0 || key(t[|t| - 1]) <= key(x) {
    } else {
      var init, last := t[..|t| - 1], t[|t| - 1];
      InsertAscending(init, x, key);
      var r := Insert(init, x, key);
      InsertPermutation(init, x, key);
      forall y | y in r ensures key(y) <= key(last) {
        assert y in multiset(r);
        if y != x {
          assert y in multiset(init);
          var m :| 0 <= m < |init| && init[m] == y;
          assert t[m] == y;
        }
      }
      assert Insert(t, x, key) == r + [last];
      forall i, j | 0 <= i < j < |r| + 1
        ensures key((r + [last])[i]) <= key((r + [last])[j])
      {
        if j == |r| {
          assert (r + [last])[i] == r[i] && r[i] in r;
        }
      }
    }
  }

  /** The sorted sequence is ordered by key. */
  lemma {:induction false} SortAscending<T>(s: seq<T>, key: T -> int)
    ensures Ascending(Sort(s, key), key)
  {
    if |s| > 0 {
      SortAscending(s[..|s| - 1], key);
      InsertAscending(Sort(s[..|s| - 1], key), s[|s| - 1], key);
    }
  }

  lemma WithKeyAppend<T>(s: seq<T>, x: T, key: T -> int, k: int)
    ensures WithKey(s + [x], key, k) == WithKey(s, key, k) + (if key(x) == k then [x] else [])
  {
    assert (s + [x])[..|s|] == s;
  }

  lemma {:induction false} InsertWithKey<T>(t: seq<T>, x: T, key: T -> int, k: int)
    ensures WithKey(Insert(t, x, key), key, k) == WithKey(t, key, k) + (if key(x) == k then [x] else [])
    decreases |t|
  {
    if |t| == 0 || key(t[|t| - 1]) <= key(x) {
      WithKeyAppend(t, x, key, k);
    } else {
      var init, last := t[..|t| - 1], t[|t| - 1];
      InsertWithKey(init, x, key, k);
      WithKeyAppend(Insert(init, x, key), last, key, k);
    }
  }

  /** Stability: for every key, the elements with that key keep their relative order. */
  lemma {:induction false} SortStable<T>(s: seq<T>, key: T -> int, k: int)
    ensures WithKey(Sort(s, key), key, k) == WithKey(s, key, k)
  {
    if |s| > 0 {
      SortStable(s[..|s| - 1], key, k);
      InsertWithKey(Sort(s[..|s| - 1], key), s[|s| - 1], key, k);
    }
  }

  lemma ProjectAppend<T, U>(s: seq<T>, x: T, f: T -> U)
    ensures Project(s + [x], f) == Project(s, f) + [f(x)]
  {
    assert (s + [x])[..|s|] == s;
  }

  lemma {:induction false} InsertProject<T, U>(t: seq<T>, x: T, key: T -> int, f: T -> U)
    ensures multiset(Project(Insert(t, x, key), f)) == multiset(Project(t, f)) + multiset{f(x)}
    decreases |t|
  {
    if |t| == 0 || key(t[|t| - 1]) <= key(x) {
      ProjectAppend(t, x, f);
    } else {
      var init, last := t[..|t| - 1], t[|t| - 1];
      InsertProject(init, x, key, f);
      ProjectAppend(Insert(init, x, key), last, f);
    }
  }

  /** Any projection of the sorted sequence is a permutation of the same
      projection of the input (for instance, the customer keys). */
  lemma {:induction false} SortProject<T, U>(s: seq<T>, key: T -> int, f: T -> U)
    ensures multiset(Project(Sort(s, key), f)) == multiset(Project(s, f))
  {
    if |s| > 0 {
      SortProject(s[..|s| - 1], key, f);
      InsertProject(Sort(s[..|s| - 1], key), s[|s| - 1], key, f);
    }
  }

  /** One step of the inner loop of `InsertInPlace`: `x` moves past `t[j - 1]`. */
  lemma InsertStep<T>(t: seq<T>, x: T, key: T -> int, j: int)
    requires 0 < j <= |t| && key(t[j - 1]) > key(x)
    ensures Insert(t[..j], x, key) + t[j..] == Insert(t[..j - 1], x, key) + t[j - 1..]
  {
    assert t[..j][..j - 1] == t[..j - 1];
    assert t[j - 1..] == [t[j - 1]] + t[j..];
  }

  /** Where the inner loop of `InsertInPlace` stops, `x` goes right after `t[..j]`. */
  lemma InsertStop<T>(t: seq<T>, x: T, key: T -> int, j: int)
    requires 0 <= j <= |t|
    requires j == 0 || key(t[j - 1]) <= key(x)
    ensures Insert(t[..j], x, key) == t[..j] + [x]
  {
  }

  /** The array prefix the inner loop of `InsertInPlace` has built, as a sequence. */
  lemma ShiftedPrefix<T>(b: seq<T>, t: seq<T>, x: T, j: int)
    requires 0 <= j <= |t| < |b|
    requires forall k :: 0 <= k < j ==> b[k] == t[k]
    requires b[j] == x
    requires forall k :: j < k <= |t| ==> b[k] == t[k - 1]
    ensures b[..|t| + 1] == t[..j] + [x] + t[j..]
  {
  }

  /** Moves `a[i]` left past the larger keys of the prefix `a[..i]`: the first
      `i + 1` slots end up holding `Insert` of the old prefix and `a[i]`. */
  method InsertInPlace<T>(a: array<T>, i: int, key: T -> int)
    requires 0 <= i < a.Length
    modifies a
    ensures a[..i + 1] == Insert(old(a[..i]), old(a[i]), key)
    ensures a[i + 1..] == old(a[i + 1..])
  {
    ghost var t := a[..i];
    var x := a[i];
    var j := i;
    assert t[..j] == t && t[j..] == [];
    while j > 0 && key(a[j - 1]) > key(x)
      invariant 0 <= j <= i
      invariant forall k :: 0 <= k < j ==> a[k] == t[k]
      invariant forall k :: j < k <= i ==> a[k] == t[k - 1]
      invariant forall k :: i < k < a.Length ==> a[k] == old(a[k])
      invariant Insert(t, x, key) == Insert(t[..j], x, key) + t[j..]
    {
      InsertStep(t, x, key, j);
      a[j] := a[j - 1];
      j := j - 1;
    }
    a[j] := x;
    InsertStop(t, x, key, j);
    ShiftedPrefix(a[..], t, x, j);
    assert a[i + 1..] == old(a[i + 1..]);
  }

  /** In-place stable insertion sort: the array ends up holding `Sort` of its old contents. */
  method SortInPlace<T>(a: array<T>, key: T -> int)
    modifies a
    ensures a[..] == Sort(old(a[..]), key)
  {
    ghost var s := a[..];
    var i := 0;
    while i < a.Length
      invariant 0 <= i <= a.Length
      invariant a[..i] == Sort(s[..i], key)
      invariant a[i..] == s[i..]
    {
      ghost var sorted := a[..i];
      assert a[i] == s[i];
      InsertInPlace(a, i, key);
      assert s[..i + 1][..i] == s[..i];
      assert Sort(s[..i + 1], key) == Insert(sorted, s[i], key);
      assert a[i + 1..] == s[i + 1..];
      i := i + 1;
    }
    assert s[..a.Length] == s;
    assert a[..a.Length] == a[..];
  }
}
