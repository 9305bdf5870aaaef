/** std::stable_sort by an integer key: what it promises, that the promise determines the result, and
    what reading the result backwards gives. */
module StableSorting {

  ghost predicate Ascending<T>(key: T -> int, s: seq<T>) {
    forall i, j :: 0 <= i < j < |s| ==> key(s[i]) <= key(s[j])
  }

  /** The elements with key `n`, in their order. */
  function WithKey<T>(key: T -> int, s: seq<T>, n: int): seq<T> {
    if s == [] then []
    else WithKey(key, s[..|s| - 1], n) + (if key(s[|s| - 1]) == n then [s[|s| - 1]] else [])
  }

  /** Sorted, and equal keys keep their order. */
  ghost predicate IsStableSort<T>(key: T -> int, sorted: seq<T>, s: seq<T>) {
    Ascending(key, sorted) && forall n :: WithKey(key, sorted, n) == WithKey(key, s, n)
  }

  function Insert<T>(key: T -> int, sorted: seq<T>, x: T): (r: seq<T>)
    ensures |r| == |sorted| + 1
    ensures multiset(r) == multiset(sorted) + multiset{x}
  {
    if sorted == [] || key(sorted[|sorted| - 1]) <= key(x) then sorted + [x]
    else
      var init, last := sorted[..|sorted| - 1], sorted[|sorted| - 1];
      assert sorted == init + [last];
      Insert(key, init, x) + [last]
  }

  function StableSort<T>(key: T -> int, s: seq<T>): (r: seq<T>)
    ensures |r| == |s|
    ensures multiset(r) == multiset(s)
  {
    if s == [] then []
    else
      assert s == s[..|s| - 1] + [s[|s| - 1]];
      Insert(key, StableSort(key, s[..|s| - 1]), s[|s| - 1])
  }

  lemma WithKeyAppend<T>(key: T -> int, s: seq<T>, x: T, n: int)
    ensures WithKey(key, s + [x], n) == WithKey(key, s, n) + (if key(x) == n then [x] else [])
  {
    assert (s + [x])[..|s|] == s;
  }

  lemma {:induction false} InsertIsStable<T>(key: T -> int, sorted: seq<T>, x: T, n: int)
    requires Ascending(key, sorted)
    ensures WithKey(key, Insert(key, sorted, x), n) == WithKey(key, sorted, n) + (if key(x) == n then [x] else [])
  {
    if sorted == [] || key(sorted[|sorted| - 1]) <= key(x) {
      WithKeyAppend(key, sorted, x, n);
    } else {
      var init, last := sorted[..|sorted| - 1], sorted[|sorted| - 1];
      InsertIsStable(key, init, x, n);
      WithKeyAppend(key, Insert(key, init, x), last, n);
    }
  }

  lemma {:induction false} InsertIsAscending<T>(key: T -> int, sorted: seq<T>, x: T)
    requires Ascending(key, sorted)
    ensures Ascending(key, Insert(key, sorted, x))
  {
    if sorted != [] && key(sorted[|sorted| - 1]) > key(x) {
      var init, last := sorted[..|sorted| - 1], sorted[|sorted| - 1];
      InsertIsAscending(key, init, x);
      var r := Insert(key, init, x);
      forall i | 0 <= i < |r| ensures key(r[i]) <= key(last) {
        assert r[i] in multiset(r);
        if r[i] != x {
          var k :| 0 <= k < |init| && init[k] == r[i];
          assert sorted[k] == r[i];
        }
      }
    }
  }

  lemma {:induction false} StableSortSorts<T>(key: T -> int, s: seq<T>)
    ensures IsStableSort(key, StableSort(key, s), s)
  {
    if s != [] {
      var init, last := s[..|s| - 1], s[|s| - 1];
      StableSortSorts(key, init);
      InsertIsAscending(key, StableSort(key, init), last);
      forall n ensures WithKey(key, StableSort(key, s), n) == WithKey(key, s, n) {
        InsertIsStable(key, StableSort(key, init), last, n);
      }
    }
  }

  lemma {:induction false} WithKeyHas<T>(key: T -> int, s: seq<T>, n: int, x: T)
    ensures x in WithKey(key, s, n) <==> x in s && key(x) == n
  {
    if s != [] {
      WithKeyHas(key, s[..|s| - 1], n, x);
      assert s == s[..|s| - 1] + [s[|s| - 1]];
    }
  }

  lemma LastIsGreatest<T>(key: T -> int, a: seq<T>, b: seq<T>)
    requires Ascending(key, b) && a != []
    requires forall n :: WithKey(key, a, n) == WithKey(key, b, n)
    ensures b != [] && key(a[|a| - 1]) <= key(b[|b| - 1])
  {
    var x := a[|a| - 1];
    WithKeyHas(key, a, key(x), x);
    WithKeyHas(key, b, key(x), x);
    var k :| 0 <= k < |b| && b[k] == x;
  }

  /** The promise leaves no choice: a stable sort is determined by its input. */
  lemma {:induction false} StableSortIsUnique<T>(key: T -> int, a: seq<T>, b: seq<T>)
    requires Ascending(key, a) && Ascending(key, b)
    requires forall n :: WithKey(key, a, n) == WithKey(key, b, n)
    ensures a == b
    decreases |a|
  {
    if a != [] {
      LastIsGreatest(key, a, b);
      LastIsGreatest(key, b, a);
      var x, y, initA, initB := a[|a| - 1], b[|b| - 1], a[..|a| - 1], b[..|b| - 1];
      assert a == initA + [x] && b == initB + [y];
      WithKeyAppend(key, initA, x, key(x));
      WithKeyAppend(key, initB, y, key(x));
      SameLast(WithKey(key, initA, key(x)), x, WithKey(key, initB, key(x)), y);
      forall n ensures WithKey(key, initA, n) == WithKey(key, initB, n) {
        var tail := if key(x) == n then [x] else [];
        WithKeyAppend(key, initA, x, n);
        WithKeyAppend(key, initB, x, n);
        Cancel(WithKey(key, initA, n), WithKey(key, initB, n), tail);
      }
      StableSortIsUnique(key, initA, initB);
    } else if b != [] {
      LastIsGreatest(key, b, a);
    }
  }

  lemma SameLast<T>(a: seq<T>, x: T, b: seq<T>, y: T)
    requires a + [x] == b + [y]
    ensures x == y
  {
    assert |a| == |b|;
    assert (a + [x])[|a|] == x && (b + [y])[|a|] == y;
  }

  lemma Cancel<T>(a: seq<T>, b: seq<T>, tail: seq<T>)
    requires a + tail == b + tail
    ensures a == b
  {
    assert |a| == |b|;
    assert a == (a + tail)[..|a|] && b == (b + tail)[..|b|];
  }

  function Reversed<T>(s: seq<T>): (r: seq<T>)
    ensures |r| == |s|
    ensures forall i :: 0 <= i < |s| ==> r[i] == s[|s| - 1 - i]
  {
    seq(|s|, i requires 0 <= i < |s| => s[|s| - 1 - i])
  }

  lemma {:induction false} WithKeyOfConcat<T>(key: T -> int, a: seq<T>, b: seq<T>, n: int)
    ensures WithKey(key, a + b, n) == WithKey(key, a, n) + WithKey(key, b, n)
  {
    if b == [] {
      assert a + b == a;
    } else {
      var init, last := b[..|b| - 1], b[|b| - 1];
      WithKeyOfConcat(key, a, init, n);
      assert a + b == a + init + [last];
      WithKeyAppend(key, a + init, last, n);
    }
  }

  lemma {:induction false} ReversedKeepsTies<T>(key: T -> int, s: seq<T>, n: int)
    ensures WithKey(key, Reversed(s), n) == Reversed(WithKey(key, s, n))
  {
    if s != [] {
      var init, last := s[..|s| - 1], s[|s| - 1];
      ReversedKeepsTies(key, init, n);
      assert Reversed(s) == [last] + Reversed(init);
      WithKeyOfConcat(key, [last], Reversed(init), n);
      WithKeyAppend(key, [], last, n);
      assert [] + [last] == [last];
    }
  }

  lemma {:induction false} ReversedIsPermutation<T>(s: seq<T>)
    ensures multiset(Reversed(s)) == multiset(s)
  {
    if s != [] {
      var init, last := s[..|s| - 1], s[|s| - 1];
      ReversedIsPermutation(init);
      assert Reversed(s) == [last] + Reversed(init) && s == init + [last];
    }
  }

  /** Where the elements with a key stand. */
  lemma {:induction false} WithKeyFrom<T>(key: T -> int, s: seq<T>, n: int, k: nat) returns (p: nat)
    requires k < |WithKey(key, s, n)|
    ensures p < |s| && s[p] == WithKey(key, s, n)[k] && |WithKey(key, s[..p], n)| == k
  {
    var init := s[..|s| - 1];
    if k < |WithKey(key, init, n)| {
      p := WithKeyFrom(key, init, n, k);
      assert init[..p] == s[..p];
    } else {
      p := |s| - 1;
    }
  }

  lemma WithKeyAt<T>(key: T -> int, s: seq<T>, p: nat)
    requires p < |s|
    ensures |WithKey(key, s[..p], key(s[p]))| < |WithKey(key, s, key(s[p]))|
    ensures WithKey(key, s, key(s[p]))[|WithKey(key, s[..p], key(s[p]))|] == s[p]
  {
    WithKeyAppend(key, s[..p], s[p], key(s[p]));
    WithKeyOfConcat(key, s[..p] + [s[p]], s[p + 1..], key(s[p]));
    assert s == s[..p] + [s[p]] + s[p + 1..];
  }

  lemma WithKeyMonotone<T>(key: T -> int, s: seq<T>, n: int, p: nat, q: nat)
    requires p <= q <= |s|
    ensures |WithKey(key, s[..p], n)| <= |WithKey(key, s[..q], n)|
  {
    WithKeyOfConcat(key, s[..p], s[p..q], n);
    assert s[..q] == s[..p] + s[p..q];
  }

  /** If the elements of each key are reversed, then so are any two of them. */
  lemma TiesReversed<T>(key: T -> int, s: seq<T>, r: seq<T>, i: nat, j: nat) returns (p: nat, q: nat)
    requires i < j < |r| && key(r[i]) == key(r[j])
    requires WithKey(key, r, key(r[i])) == Reversed(WithKey(key, s, key(r[i])))
    ensures q < p < |s| && s[p] == r[i] && s[q] == r[j]
  {
    var n := key(r[i]);
    var a, b, m := |WithKey(key, r[..i], n)|, |WithKey(key, r[..j], n)|, |WithKey(key, s, n)|;
    WithKeyAt(key, r, i);
    WithKeyAt(key, r, j);
    WithKeyAt(key, r[..j], i);
    assert r[..j][..i] == r[..i];
    p := WithKeyFrom(key, s, n, m - 1 - a);
    q := WithKeyFrom(key, s, n, m - 1 - b);
    if p <= q {
      WithKeyMonotone(key, s, n, p, q);
    }
  }

  /** A stable sort read backwards: a permutation by non-increasing key, equal keys in reverse order. */
  lemma ReversedSort<T>(key: T -> int, s: seq<T>)
    ensures var r := Reversed(StableSort(key, s));
            && multiset(r) == multiset(s)
            && (forall i, j :: 0 <= i < j < |r| ==> key(r[i]) >= key(r[j]))
            && (forall n :: WithKey(key, r, n) == Reversed(WithKey(key, s, n)))
  {
    ReversedIsPermutation(StableSort(key, s));
    StableSortSorts(key, s);
    forall n ensures WithKey(key, Reversed(StableSort(key, s)), n) == Reversed(WithKey(key, s, n)) {
      ReversedKeepsTies(key, StableSort(key, s), n);
    }
  }
}
