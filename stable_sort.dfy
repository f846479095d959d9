/** A stable sort by a real-valued key: the order `Collections.sort` produces, since that sort is
    stable. `Sort` is insertion sort; `SortedPermutationUnique` shows every stable sort by the same
    key returns the same list, so this particular algorithm stands for any of them. */
module StableSort {

  predicate Sorted<T>(s: seq<T>, key: T -> real) {
    forall i, j :: 0 <= i < j < |s| ==> key(s[i]) <= key(s[j])
  }

  /** The elements of `s` whose key is `k`, in their order in `s`. A sort is stable exactly when it
      keeps this subsequence for every `k`. */
  function WithKey<T>(s: seq<T>, key: T -> real, k: real): (r: seq<T>)
    ensures |r| <= |s|
    decreases |s|
  {
    if s == [] then []
    else WithKey(s[..|s| - 1], key, k) + (if key(s[|s| - 1]) == k then [s[|s| - 1]] else [])
  }

  lemma {:induction false} WithKeyMembers<T>(s: seq<T>, key: T -> real, k: real)
    ensures forall x :: x in WithKey(s, key, k) ==> x in s && key(x) == k
    decreases |s|
  {
    if s != [] {
      WithKeyMembers(s[..|s| - 1], key, k);
      assert forall x :: x in s[..|s| - 1] ==> x in s;
    }
  }

  lemma {:induction false} WithKeyAppend<T>(a: seq<T>, b: seq<T>, key: T -> real, k: real)
    ensures WithKey(a + b, key, k) == WithKey(a, key, k) + WithKey(b, key, k)
    decreases |b|
  {
    if b == [] {
      assert a + b == a;
    } else {
      var init := b[..|b| - 1];
      assert (a + b)[..|a + b| - 1] == a + init;
      WithKeyAppend(a, init, key, k);
    }
  }

  lemma WithKeySingleton<T>(x: T, key: T -> real, k: real)
    ensures WithKey([x], key, k) == if key(x) == k then [x] else []
  {
    assert [x][..0] == [];
  }

  /** Inserts `x` after every trailing element whose key is above `x`'s: into a sorted list,
      after every element whose key is at most `x`'s. */
  function Insert<T>(s: seq<T>, x: T, key: T -> real): seq<T>
    decreases |s|
  {
    if s == [] || key(s[|s| - 1]) <= key(x) then s + [x]
    else Insert(s[..|s| - 1], x, key) + [s[|s| - 1]]
  }

  /** Inserting adds `x` and loses nothing. */
  lemma {:induction false} InsertPermutes<T>(s: seq<T>, x: T, key: T -> real)
    ensures multiset(Insert(s, x, key)) == multiset(s) + multiset{x}
    decreases |s|
  {
    if s != [] && key(s[|s| - 1]) > key(x) {
      InsertPermutes(s[..|s| - 1], x, key);
      assert s == s[..|s| - 1] + [s[|s| - 1]];
    }
  }

  lemma {:induction false} InsertSorted<T>(s: seq<T>, x: T, key: T -> real)
    requires Sorted(s, key)
    ensures Sorted(Insert(s, x, key), key)
    decreases |s|
  {
    if s == [] || key(s[|s| - 1]) <= key(x) {
      assert forall i :: 0 <= i < |s| ==> key(s[i]) <= key(x);
    } else {
      var front, last := s[..|s| - 1], s[|s| - 1];
      InsertSorted(front, x, key);
      var r := Insert(front, x, key);
      InsertPermutes(front, x, key);
      forall y | y in r ensures key(y) <= key(last) {
        assert y in multiset(front) + multiset{x};
      }
      assert forall i :: 0 <= i < |r| ==> r[i] in r;
    }
  }

  lemma {:induction false} InsertWithKey<T>(s: seq<T>, x: T, key: T -> real, k: real)
    ensures WithKey(Insert(s, x, key), key, k) == WithKey(s, key, k) + WithKey([x], key, k)
    decreases |s|
  {
    if s == [] || key(s[|s| - 1]) <= key(x) {
      WithKeyAppend(s, [x], key, k);
    } else {
      var front, last := s[..|s| - 1], s[|s| - 1];
      var r := Insert(front, x, key);
      InsertWithKey(front, x, key, k);
      WithKeySingleton(x, key, k);
      WithKeySnoc(r, last, key, k);
      assert s == front + [last];
      WithKeySnoc(front, last, key, k);
      if key(last) == k {
        assert WithKey([x], key, k) == [];
      } else {
        assert WithKey(s, key, k) == WithKey(front, key, k);
      }
    }
  }

  lemma WithKeySnoc<T>(s: seq<T>, y: T, key: T -> real, k: real)
    ensures WithKey(s + [y], key, k) == WithKey(s, key, k) + if key(y) == k then [y] else []
  {
    assert (s + [y])[..|s|] == s;
  }

  /** The stable sort: sorted, a permutation of its input, and keeping the relative order of
      elements with equal keys. */
  function Sort<T>(s: seq<T>, key: T -> real): (r: seq<T>)
    ensures Sorted(r, key)
    ensures multiset(r) == multiset(s)
    ensures forall k :: WithKey(r, key, k) == WithKey(s, key, k)
    decreases |s|
  {
    if s == [] then []
    else
      var front, last := s[..|s| - 1], s[|s| - 1];
      var sorted := Sort(front, key);
      assert s == front + [last];
      InsertSorted(sorted, last, key);
      InsertPermutes(sorted, last, key);
      assert forall k :: WithKey(Insert(sorted, last, key), key, k) == WithKey(s, key, k) by {
        forall k ensures WithKey(Insert(sorted, last, key), key, k) == WithKey(s, key, k) {
          InsertWithKey(sorted, last, key, k);
          WithKeyAppend(front, [last], key, k);
        }
      }
      Insert(sorted, last, key)
  }

  lemma BoundedByLast<T>(s: seq<T>, key: T -> real, x: T)
    requires Sorted(s, key) && x in s
    ensures key(x) <= key(s[|s| - 1])
  {
    var j :| 0 <= j < |s| && s[j] == x;
  }

  lemma LastHasKey<T>(s: seq<T>, key: T -> real)
    requires s != []
    ensures WithKey(s, key, key(s[|s| - 1])) != []
  {
  }

  lemma DropLast<T>(u: seq<T>, v: seq<T>, x: T, y: T)
    requires u + [x] == v + [y]
    ensures u == v && x == y
  {
    assert |u| == |v|;
    assert u == (u + [x])[..|u|];
    assert v == (v + [y])[..|v|];
    assert x == (u + [x])[|u|];
  }

  /** Two sorted lists that agree on every key's subsequence are equal: a stable sort's result is
      determined by its input. */
  lemma {:induction false} SortedPermutationUnique<T>(a: seq<T>, b: seq<T>, key: T -> real)
    requires Sorted(a, key) && Sorted(b, key)
    requires forall k :: WithKey(a, key, k) == WithKey(b, key, k)
    ensures a == b
    decreases |a|
  {
    if a == [] && b == [] {
    } else if a == [] {
      LastHasKey(b, key);
      assert false;
    } else if b == [] {
      LastHasKey(a, key);
      assert false;
    } else {
      var frontA, lastA := a[..|a| - 1], a[|a| - 1];
      var frontB, lastB := b[..|b| - 1], b[|b| - 1];
      var ka := LastKeysAgree(a, b, key);
      assert WithKey(a, key, ka) == WithKey(frontA, key, ka) + [lastA];
      assert WithKey(b, key, ka) == WithKey(frontB, key, ka) + [lastB];
      DropLast(WithKey(frontA, key, ka), WithKey(frontB, key, ka), lastA, lastB);
      forall k ensures WithKey(frontA, key, k) == WithKey(frontB, key, k) {
        if k != ka {
          assert WithKey(frontA, key, k) == WithKey(a, key, k);
          assert WithKey(frontB, key, k) == WithKey(b, key, k);
        }
      }
      SortedPermutationUnique(frontA, frontB, key);
      assert a == frontA + [lastA];
      assert b == frontB + [lastB];
    }
  }

  /** Two non-empty sorted lists that agree on every key's subsequence end in elements with the
      same key. */
  lemma LastKeysAgree<T>(a: seq<T>, b: seq<T>, key: T -> real) returns (k: real)
    requires a != [] && b != [] && Sorted(a, key) && Sorted(b, key)
    requires forall k :: WithKey(a, key, k) == WithKey(b, key, k)
    ensures k == key(a[|a| - 1]) == key(b[|b| - 1])
  {
    var lastA, lastB := a[|a| - 1], b[|b| - 1];
    var ka, kb := key(lastA), key(lastB);
    assert lastA in WithKey(a, key, ka);
    assert lastB in WithKey(b, key, kb);
    WithKeyMembers(b, key, ka);
    BoundedByLast(b, key, lastA);
    WithKeyMembers(a, key, kb);
    BoundedByLast(a, key, lastB);
    k := ka;
  }

  /** Any sorted list that keeps every key's subsequence of `s` is `Sort(s)`. */
  lemma StableSortIsSort<T>(r: seq<T>, s: seq<T>, key: T -> real)
    requires Sorted(r, key)
    requires forall k :: WithKey(r, key, k) == WithKey(s, key, k)
    ensures r == Sort(s, key)
  {
    SortedPermutationUnique(r, Sort(s, key), key);
  }

  /** `s` with `f` applied to each element. */
  function MapSeq<A, B>(s: seq<A>, f: A -> B): (r: seq<B>)
    ensures |r| == |s| && forall i :: 0 <= i < |s| ==> r[i] == f(s[i])
  {
    seq(|s|, i requires 0 <= i < |s| => f(s[i]))
  }

  lemma {:induction false} InsertMap<A, B>(s: seq<A>, x: A, f: A -> B, k: A -> real, key: B -> real)
    requires forall a :: k(a) == key(f(a))
    ensures MapSeq(Insert(s, x, k), f) == Insert(MapSeq(s, f), f(x), key)
    decreases |s|
  {
    var m := MapSeq(s, f);
    if s == [] || k(s[|s| - 1]) <= k(x) {
      assert MapSeq(s + [x], f) == m + [f(x)];
    } else {
      var front := s[..|s| - 1];
      InsertMap(front, x, f, k, key);
      assert m[..|m| - 1] == MapSeq(front, f);
      assert MapSeq(Insert(front, x, k) + [s[|s| - 1]], f) == MapSeq(Insert(front, x, k), f) + [f(s[|s| - 1])];
    }
  }

  /** Sorting by a key that depends on `f(a)` only, then applying `f`, is sorting the images:
      what a sort of objects by a field does to the snapshots of their fields. */
  lemma {:induction false} SortMap<A, B>(s: seq<A>, f: A -> B, k: A -> real, key: B -> real)
    requires forall a :: k(a) == key(f(a))
    ensures MapSeq(Sort(s, k), f) == Sort(MapSeq(s, f), key)
    decreases |s|
  {
    if s != [] {
      var front := s[..|s| - 1];
      SortMap(front, f, k, key);
      assert MapSeq(s, f)[..|s| - 1] == MapSeq(front, f);
      InsertMap(Sort(front, k), s[|s| - 1], f, k, key);
    }
  }
}
