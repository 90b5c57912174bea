/** `sort_by_key`: the stable sort the recorder relies on. */
module StableSort {

  function InsertByKey<T>(xs: seq<T>, x: T, key: T -> nat): seq<T> {
    if xs == [] || key(xs[|xs| - 1]) <= key(x) then xs + [x]
    else InsertByKey(xs[..|xs| - 1], x, key) + [xs[|xs| - 1]]
  }

  function SortByKey<T>(xs: seq<T>, key: T -> nat): seq<T> {
    if xs == [] then []
    else InsertByKey(SortByKey(xs[..|xs| - 1], key), xs[|xs| - 1], key)
  }

  ghost predicate Sorted<T>(xs: seq<T>, key: T -> nat) {
    forall i, j :: 0 <= i < j < |xs| ==> key(xs[i]) <= key(xs[j])
  }

  ghost predicate StrictlySorted<T>(xs: seq<T>, key: T -> nat) {
    forall i, j :: 0 <= i < j < |xs| ==> key(xs[i]) < key(xs[j])
  }

  ghost predicate DistinctKeys<T>(xs: seq<T>, key: T -> nat) {
    forall i, j :: 0 <= i < j < |xs| ==> key(xs[i]) != key(xs[j])
  }

  /** The elements with key `k`, in order. */
  ghost function WithKey<T>(xs: seq<T>, k: nat, key: T -> nat): seq<T> {
    if xs == [] then []
    else WithKey(xs[..|xs| - 1], k, key) + if key(xs[|xs| - 1]) == k then [xs[|xs| - 1]] else []
  }

  lemma SplitLast<T(!new)>(xs: seq<T>)
    requires xs != []
    ensures xs == xs[..|xs| - 1] + [xs[|xs| - 1]]
  {}

  lemma {:induction false} InsertPermutes<T(!new)>(xs: seq<T>, x: T, key: T -> nat)
    ensures multiset(InsertByKey(xs, x, key)) == multiset(xs) + multiset{x}
  {
    if xs != [] {
      SplitLast(xs);
      InsertPermutes(xs[..|xs| - 1], x, key);
    }
  }

  lemma {:induction false} SortPermutes<T(!new)>(xs: seq<T>, key: T -> nat)
    ensures multiset(SortByKey(xs, key)) == multiset(xs)
    ensures |SortByKey(xs, key)| == |xs|
  {
    if xs != [] {
      SplitLast(xs);
      SortPermutes(xs[..|xs| - 1], key);
      InsertPermutes(SortByKey(xs[..|xs| - 1], key), xs[|xs| - 1], key);
      assert |multiset(SortByKey(xs, key))| == |multiset(xs)|;
    }
  }

  lemma SameMembers<T(!new)>(a: seq<T>, b: seq<T>)
    requires multiset(a) == multiset(b)
    ensures forall x :: x in a <==> x in b
  {
    forall x ensures x in a <==> x in b {
      assert x in a <==> x in multiset(a);
      assert x in b <==> x in multiset(b);
    }
  }

  lemma {:induction false} InsertSorts<T(!new)>(xs: seq<T>, x: T, key: T -> nat)
    requires Sorted(xs, key)
    ensures Sorted(InsertByKey(xs, x, key), key)
    ensures forall y :: y in InsertByKey(xs, x, key) <==> y == x || y in xs
  {
    if xs != [] && key(xs[|xs| - 1]) > key(x) {
      var before, last := xs[..|xs| - 1], xs[|xs| - 1];
      SplitLast(xs);
      InsertSorts(before, x, key);
      var r := InsertByKey(before, x, key);
      forall i | 0 <= i < |r| ensures key(r[i]) <= key(last) {
        assert r[i] in r && (r[i] in before ==> r[i] in xs);
        if r[i] != x {
          var j :| 0 <= j < |before| && before[j] == r[i];
          assert xs[j] == r[i];
        }
      }
    }
  }

  lemma {:induction false} InsertSortsStrictly<T(!new)>(xs: seq<T>, x: T, key: T -> nat)
    requires StrictlySorted(xs, key) && forall y :: y in xs ==> key(y) != key(x)
    ensures StrictlySorted(InsertByKey(xs, x, key), key)
  {
    if xs != [] && key(xs[|xs| - 1]) > key(x) {
      var before := xs[..|xs| - 1];
      InsertSorts(before, x, key);
      InsertSortsStrictly(before, x, key);
      BelowLast(xs, key);
      AppendGreatest(InsertByKey(before, x, key), xs[|xs| - 1], key);
    } else {
      InsertSorts(xs, x, key);
    }
  }

  lemma BelowLast<T(!new)>(xs: seq<T>, key: T -> nat)
    requires xs != [] && StrictlySorted(xs, key)
    ensures forall y :: y in xs[..|xs| - 1] ==> y in xs && key(y) < key(xs[|xs| - 1])
  {
    forall y | y in xs[..|xs| - 1] ensures y in xs && key(y) < key(xs[|xs| - 1]) {
      var i :| 0 <= i < |xs| - 1 && xs[i] == y;
    }
  }

  lemma AppendGreatest<T(!new)>(xs: seq<T>, x: T, key: T -> nat)
    requires StrictlySorted(xs, key) && forall y :: y in xs ==> key(y) < key(x)
    ensures StrictlySorted(xs + [x], key)
  {}

  lemma {:induction false} SortSorts<T(!new)>(xs: seq<T>, key: T -> nat)
    ensures Sorted(SortByKey(xs, key), key)
    ensures DistinctKeys(xs, key) ==> StrictlySorted(SortByKey(xs, key), key)
  {
    if xs != [] {
      var before := xs[..|xs| - 1];
      SortSorts(before, key);
      SortPermutes(before, key);
      SameMembers(SortByKey(before, key), before);
      InsertSorts(SortByKey(before, key), xs[|xs| - 1], key);
      if DistinctKeys(xs, key) {
        forall y | y in SortByKey(before, key) ensures key(y) != key(xs[|xs| - 1]) {
          assert y in before;
          var i :| 0 <= i < |before| && before[i] == y;
          assert xs[i] == y;
        }
        InsertSortsStrictly(SortByKey(before, key), xs[|xs| - 1], key);
      }
    }
  }

  lemma {:induction false} InsertStable<T(!new)>(xs: seq<T>, x: T, k: nat, key: T -> nat)
    requires Sorted(xs, key)
    ensures WithKey(InsertByKey(xs, x, key), k, key) == WithKey(xs, k, key) + if key(x) == k then [x] else []
  {
    if xs == [] || key(xs[|xs| - 1]) <= key(x) {
      assert (xs + [x])[..|xs|] == xs;
    } else {
      var before, last := xs[..|xs| - 1], xs[|xs| - 1];
      InsertStable(before, x, k, key);
      var r := InsertByKey(before, x, key);
      assert (r + [last])[..|r|] == r;
      if key(x) == k {
        assert key(last) != k;
      }
    }
  }

  /** Elements with equal keys keep their order. */
  lemma {:induction false} SortIsStable<T(!new)>(xs: seq<T>, k: nat, key: T -> nat)
    ensures WithKey(SortByKey(xs, key), k, key) == WithKey(xs, k, key)
  {
    if xs != [] {
      SortIsStable(xs[..|xs| - 1], k, key);
      SortSorts(xs[..|xs| - 1], key);
      InsertStable(SortByKey(xs[..|xs| - 1], key), xs[|xs| - 1], k, key);
    }
  }

  lemma LastOfSorted<T(!new)>(a: seq<T>, b: seq<T>, key: T -> nat)
    requires multiset(a) == multiset(b) && StrictlySorted(a, key) && Sorted(b, key) && a != []
    ensures |a| == |b| && a[|a| - 1] == b[|b| - 1]
  {
    assert |multiset(a)| == |multiset(b)|;
    SameMembers(a, b);
    var x, y := a[|a| - 1], b[|b| - 1];
    assert x in b && y in a;
    var i :| 0 <= i < |a| && a[i] == y;
    var j :| 0 <= j < |b| && b[j] == x;
  }

  /** With distinct keys there is only one sorted arrangement. */
  lemma {:induction false} SortedIsUnique<T(!new)>(a: seq<T>, b: seq<T>, key: T -> nat)
    requires multiset(a) == multiset(b) && StrictlySorted(a, key) && Sorted(b, key)
    ensures a == b
  {
    if a == [] {
      assert |multiset(b)| == 0;
    } else {
      LastOfSorted(a, b, key);
      SplitLast(a);
      SplitLast(b);
      var a', b' := a[..|a| - 1], b[..|b| - 1];
      assert multiset(a') == multiset(a) - multiset{a[|a| - 1]};
      assert multiset(b') == multiset(b) - multiset{b[|b| - 1]};
      SortedIsUnique(a', b', key);
    }
  }

  /** Sorting forgets arrival order when keys are distinct. */
  lemma SortForgetsOrder<T(!new)>(a: seq<T>, b: seq<T>, key: T -> nat)
    requires multiset(a) == multiset(b) && DistinctKeys(a, key)
    ensures SortByKey(a, key) == SortByKey(b, key)
  {
    SortPermutes(a, key);
    SortPermutes(b, key);
    SortSorts(a, key);
    SortSorts(b, key);
    SortedIsUnique(SortByKey(a, key), SortByKey(b, key), key);
  }
}
