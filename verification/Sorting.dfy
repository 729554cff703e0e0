/** Stable sorting by a pair of numbers, as the built-in sorts of JavaScript and Python do it. */
module Sorting {

  type Key = (real, real)

  predicate KeyLess(a: Key, b: Key) {
    a.0 < b.0 || (a.0 == b.0 && a.1 < b.1)
  }

  predicate Sorted<T>(xs: seq<T>, key: T -> Key) {
    forall i, j :: 0 <= i < j < |xs| ==> !KeyLess(key(xs[j]), key(xs[i]))
  }

  /** Put `x` behind everything that it is not less than. */
  function Insert<T>(xs: seq<T>, x: T, key: T -> Key): (ys: seq<T>)
    ensures |ys| == |xs| + 1
  {
    if xs == [] || !KeyLess(key(x), key(xs[|xs| - 1])) then xs + [x]
    else Insert(xs[..|xs| - 1], x, key) + [xs[|xs| - 1]]
  }

  function Sort<T>(xs: seq<T>, key: T -> Key): (ys: seq<T>)
    ensures |ys| == |xs|
  {
    if xs == [] then [] else Insert(Sort(xs[..|xs| - 1], key), xs[|xs| - 1], key)
  }

  /** The elements with the given key, in order. */
  function WithKey<T>(xs: seq<T>, k: Key, key: T -> Key): seq<T> {
    if xs == [] then []
    else if key(xs[0]) == k then [xs[0]] + WithKey(xs[1..], k, key)
    else WithKey(xs[1..], k, key)
  }

  /** Where `x` goes, and that everything else keeps its order. */
  lemma {:induction false} InsertAt<T>(xs: seq<T>, x: T, key: T -> Key) returns (i: nat)
    ensures i <= |xs| && Insert(xs, x, key) == xs[..i] + [x] + xs[i..]
    ensures i > 0 ==> !KeyLess(key(x), key(xs[i - 1]))
    ensures forall j :: i <= j < |xs| ==> KeyLess(key(x), key(xs[j]))
  {
    if xs == [] || !KeyLess(key(x), key(xs[|xs| - 1])) {
      i := |xs|;
      assert xs[..i] + [x] + xs[i..] == xs + [x];
    } else {
      var n := |xs| - 1;
      i := InsertAt(xs[..n], x, key);
      assert xs[..n][..i] == xs[..i] && xs[..n][i..] + [xs[n]] == xs[i..];
      assert Insert(xs, x, key) == xs[..i] + [x] + (xs[..n][i..] + [xs[n]]);
    }
  }

  lemma InsertSorted<T>(xs: seq<T>, x: T, key: T -> Key)
    requires Sorted(xs, key)
    ensures Sorted(Insert(xs, x, key), key)
  {
    var i := InsertAt(xs, x, key);
    var ys := xs[..i] + [x] + xs[i..];
    forall j, k | 0 <= j < k < |ys| ensures !KeyLess(key(ys[k]), key(ys[j])) {
      if k == i && j < i - 1 {
        assert !KeyLess(key(xs[i - 1]), key(xs[j]));
      }
    }
  }

  lemma {:induction false} SortSorted<T>(xs: seq<T>, key: T -> Key)
    ensures Sorted(Sort(xs, key), key)
  {
    if xs != [] {
      SortSorted(xs[..|xs| - 1], key);
      InsertSorted(Sort(xs[..|xs| - 1], key), xs[|xs| - 1], key);
    }
  }

  lemma SortSnoc<T>(xs: seq<T>, x: T, key: T -> Key)
    ensures Sort(xs + [x], key) == Insert(Sort(xs, key), x, key)
  {
  }

  /** A sorted sequence with an element appended is sorted by inserting the element. */
  lemma SortAppended<T>(xs: seq<T>, x: T, key: T -> Key)
    requires Sorted(xs, key)
    ensures Sort(xs + [x], key) == Insert(xs, x, key)
  {
    SortFixed(xs, key);
    SortSnoc(xs, x, key);
  }

  lemma {:induction false} SortFixed<T>(xs: seq<T>, key: T -> Key)
    requires Sorted(xs, key)
    ensures Sort(xs, key) == xs
  {
    if xs != [] {
      var n := |xs| - 1;
      SortFixed(xs[..n], key);
      assert n > 0 ==> !KeyLess(key(xs[n]), key(xs[n - 1]));
      assert xs[..n] + [xs[n]] == xs;
    }
  }

  lemma {:induction false} WithKeyConcat<T>(xs: seq<T>, ys: seq<T>, k: Key, key: T -> Key)
    ensures WithKey(xs + ys, k, key) == WithKey(xs, k, key) + WithKey(ys, k, key)
  {
    if xs == [] {
      assert xs + ys == ys;
    } else {
      assert (xs + ys)[1..] == xs[1..] + ys;
      WithKeyConcat(xs[1..], ys, k, key);
    }
  }

  lemma {:induction false} WithKeyAbsent<T>(xs: seq<T>, k: Key, key: T -> Key)
    requires forall i :: 0 <= i < |xs| ==> key(xs[i]) != k
    ensures WithKey(xs, k, key) == []
  {
    if xs != [] { WithKeyAbsent(xs[1..], k, key); }
  }

  lemma InsertStable<T>(xs: seq<T>, x: T, k: Key, key: T -> Key)
    ensures WithKey(Insert(xs, x, key), k, key) == WithKey(xs + [x], k, key)
  {
    var i := InsertAt(xs, x, key);
    var a, b := xs[..i], xs[i..];
    assert xs == a + b;
    WithKeyConcat(a + [x], b, k, key);
    WithKeyConcat(a, [x], k, key);
    WithKeyConcat(xs, [x], k, key);
    WithKeyConcat(a, b, k, key);
    if key(x) == k { WithKeyAbsent(b, k, key); } else { WithKeyAbsent([x], k, key); }
  }

  /** Elements with equal keys keep their order. */
  lemma {:induction false} SortStable<T>(xs: seq<T>, k: Key, key: T -> Key)
    ensures WithKey(Sort(xs, key), k, key) == WithKey(xs, k, key)
  {
    if xs != [] {
      var n := |xs| - 1;
      SortStable(xs[..n], k, key);
      InsertStable(Sort(xs[..n], key), xs[n], k, key);
      WithKeyConcat(Sort(xs[..n], key), [xs[n]], k, key);
      WithKeyConcat(xs[..n], [xs[n]], k, key);
      assert xs == xs[..n] + [xs[n]];
    }
  }

  lemma FirstWithKey<T>(xs: seq<T>, key: T -> Key)
    ensures xs != [] ==> WithKey(xs, key(xs[0]), key) != [] && WithKey(xs, key(xs[0]), key)[0] == xs[0]
  {
  }

  /**
   * There is only one stable sort: sorted sequences whose elements of each key come in the same
   * order are equal.
   */
  lemma {:induction false} StableSortUnique<T(!new)>(xs: seq<T>, ys: seq<T>, key: T -> Key)
    requires Sorted(xs, key) && Sorted(ys, key)
    requires forall k :: WithKey(xs, k, key) == WithKey(ys, k, key)
    ensures xs == ys
    decreases |xs|
  {
    FirstWithKey(xs, key);
    FirstWithKey(ys, key);
    if xs != [] {
      var k := key(xs[0]);
      if ys == [] || KeyLess(k, key(ys[0])) { WithKeyAbsent(ys, k, key); }
      if KeyLess(key(ys[0]), k) { WithKeyAbsent(xs, key(ys[0]), key); }
      forall l ensures WithKey(xs[1..], l, key) == WithKey(ys[1..], l, key) {
        assert WithKey(xs, l, key) == WithKey(ys, l, key);
        if l == k {
          assert WithKey(xs, l, key)[1..] == WithKey(xs[1..], l, key);
          assert WithKey(ys, l, key)[1..] == WithKey(ys[1..], l, key);
        }
      }
      StableSortUnique(xs[1..], ys[1..], key);
      assert xs == [xs[0]] + xs[1..] && ys == [ys[0]] + ys[1..];
    }
  }

  lemma InsertMultiset<T>(xs: seq<T>, x: T, key: T -> Key)
    ensures multiset(Insert(xs, x, key)) == multiset(xs) + multiset{x}
  {
    var i := InsertAt(xs, x, key);
    assert xs == xs[..i] + xs[i..];
  }

  lemma {:induction false} SortMultiset<T>(xs: seq<T>, key: T -> Key)
    ensures multiset(Sort(xs, key)) == multiset(xs)
  {
    if xs != [] {
      var n := |xs| - 1;
      SortMultiset(xs[..n], key);
      InsertMultiset(Sort(xs[..n], key), xs[n], key);
      assert xs == xs[..n] + [xs[n]];
    }
  }

  /** Position `i` holds the least element, the earliest of those with its key. */
  ghost predicate IsEarliestLeast<T>(xs: seq<T>, i: nat, key: T -> Key) {
    && i < |xs|
    && (forall j :: 0 <= j < i ==> KeyLess(key(xs[i]), key(xs[j])))
    && (forall j :: i < j < |xs| ==> !KeyLess(key(xs[j]), key(xs[i])))
  }

  lemma {:induction false} InsertKeepsFirst<T>(xs: seq<T>, x: T, key: T -> Key)
    requires Sorted(xs, key) && xs != []
    ensures KeyLess(key(x), key(xs[0])) ==> Insert(xs, x, key) == [x] + xs
    ensures !KeyLess(key(x), key(xs[0])) ==>
      Insert(xs, x, key)[0] == xs[0] && Insert(xs, x, key)[1..] == Insert(xs[1..], x, key)
  {
    var n := |xs| - 1;
    if n > 0 {
      assert !KeyLess(key(xs[n]), key(xs[0]));
      assert xs[1..][..n - 1] == xs[..n][1..] && xs[1..][n - 1] == xs[n];
      if KeyLess(key(x), key(xs[n])) { InsertKeepsFirst(xs[..n], x, key); }
    }
  }

  lemma EarliestLeastExtends<T>(xs: seq<T>, i: nat, x: T, key: T -> Key)
    requires IsEarliestLeast(xs, i, key)
    ensures KeyLess(key(x), key(xs[i])) ==> IsEarliestLeast(xs + [x], |xs|, key)
    ensures !KeyLess(key(x), key(xs[i])) ==> IsEarliestLeast(xs + [x], i, key)
  {
  }

  lemma HeadChanges<T>(rest: seq<T>, x: T, key: T -> Key)
    requires rest != [] && KeyLess(key(x), key(Sort(rest, key)[0]))
    ensures Insert(Sort(rest, key), x, key) == [x] + Sort(rest, key)
  {
    SortSorted(rest, key);
    InsertKeepsFirst(Sort(rest, key), x, key);
  }

  lemma HeadStays<T>(rest: seq<T>, x: T, others: seq<T>, key: T -> Key)
    requires rest != [] && Sort(rest, key)[1..] == Sort(others, key)
    requires !KeyLess(key(x), key(Sort(rest, key)[0]))
    ensures Insert(Sort(rest, key), x, key) == [Sort(rest, key)[0]] + Sort(others + [x], key)
  {
    SortSorted(rest, key);
    InsertKeepsFirst(Sort(rest, key), x, key);
    SortSnoc(others, x, key);
    var inserted := Insert(Sort(rest, key), x, key);
    assert inserted == [inserted[0]] + inserted[1..];
  }

  /** The head of a sorted sequence is the earliest least element, and the tail sorts the others. */
  lemma {:induction false} SortHead<T>(xs: seq<T>, key: T -> Key) returns (i: nat)
    requires xs != []
    ensures IsEarliestLeast(xs, i, key)
    ensures Sort(xs, key)[0] == xs[i]
    ensures Sort(xs, key)[1..] == Sort(xs[..i] + xs[i + 1..], key)
  {
    var n := |xs| - 1;
    var rest, x := xs[..n], xs[n];
    if n == 0 {
      i := 0;
      assert xs[..0] + xs[1..] == [];
    } else {
      var j := SortHead(rest, key);
      EarliestLeastExtends(rest, j, x, key);
      assert xs == rest + [x];
      if KeyLess(key(x), key(rest[j])) {
        i := n;
        assert xs[..n] + xs[n + 1..] == rest;
        HeadChanges(rest, x, key);
      } else {
        i := j;
        assert xs[..j] + xs[j + 1..] == rest[..j] + rest[j + 1..] + [x];
        HeadStays(rest, x, rest[..j] + rest[j + 1..], key);
      }
    }
  }
}
