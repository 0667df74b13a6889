/**
 * `Array.prototype.sort` with a numeric comparator: since ECMAScript 2019 the sort is stable.
 * It is modelled by a stable insertion sort, and the lemmas below show that the sorted,
 * order-preserving rearrangement is unique, so any stable sort computes the same list.
 */
module Sorting {

  function Insert<T>(x: T, xs: seq<T>, key: T -> int): seq<T> {
    if xs == [] || key(x) <= key(xs[0]) then [x] + xs
    else [xs[0]] + Insert(x, xs[1..], key)
  }

  function StableSort<T>(xs: seq<T>, key: T -> int): seq<T> {
    if xs == [] then [] else Insert(xs[0], StableSort(xs[1..], key), key)
  }

  ghost predicate Sorted<T>(xs: seq<T>, key: T -> int) {
    forall i, j | 0 <= i < j < |xs| :: key(xs[i]) <= key(xs[j])
  }

  /** The elements of `xs` whose key is `k`, in their order of appearance. */
  function Class<T>(xs: seq<T>, key: T -> int, k: int): seq<T> {
    if xs == [] then []
    else (if key(xs[0]) == k then [xs[0]] else []) + Class(xs[1..], key, k)
  }

  /** The elements of `xs` whose key is below `b`, in order; `From` keeps the others. */
  function Below<T>(xs: seq<T>, key: T -> int, b: int): seq<T> {
    if xs == [] then []
    else (if key(xs[0]) < b then [xs[0]] else []) + Below(xs[1..], key, b)
  }

  function From<T>(xs: seq<T>, key: T -> int, b: int): seq<T> {
    if xs == [] then []
    else (if key(xs[0]) >= b then [xs[0]] else []) + From(xs[1..], key, b)
  }

  lemma SortedCons<T>(x: T, xs: seq<T>, key: T -> int)
    requires Sorted(xs, key) && forall j | 0 <= j < |xs| :: key(x) <= key(xs[j])
    ensures Sorted([x] + xs, key)
  {
  }

  lemma {:induction false} InsertKeepsElements<T>(x: T, xs: seq<T>, key: T -> int)
    ensures multiset(Insert(x, xs, key)) == multiset([x]) + multiset(xs)
  {
    if xs == [] || key(x) <= key(xs[0]) {
    } else {
      InsertKeepsElements(x, xs[1..], key);
      assert xs == [xs[0]] + xs[1..];
    }
  }

  lemma {:induction false} InsertSorts<T>(x: T, xs: seq<T>, key: T -> int)
    requires Sorted(xs, key)
    ensures Sorted(Insert(x, xs, key), key)
  {
    if xs == [] || key(x) <= key(xs[0]) {
    } else {
      var rest := Insert(x, xs[1..], key);
      InsertSorts(x, xs[1..], key);
      InsertKeepsElements(x, xs[1..], key);
      forall j | 0 <= j < |rest| ensures key(xs[0]) <= key(rest[j]) {
        assert rest[j] in multiset(rest);
        if rest[j] != x {
          assert rest[j] in xs[1..];
        }
      }
      SortedCons(xs[0], rest, key);
    }
  }

  /** The result is sorted and is a permutation of the input. */
  lemma {:induction false} SortedPermutation<T>(xs: seq<T>, key: T -> int)
    ensures Sorted(StableSort(xs, key), key)
    ensures multiset(StableSort(xs, key)) == multiset(xs)
    ensures |StableSort(xs, key)| == |xs|
  {
    if xs == [] {
    } else {
      SortedPermutation(xs[1..], key);
      InsertSorts(xs[0], StableSort(xs[1..], key), key);
      InsertKeepsElements(xs[0], StableSort(xs[1..], key), key);
      assert xs == [xs[0]] + xs[1..];
      assert |multiset(StableSort(xs, key))| == |multiset(xs)|;
    }
  }

  /** Membership only, for callers that do not count. */
  lemma SameElements<T>(xs: seq<T>, key: T -> int)
    ensures forall x | x in StableSort(xs, key) :: x in xs
    ensures forall x | x in xs :: x in StableSort(xs, key)
  {
    SortedPermutation(xs, key);
    forall x | x in StableSort(xs, key) ensures x in xs {
      assert x in multiset(StableSort(xs, key));
    }
    forall x | x in xs ensures x in StableSort(xs, key) {
      assert x in multiset(xs);
    }
  }

  lemma {:induction false} InsertStable<T>(x: T, xs: seq<T>, key: T -> int, k: int)
    ensures Class(Insert(x, xs, key), key, k) == (if key(x) == k then [x] else []) + Class(xs, key, k)
  {
    var r := Insert(x, xs, key);
    if xs == [] || key(x) <= key(xs[0]) {
      assert r[0] == x && r[1..] == xs;
    } else {
      InsertStable(x, xs[1..], key, k);
      assert r[0] == xs[0] && r[1..] == Insert(x, xs[1..], key);
      if key(x) == k {
        assert Class(xs, key, k) == Class(xs[1..], key, k);
      }
    }
  }

  lemma {:induction false} ClassConcat<T>(xs: seq<T>, ys: seq<T>, key: T -> int, k: int)
    ensures Class(xs + ys, key, k) == Class(xs, key, k) + Class(ys, key, k)
  {
    if xs == [] {
      assert xs + ys == ys;
    } else {
      ClassConcat(xs[1..], ys, key, k);
      assert (xs + ys)[1..] == xs[1..] + ys && (xs + ys)[0] == xs[0];
      var head := if key(xs[0]) == k then [xs[0]] else [];
      assert head + (Class(xs[1..], key, k) + Class(ys, key, k)) == (head + Class(xs[1..], key, k)) + Class(ys, key, k);
    }
  }

  /** Elements with equal keys keep their relative order. */
  lemma {:induction false} Stability<T>(xs: seq<T>, key: T -> int, k: int)
    ensures Class(StableSort(xs, key), key, k) == Class(xs, key, k)
  {
    if xs != [] {
      Stability(xs[1..], key, k);
      InsertStable(xs[0], StableSort(xs[1..], key), key, k);
    }
  }

  /** A list sorted by key is determined by its classes: the stable sort is unique. */
  lemma {:induction false} StableSortIsUnique<T>(xs: seq<T>, ys: seq<T>, key: T -> int)
    requires Sorted(xs, key) && Sorted(ys, key)
    requires forall k :: Class(xs, key, k) == Class(ys, key, k)
    ensures xs == ys
  {
    if xs != [] {
      NonEmptyTogether(ys, xs, key);
    }
    if ys != [] {
      NonEmptyTogether(xs, ys, key);
      HeadOfClass(xs, ys, key);
      HeadOfClass(ys, xs, key);
      assert xs[0] == ys[0] by {
        assert Class(xs, key, key(xs[0]))[0] == xs[0];
        assert Class(ys, key, key(ys[0]))[0] == ys[0];
      }
      forall k ensures Class(xs[1..], key, k) == Class(ys[1..], key, k) {
        var head := if key(xs[0]) == k then [xs[0]] else [];
        assert Class(xs, key, k) == Class(ys, key, k);
        assert Class(xs, key, k)[|head|..] == Class(xs[1..], key, k);
        assert Class(ys, key, k)[|head|..] == Class(ys[1..], key, k);
      }
      StableSortIsUnique(xs[1..], ys[1..], key);
      assert xs == [xs[0]] + xs[1..] && ys == [ys[0]] + ys[1..];
    }
  }

  lemma NonEmptyTogether<T>(xs: seq<T>, ys: seq<T>, key: T -> int)
    requires ys != []
    requires Class(xs, key, key(ys[0])) == Class(ys, key, key(ys[0]))
    ensures xs != []
  {
    assert Class(ys, key, key(ys[0])) != [];
  }

  lemma HeadOfClass<T>(xs: seq<T>, ys: seq<T>, key: T -> int)
    requires xs != [] && ys != [] && Sorted(ys, key)
    requires Class(xs, key, key(xs[0])) == Class(ys, key, key(xs[0]))
    ensures key(ys[0]) <= key(xs[0])
  {
    assert Class(xs, key, key(xs[0])) != [];
    ClassMember(ys, key, key(xs[0]));
  }

  lemma {:induction false} ClassMember<T>(xs: seq<T>, key: T -> int, k: int)
    requires Class(xs, key, k) != []
    ensures exists i :: 0 <= i < |xs| && key(xs[i]) == k
  {
    if key(xs[0]) == k {
    } else {
      ClassMember(xs[1..], key, k);
      var i :| 0 <= i < |xs[1..]| && key(xs[1..][i]) == k;
      assert key(xs[i + 1]) == k;
    }
  }

  lemma {:induction false} InsertAcross<T>(x: T, lo: seq<T>, hi: seq<T>, key: T -> int, b: int)
    requires forall y | y in lo :: key(y) < b
    requires forall y | y in hi :: key(y) >= b
    ensures Insert(x, lo + hi, key) ==
            if key(x) < b then Insert(x, lo, key) + hi else lo + Insert(x, hi, key)
  {
    if lo == [] {
      assert lo + hi == hi;
      if hi == [] {
      }
    } else {
      assert (lo + hi)[0] == lo[0];
      assert (lo + hi)[1..] == lo[1..] + hi;
      if key(x) <= key(lo[0]) {
        assert key(lo[0]) < b;
      } else {
        InsertAcross(x, lo[1..], hi, key, b);
        if key(x) < b {
        } else {
          assert lo == [lo[0]] + lo[1..];
        }
      }
    }
  }

  /** Sorting a list is sorting what lies below a bound, then what lies from it on. */
  lemma {:induction false} SortSplits<T>(xs: seq<T>, key: T -> int, b: int)
    ensures StableSort(xs, key) == StableSort(Below(xs, key, b), key) + StableSort(From(xs, key, b), key)
  {
    if xs != [] {
      SortSplits(xs[1..], key, b);
      var lo, hi := StableSort(Below(xs[1..], key, b), key), StableSort(From(xs[1..], key, b), key);
      SameElements(Below(xs[1..], key, b), key);
      SameElements(From(xs[1..], key, b), key);
      BoundedParts(xs[1..], key, b);
      InsertAcross(xs[0], lo, hi, key, b);
      if key(xs[0]) < b {
        assert From(xs, key, b) == From(xs[1..], key, b);
        assert Below(xs, key, b)[1..] == Below(xs[1..], key, b);
      } else {
        assert Below(xs, key, b) == Below(xs[1..], key, b);
        assert From(xs, key, b)[1..] == From(xs[1..], key, b);
      }
    }
  }

  lemma {:induction false} BoundedParts<T>(xs: seq<T>, key: T -> int, b: int)
    ensures forall y | y in Below(xs, key, b) :: key(y) < b
    ensures forall y | y in From(xs, key, b) :: key(y) >= b
  {
    if xs != [] {
      BoundedParts(xs[1..], key, b);
    }
  }

  /** A list in which no value is counted twice has distinct elements. */
  lemma CountsGiveDistinct<T>(xs: seq<T>, i: nat, j: nat)
    requires i < j < |xs| && multiset(xs)[xs[j]] <= 1
    ensures xs[i] != xs[j]
  {
    assert xs == xs[..j] + xs[j..];
    assert xs[j..][0] == xs[j];
    assert xs[j] !in multiset(xs[..j]);
    assert xs[i] == xs[..j][i];
    assert xs[..j][i] in multiset(xs[..j]);
  }

  lemma {:induction false} BelowFromConcat<T>(xs: seq<T>, ys: seq<T>, key: T -> int, b: int)
    ensures Below(xs + ys, key, b) == Below(xs, key, b) + Below(ys, key, b)
    ensures From(xs + ys, key, b) == From(xs, key, b) + From(ys, key, b)
  {
    if xs == [] {
      assert xs + ys == ys;
    } else {
      assert (xs + ys)[1..] == xs[1..] + ys;
      BelowFromConcat(xs[1..], ys, key, b);
    }
  }

  function SumOf<T>(xs: seq<T>, f: T -> int): int {
    if xs == [] then 0 else f(xs[0]) + SumOf(xs[1..], f)
  }

  lemma {:induction false} SumOfConcat<T>(xs: seq<T>, ys: seq<T>, f: T -> int)
    ensures SumOf(xs + ys, f) == SumOf(xs, f) + SumOf(ys, f)
  {
    if xs == [] {
      assert xs + ys == ys;
    } else {
      assert (xs + ys)[1..] == xs[1..] + ys;
      SumOfConcat(xs[1..], ys, f);
    }
  }

  lemma {:induction false} InsertAddsToSum<T>(x: T, xs: seq<T>, key: T -> int, f: T -> int)
    ensures SumOf(Insert(x, xs, key), f) == f(x) + SumOf(xs, f)
  {
    var r := Insert(x, xs, key);
    if xs == [] || key(x) <= key(xs[0]) {
      assert r[1..] == xs;
    } else {
      InsertAddsToSum(x, xs[1..], key, f);
      assert r[1..] == Insert(x, xs[1..], key);
    }
  }

  /** Sorting changes no total. */
  lemma {:induction false} SortKeepsSum<T>(xs: seq<T>, key: T -> int, f: T -> int)
    ensures SumOf(StableSort(xs, key), f) == SumOf(xs, f)
  {
    if xs != [] {
      SortKeepsSum(xs[1..], key, f);
      InsertAddsToSum(xs[0], StableSort(xs[1..], key), key, f);
    }
  }
}
