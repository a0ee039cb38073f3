/**
 * The sort step of the catalog page (app/page.tsx:83-97): the comparator
 * switch over the four sort keys, a stable sort (ECMAScript requires
 * `Array.prototype.sort` to be stable) specified as a function and carried out
 * in place on an array.
 */
module CatalogSort {
  import opened ProductTypes

  const PriceAsc: string := "price-asc"
  const PriceDesc: string := "price-desc"
  const RatingDesc: string := "rating-desc"
  const RatingAsc: string := "rating-asc"

  /** The case of the comparator's `switch` that a sort value selects. */
  datatype SortKey = ByPriceAsc | ByPriceDesc | ByRatingDesc | ByRatingAsc | Unsorted

  function KeyOf(sort: string): (key: SortKey)
    ensures key == ByPriceAsc <==> sort == PriceAsc
    ensures key == ByPriceDesc <==> sort == PriceDesc
    ensures key == ByRatingDesc <==> sort == RatingDesc
    ensures key == ByRatingAsc <==> sort == RatingAsc
  {
    if sort == PriceAsc then ByPriceAsc
    else if sort == PriceDesc then ByPriceDesc
    else if sort == RatingDesc then ByRatingDesc
    else if sort == RatingAsc then ByRatingAsc
    else Unsorted
  }

  /** The position key each case orders by, smallest first; 0 for every product in the default case. */
  function Rank(key: SortKey, p: Product): int
  {
    match key
    case ByPriceAsc => p.price
    case ByPriceDesc => -p.price
    case ByRatingDesc => -p.rating
    case ByRatingAsc => p.rating
    case Unsorted => 0
  }

  /**
   * The comparator passed to `sort`: negative when `a` goes first, positive
   * when `b` does, 0 when they tie. It is the difference of the two ranks, so
   * it is a consistent comparator: antisymmetric and transitive.
   */
  function Compare(key: SortKey, a: Product, b: Product): (r: int)
    ensures r == Rank(key, a) - Rank(key, b)
    ensures key == Unsorted ==> r == 0
  {
    match key
    case ByPriceAsc => a.price - b.price
    case ByPriceDesc => b.price - a.price
    case ByRatingDesc => b.rating - a.rating
    case ByRatingAsc => a.rating - b.rating
    case Unsorted => 0
  }

  /** Ordered by the comparator: no later product belongs strictly before an earlier one. */
  predicate Sorted(s: seq<Product>, key: SortKey)
  {
    forall i, j :: 0 <= i < j < |s| ==> Rank(key, s[i]) <= Rank(key, s[j])
  }

  /**
   * Insert `x` after the sorted `sorted`, moving it left past every product that
   * compares strictly greater: ties keep `x` after the products already there.
   */
  function Insert(sorted: seq<Product>, x: Product, key: SortKey): (r: seq<Product>)
    ensures |r| == |sorted| + 1
  {
    if sorted == [] then [x]
    else if Compare(key, sorted[|sorted| - 1], x) > 0 then
      Insert(sorted[..|sorted| - 1], x, key) + [sorted[|sorted| - 1]]
    else sorted + [x]
  }

  /** The stable sort of `s` by the comparator: insertion of each product in input order. */
  function SortBy(s: seq<Product>, key: SortKey): (r: seq<Product>)
    ensures |r| == |s|
  {
    if s == [] then []
    else Insert(SortBy(s[..|s| - 1], key), s[|s| - 1], key)
  }

  /** Sorting one more product of the input inserts it into the sorted prefix. */
  lemma SortByPrefix(s: seq<Product>, i: nat, key: SortKey)
    requires i < |s|
    ensures SortBy(s[..i + 1], key) == Insert(SortBy(s[..i], key), s[i], key)
  {
    assert s[..i + 1][..i] == s[..i];
  }

  /** Insertion adds `x` and loses nothing. */
  lemma {:induction false} InsertPermutes(sorted: seq<Product>, x: Product, key: SortKey)
    ensures multiset(Insert(sorted, x, key)) == multiset(sorted) + multiset{x}
  {
    if sorted != [] && Compare(key, sorted[|sorted| - 1], x) > 0 {
      assert sorted == sorted[..|sorted| - 1] + [sorted[|sorted| - 1]];
      InsertPermutes(sorted[..|sorted| - 1], x, key);
    }
  }

  /** The sort is a permutation of its input. */
  lemma {:induction false} SortByPermutes(s: seq<Product>, key: SortKey)
    ensures multiset(SortBy(s, key)) == multiset(s)
  {
    if s != [] {
      assert s == s[..|s| - 1] + [s[|s| - 1]];
      SortByPermutes(s[..|s| - 1], key);
      InsertPermutes(SortBy(s[..|s| - 1], key), s[|s| - 1], key);
    }
  }

  /** Insertion adds no rank above a bound that `sorted` and `x` both respect. */
  lemma {:induction false} InsertBounded(sorted: seq<Product>, x: Product, key: SortKey, bound: int)
    requires forall k :: 0 <= k < |sorted| ==> Rank(key, sorted[k]) <= bound
    requires Rank(key, x) <= bound
    ensures forall k :: 0 <= k < |Insert(sorted, x, key)| ==> Rank(key, Insert(sorted, x, key)[k]) <= bound
  {
    if sorted != [] && Compare(key, sorted[|sorted| - 1], x) > 0 {
      InsertBounded(sorted[..|sorted| - 1], x, key, bound);
    }
  }

  lemma {:induction false} InsertSorted(sorted: seq<Product>, x: Product, key: SortKey)
    requires Sorted(sorted, key)
    ensures Sorted(Insert(sorted, x, key), key)
  {
    if sorted != [] {
      var n := |sorted|;
      var y := sorted[n - 1];
      if Compare(key, y, x) > 0 {
        var front := sorted[..n - 1];
        InsertSorted(front, x, key);
        InsertBounded(front, x, key, Rank(key, y));
        var ins := Insert(front, x, key);
        var r := ins + [y];
        forall i, j | 0 <= i < j < |r| ensures Rank(key, r[i]) <= Rank(key, r[j]) {
          assert r[i] == ins[i];
          if j < |ins| {
            assert r[j] == ins[j];
          }
        }
      } else {
        var r := sorted + [x];
        forall i, j | 0 <= i < j < |r| ensures Rank(key, r[i]) <= Rank(key, r[j]) {
          assert r[i] == sorted[i];
          if j == n {
            assert Rank(key, sorted[i]) <= Rank(key, y);
          } else {
            assert r[j] == sorted[j];
          }
        }
      }
    }
  }

  /**
   * Where insertion puts `x`: right after the last product that is not
   * greater, every product after that position being greater.
   */
  lemma {:induction false} InsertPosition(sorted: seq<Product>, x: Product, key: SortKey, j: nat)
    requires j <= |sorted|
    requires j == 0 || Compare(key, sorted[j - 1], x) <= 0
    requires forall k :: j <= k < |sorted| ==> Compare(key, sorted[k], x) > 0
    ensures Insert(sorted, x, key) == sorted[..j] + [x] + sorted[j..]
    decreases |sorted|
  {
    if |sorted| > j {
      var n := |sorted|;
      var front := sorted[..n - 1];
      assert Insert(sorted, x, key) == Insert(front, x, key) + [sorted[n - 1]];
      forall k | j <= k < |front|
        ensures Compare(key, front[k], x) > 0
      {
        assert front[k] == sorted[k];
      }
      assert j == 0 || front[j - 1] == sorted[j - 1];
      InsertPosition(front, x, key, j);
      SpliceBeforeLast(sorted, j, x);
    } else {
      assert sorted[..j] == sorted && sorted[j..] == [];
    }
  }

  lemma SpliceBeforeLast<T>(s: seq<T>, j: nat, x: T)
    requires j < |s|
    ensures s[..|s| - 1][..j] + [x] + s[..|s| - 1][j..] + [s[|s| - 1]] == s[..j] + [x] + s[j..]
  {
    assert s[..|s| - 1][..j] == s[..j];
    assert s[..|s| - 1][j..] + [s[|s| - 1]] == s[j..];
  }

  /** The result of the sort is ordered by the comparator. */
  lemma {:induction false} SortBySorted(s: seq<Product>, key: SortKey)
    ensures Sorted(SortBy(s, key), key)
  {
    if s != [] {
      SortBySorted(s[..|s| - 1], key);
      InsertSorted(SortBy(s[..|s| - 1], key), s[|s| - 1], key);
    }
  }

  /** The products of rank `v`, in order. */
  function OfRank(s: seq<Product>, key: SortKey, v: int): (r: seq<Product>)
    ensures forall i :: 0 <= i < |r| ==> Rank(key, r[i]) == v
  {
    if s == [] then []
    else (if Rank(key, s[0]) == v then [s[0]] else []) + OfRank(s[1..], key, v)
  }

  lemma {:induction false} OfRankConcat(s: seq<Product>, t: seq<Product>, key: SortKey, v: int)
    ensures OfRank(s + t, key, v) == OfRank(s, key, v) + OfRank(t, key, v)
  {
    if s == [] {
      assert s + t == t;
    } else {
      assert (s + t)[0] == s[0] && (s + t)[1..] == s[1..] + t;
      OfRankConcat(s[1..], t, key, v);
    }
  }

  lemma {:induction false} InsertStable(sorted: seq<Product>, x: Product, key: SortKey, v: int)
    ensures OfRank(Insert(sorted, x, key), key, v) == OfRank(sorted, key, v) + OfRank([x], key, v)
  {
    if sorted == [] {
      assert Insert(sorted, x, key) == [x];
    } else {
      var n := |sorted|;
      var y := sorted[n - 1];
      var front := sorted[..n - 1];
      assert sorted == front + [y];
      OfRankConcat(front, [y], key, v);
      if Compare(key, y, x) > 0 {
        var ins := Insert(front, x, key);
        assert Insert(sorted, x, key) == ins + [y];
        InsertStable(front, x, key, v);
        OfRankConcat(ins, [y], key, v);
        if Rank(key, x) == v {
          assert OfRank([y], key, v) == [];
        } else {
          assert OfRank([x], key, v) == [];
        }
      } else {
        assert Insert(sorted, x, key) == sorted + [x];
        OfRankConcat(sorted, [x], key, v);
      }
    }
  }

  /**
   * Stability: the products that tie under the comparator keep their input
   * order. For every rank, the products of that rank appear in the sorted
   * result in the same order as in the input.
   */
  lemma {:induction false} SortByStable(s: seq<Product>, key: SortKey, v: int)
    ensures OfRank(SortBy(s, key), key, v) == OfRank(s, key, v)
  {
    if s != [] {
      var front := s[..|s| - 1];
      assert s == front + [s[|s| - 1]];
      SortByStable(front, key, v);
      InsertStable(SortBy(front, key), s[|s| - 1], key, v);
      OfRankConcat(front, [s[|s| - 1]], key, v);
    }
  }

  /** Under a sort value other than the four keys every comparison is 0, so the order is left as it was. */
  lemma {:induction false} UnknownSortKeepsOrder(s: seq<Product>, key: SortKey)
    requires key == Unsorted
    ensures SortBy(s, key) == s
  {
    if s != [] {
      var front := s[..|s| - 1];
      UnknownSortKeepsOrder(front, key);
      assert front + [s[|s| - 1]] == s;
    }
  }

  /**
   * The array contents after one shifting round, `after`, are the insertion of
   * `before[i]` into `before[..i]`, followed by the untouched rest.
   */
  lemma ShiftedIsInsert(before: seq<Product>, after: seq<Product>, i: nat, j: nat, key: SortKey)
    requires j <= i < |before| == |after|
    requires forall k :: 0 <= k < j ==> after[k] == before[k]
    requires after[j] == before[i]
    requires forall k :: j < k <= i ==> after[k] == before[k - 1]
    requires forall k :: i < k < |after| ==> after[k] == before[k]
    requires j == 0 || Compare(key, before[j - 1], before[i]) <= 0
    requires forall k :: j <= k < i ==> Compare(key, before[k], before[i]) > 0
    ensures after[..i + 1] == Insert(before[..i], before[i], key)
    ensures after[i + 1..] == before[i + 1..]
  {
    var prefix := before[..i];
    InsertPosition(prefix, before[i], key, j);
    var inserted := prefix[..j] + [before[i]] + prefix[j..];
    forall k | 0 <= k <= i ensures after[k] == inserted[k] {
      if k > j {
        assert inserted[k] == prefix[k - 1];
      }
    }
    assert after[..i + 1] == inserted;
  }

  /**
   * One round of the in-place insertion sort: `a[i]` moves left past every
   * strictly greater product of `a[..i]`; the rest of the array is untouched.
   */
  method InsertInPlace(a: array<Product>, i: nat, key: SortKey)
    requires i < a.Length
    modifies a
    ensures a[..i + 1] == Insert(old(a[..i]), old(a[i]), key)
    ensures a[i + 1..] == old(a[i + 1..])
  {
    ghost var orig := a[..];
    var x := a[i];
    var j := i;
    while j > 0 && Compare(key, a[j - 1], x) > 0
      invariant 0 <= j <= i
      invariant forall k :: 0 <= k < j ==> a[k] == orig[k]
      invariant forall k :: j < k <= i ==> a[k] == orig[k - 1]
      invariant forall k :: i < k < a.Length ==> a[k] == orig[k]
      invariant forall k :: j <= k < i ==> Compare(key, orig[k], x) > 0
    {
      a[j] := a[j - 1];
      j := j - 1;
    }
    a[j] := x;
    ShiftedIsInsert(orig, a[..], i, j, key);
  }

  /**
   * `filtered.sort(comparator)`: sorts the array in place. Insertion sort that
   * shifts a product left only past strictly greater ones, which keeps ties in
   * their original order.
   */
  method SortInPlace(a: array<Product>, key: SortKey)
    modifies a
    ensures a[..] == SortBy(old(a[..]), key)
  {
    ghost var orig := a[..];
    var i := 0;
    while i < a.Length
      invariant 0 <= i <= a.Length
      invariant a[..i] == SortBy(orig[..i], key)
      invariant a[i..] == orig[i..]
    {
      ghost var before := a[..];
      assert before[..i] == SortBy(orig[..i], key);
      assert before[i] == orig[i] by { assert before[i] == a[i..][0]; }
      InsertInPlace(a, i, key);
      SortByPrefix(orig, i, key);
      assert a[i + 1..] == orig[i + 1..] by {
        assert before[i + 1..] == before[i..][1..];
      }
      i := i + 1;
    }
    assert a[..] == a[..a.Length] && orig == orig[..a.Length];
  }
}
