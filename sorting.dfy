/**
 * The sort stage of `render`: the `byNum` comparators, the default "featured" comparator,
 * and the stable sort `Array.prototype.sort` performs with them (ECMA-262, 2023 edition,
 * section 23.1.3.30 requires the sort to be stable).
 */
module Sorting {
  import opened Catalog

  /** The comparators of `render`'s `switch (state.sort)`. */
  datatype SortKey = PriceAsc | PriceDesc | KcalAsc | KcalDesc | ProteinDesc | Featured

  /** The select's value to comparator: every value other than the five numeric ones falls to the default. */
  function KeyOf(value: string): (key: SortKey)
    ensures key == Featured <==>
      value !in {"price-asc", "price-desc", "kcal-asc", "kcal-desc", "protein-desc"}
  {
    match value
    case "price-asc" => PriceAsc
    case "price-desc" => PriceDesc
    case "kcal-asc" => KcalAsc
    case "kcal-desc" => KcalDesc
    case "protein-desc" => ProteinDesc
    case _ => Featured
  }

  /**
   * The position of a card under a sort key: each comparator orders cards ascending by
   * this value. Descending keys negate the attribute.
   */
  function Rank(key: SortKey, c: Card): int
  {
    match key
    case PriceAsc => c.price
    case PriceDesc => -c.price
    case KcalAsc => c.kcal
    case KcalDesc => -c.kcal
    case ProteinDesc => -c.protein
    case Featured => -c.featured
  }

  /**
   * The comparator: the attribute difference times the direction (+1 or -1) for the
   * numeric keys, the second card's featured rank minus the first's for the default.
   */
  function Compare(key: SortKey, a: Card, b: Card): (r: int)
    ensures r < 0 <==> Rank(key, a) < Rank(key, b)
    ensures r == 0 <==> Rank(key, a) == Rank(key, b)
  {
    match key
    case PriceAsc => (a.price - b.price) * 1
    case PriceDesc => (a.price - b.price) * -1
    case KcalAsc => (a.kcal - b.kcal) * 1
    case KcalDesc => (a.kcal - b.kcal) * -1
    case ProteinDesc => (a.protein - b.protein) * -1
    case Featured => b.featured - a.featured
  }

  /** Non-decreasing in rank, i.e. in the order the comparator asks for. */
  ghost predicate Ordered(s: seq<Card>, key: SortKey)
  {
    forall i, j :: 0 <= i < j < |s| ==> Rank(key, s[i]) <= Rank(key, s[j])
  }

  /**
   * Inserts `x` behind the last element that does not compare greater than it, scanning
   * from the back, as the in-place sort below does.
   */
  function Insert(s: seq<Card>, x: Card, key: SortKey): (r: seq<Card>)
    ensures |r| == |s| + 1
  {
    if s == [] then [x]
    else if Compare(key, s[|s| - 1], x) > 0 then
      Insert(s[..|s| - 1], x, key) + [s[|s| - 1]]
    else s + [x]
  }

  /** The stable sort of `s` under `key`: insertion sort, one element at a time from the left. */
  function SortByKey(s: seq<Card>, key: SortKey): (r: seq<Card>)
    ensures |r| == |s|
  {
    if s == [] then []
    else Insert(SortByKey(s[..|s| - 1], key), s[|s| - 1], key)
  }

  /** Insertion adds exactly one card and loses none. */
  lemma {:induction false} InsertPermutes(s: seq<Card>, x: Card, key: SortKey)
    ensures multiset(Insert(s, x, key)) == multiset(s) + multiset{x}
  {
    if s != [] {
      var init, last := s[..|s| - 1], s[|s| - 1];
      assert s == init + [last];
      if Compare(key, last, x) > 0 {
        InsertPermutes(init, x, key);
      }
    }
  }

  /** The sort is a permutation: no card is duplicated, dropped or invented. */
  lemma {:induction false} SortPermutes(s: seq<Card>, key: SortKey)
    ensures multiset(SortByKey(s, key)) == multiset(s)
  {
    if s != [] {
      var init, last := s[..|s| - 1], s[|s| - 1];
      assert s == init + [last];
      SortPermutes(init, key);
      InsertPermutes(SortByKey(init, key), last, key);
    }
  }

  /** The cards of `s` whose rank is `k`, in their order in `s`. */
  function WithRank(s: seq<Card>, key: SortKey, k: int): seq<Card>
  {
    if s == [] then []
    else WithRank(s[..|s| - 1], key, k) + (if Rank(key, s[|s| - 1]) == k then [s[|s| - 1]] else [])
  }

  lemma WithRankSnoc(s: seq<Card>, x: Card, key: SortKey, k: int)
    ensures WithRank(s + [x], key, k) == WithRank(s, key, k) + (if Rank(key, x) == k then [x] else [])
  {
    assert (s + [x])[..|s + [x]| - 1] == s;
  }

  /** Every rank of `Insert(s, x, key)` is bounded by a bound of `s` and of `x`. */
  lemma {:induction false} InsertBelow(s: seq<Card>, x: Card, key: SortKey, b: int)
    requires forall i :: 0 <= i < |s| ==> Rank(key, s[i]) <= b
    requires Rank(key, x) <= b
    ensures forall i :: 0 <= i < |s| + 1 ==> Rank(key, Insert(s, x, key)[i]) <= b
  {
    if s != [] && Compare(key, s[|s| - 1], x) > 0 {
      InsertBelow(s[..|s| - 1], x, key, b);
    }
  }

  /** Inserting into an ordered sequence keeps it ordered. */
  lemma {:induction false} InsertOrdered(s: seq<Card>, x: Card, key: SortKey)
    requires Ordered(s, key)
    ensures Ordered(Insert(s, x, key), key)
  {
    if s != [] {
      var init, last := s[..|s| - 1], s[|s| - 1];
      if Compare(key, last, x) > 0 {
        InsertOrdered(init, x, key);
        InsertBelow(init, x, key, Rank(key, last));
      }
    }
  }

  /** The sort's result is ordered. */
  lemma {:induction false} SortOrdered(s: seq<Card>, key: SortKey)
    ensures Ordered(SortByKey(s, key), key)
  {
    if s != [] {
      SortOrdered(s[..|s| - 1], key);
      InsertOrdered(SortByKey(s[..|s| - 1], key), s[|s| - 1], key);
    }
  }

  /** Inserting `x` into an ordered sequence puts it behind every element of the same rank. */
  lemma {:induction false} InsertStable(s: seq<Card>, x: Card, key: SortKey, k: int)
    requires Ordered(s, key)
    ensures WithRank(Insert(s, x, key), key, k) == WithRank(s, key, k) + (if Rank(key, x) == k then [x] else [])
  {
    if s == [] {
      WithRankSnoc([], x, key, k);
    } else {
      var init, last := s[..|s| - 1], s[|s| - 1];
      assert s == init + [last];
      if Compare(key, last, x) > 0 {
        InsertStable(init, x, key, k);
        WithRankSnoc(Insert(init, x, key), last, key, k);
        WithRankSnoc(init, last, key, k);
      } else {
        WithRankSnoc(s, x, key, k);
      }
    }
  }

  /**
   * Stability: for every rank, the cards of that rank appear in the result in the same
   * relative order as in the input.
   */
  lemma {:induction false} SortStable(s: seq<Card>, key: SortKey, k: int)
    ensures WithRank(SortByKey(s, key), key, k) == WithRank(s, key, k)
  {
    if s != [] {
      var init, last := s[..|s| - 1], s[|s| - 1];
      var sortedInit := SortByKey(init, key);
      assert SortByKey(s, key) == Insert(sortedInit, last, key);
      SortStable(init, key, k);
      SortOrdered(init, key);
      InsertStable(sortedInit, last, key, k);
      assert WithRank(s, key, k) == WithRank(init, key, k) + (if Rank(key, last) == k then [last] else []);
    }
  }

  /** What the order means per sort key, in the card's own attributes. */
  lemma SortOrderByAttribute(s: seq<Card>, key: SortKey, i: int, j: int)
    requires 0 <= i < j < |s|
    ensures var r := SortByKey(s, key);
      (key == PriceAsc ==> r[i].price <= r[j].price) &&
      (key == PriceDesc ==> r[i].price >= r[j].price) &&
      (key == KcalAsc ==> r[i].kcal <= r[j].kcal) &&
      (key == KcalDesc ==> r[i].kcal >= r[j].kcal) &&
      (key == ProteinDesc ==> r[i].protein >= r[j].protein) &&
      (key == Featured ==> r[i].featured >= r[j].featured)
  {
    SortOrdered(s, key);
  }

  lemma SortByKeySnoc(s: seq<Card>, x: Card, key: SortKey)
    ensures SortByKey(s + [x], key) == Insert(SortByKey(s, key), x, key)
  {
    assert (s + [x])[..|s|] == s;
  }

  /** The in-place sort of `render`'s item array: a stable insertion sort. */
  method SortInPlace(a: array<Card>, key: SortKey)
    modifies a
    ensures a[..] == SortByKey(old(a[..]), key)
  {
    ghost var s := a[..];
    var i := 0;
    while i < a.Length
      invariant 0 <= i <= a.Length
      invariant a[..] == SortByKey(s[..i], key) + s[i..]
    {
      SortStep(s, i, key);
      InsertNext(a, i, key, SortByKey(s[..i], key), s[i], s[i + 1..]);
      i := i + 1;
    }
    SortWhole(s, key);
  }

  /** Splitting off the next element, and the longer prefix that its insertion sorts. */
  lemma SortStep(s: seq<Card>, i: int, key: SortKey)
    requires 0 <= i < |s|
    ensures SortByKey(s[..i], key) + s[i..] == SortByKey(s[..i], key) + [s[i]] + s[i + 1..]
    ensures Insert(SortByKey(s[..i], key), s[i], key) + s[i + 1..] == SortByKey(s[..i + 1], key) + s[i + 1..]
  {
    assert s[i..] == [s[i]] + s[i + 1..];
    assert s[..i + 1] == s[..i] + [s[i]];
    SortByKeySnoc(s[..i], s[i], key);
  }

  lemma SortWhole(s: seq<Card>, key: SortKey)
    ensures SortByKey(s[..|s|], key) + s[|s|..] == SortByKey(s, key)
  {
    assert s[..|s|] == s;
  }

  /** One pass of the insertion sort: moves `a[i]` back into the sorted prefix `a[..i]`. */
  method InsertNext(a: array<Card>, i: int, key: SortKey, ghost sorted: seq<Card>, ghost x: Card,
                    ghost rest: seq<Card>)
    requires 0 <= i < a.Length && |sorted| == i
    requires a[..] == sorted + [x] + rest
    modifies a
    ensures a[..] == Insert(sorted, x, key) + rest
  {
    var y := a[i];
    var j := i;
    assert y == x;
    assert sorted[..j] == sorted && sorted[j..] == [];
    while j > 0 && Compare(key, a[j - 1], y) > 0
      invariant 0 <= j <= i
      invariant a[..] == sorted[..j] + [a[j]] + sorted[j..] + rest
      invariant Insert(sorted, x, key) == Insert(sorted[..j], x, key) + sorted[j..]
    {
      ShiftStep(a[..], sorted, j, rest);
      InsertShifts(sorted, j, x, key);
      a[j] := a[j - 1];
      j := j - 1;
    }
    InsertStops(sorted, j, x, key);
    PlaceStep(a[..], sorted, j, x, rest);
    a[j] := y;
  }
  /** Copying `t[j - 1]` one place right moves the hole one place left. */
  lemma ShiftStep(t: seq<Card>, sorted: seq<Card>, j: int, rest: seq<Card>)
    requires 0 < j <= |sorted| && |t| == |sorted| + 1 + |rest|
    requires t == sorted[..j] + [t[j]] + sorted[j..] + rest
    ensures t[j - 1] == sorted[j - 1]
    ensures t[j := t[j - 1]] == sorted[..j - 1] + [sorted[j - 1]] + sorted[j - 1..] + rest
  {
    assert t[j - 1] == sorted[..j][j - 1];
    var u := t[j := t[j - 1]];
    var r := sorted[..j - 1] + [sorted[j - 1]] + sorted[j - 1..] + rest;
    assert |u| == |r|;
    forall k | 0 <= k < |u| ensures u[k] == r[k] {
      if k < j - 1 {
        assert u[k] == sorted[..j][k];
      } else if k == j - 1 || k == j {
      } else if k <= |sorted| {
        assert u[k] == sorted[j..][k - j - 1];
        assert r[k] == sorted[j - 1..][k - j];
      }
    }
  }

  /** Writing `x` into the hole gives the finished pass. */
  lemma PlaceStep(t: seq<Card>, sorted: seq<Card>, j: int, x: Card, rest: seq<Card>)
    requires 0 <= j <= |sorted| && |t| == |sorted| + 1 + |rest|
    requires t == sorted[..j] + [t[j]] + sorted[j..] + rest
    ensures t[j := x] == sorted[..j] + [x] + sorted[j..] + rest
  {
  }

  /** While the scanned element compares greater than `x`, `x` lands before it. */
  lemma InsertShifts(s: seq<Card>, j: int, x: Card, key: SortKey)
    requires 0 < j <= |s| && Compare(key, s[j - 1], x) > 0
    ensures Insert(s[..j], x, key) + s[j..] == Insert(s[..j - 1], x, key) + s[j - 1..]
  {
    assert s[..j][..j - 1] == s[..j - 1];
    assert s[j - 1..] == [s[j - 1]] + s[j..];
  }

  /** Once the scan reaches the front or an element not greater than `x`, `x` goes right there. */
  lemma InsertStops(s: seq<Card>, j: int, x: Card, key: SortKey)
    requires 0 <= j <= |s|
    requires j == 0 || Compare(key, s[j - 1], x) <= 0
    ensures Insert(s[..j], x, key) == s[..j] + [x]
  {
  }
}
