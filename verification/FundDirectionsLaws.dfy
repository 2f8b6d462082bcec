/** Directions do not depend on how a day is split into runs, are monotone in the score, and come in
    the advertised proportions. */
module FundDirectionsLaws {
  import opened FundDirections

  predicate Ascending(xs: seq<real>) {
    forall i, j :: 0 <= i < j < |xs| ==> xs[i] <= xs[j]
  }

  predicate AllAtLeast(xs: seq<real>, floor: real) {
    forall i :: 0 <= i < |xs| ==> floor <= xs[i]
  }

  lemma AscendingCons(x: real, rest: seq<real>)
    requires Ascending(rest) && AllAtLeast(rest, x)
    ensures Ascending([x] + rest)
  {
  }

  lemma {:induction false} InsertAscends(x: real, sorted: seq<real>, floor: real)
    requires Ascending(sorted) && AllAtLeast(sorted, floor) && floor <= x
    ensures Ascending(Insert(x, sorted)) && AllAtLeast(Insert(x, sorted), floor)
  {
    if sorted == [] || x <= sorted[0] {
      assert AllAtLeast(sorted, x);
      AscendingCons(x, sorted);
    } else {
      InsertAscends(x, sorted[1..], sorted[0]);
      AscendingCons(sorted[0], Insert(x, sorted[1..]));
    }
  }

  lemma {:induction false} InsertElements(x: real, sorted: seq<real>)
    ensures multiset(Insert(x, sorted)) == multiset(sorted) + multiset{x}
  {
    if sorted != [] && x > sorted[0] {
      InsertElements(x, sorted[1..]);
      assert sorted == [sorted[0]] + sorted[1..];
    }
  }

  lemma {:induction false} SortKeeps(xs: seq<real>)
    ensures Ascending(Sort(xs)) && multiset(Sort(xs)) == multiset(xs) && |Sort(xs)| == |xs|
  {
    hide Insert;
    if xs != [] {
      SortKeeps(xs[1..]);
      var rest := Sort(xs[1..]);
      InsertAscends(xs[0], rest, if rest == [] || xs[0] <= rest[0] then xs[0] else rest[0]);
      InsertElements(xs[0], rest);
      assert xs == [xs[0]] + xs[1..];
    }
    assert |multiset(Sort(xs))| == |multiset(xs)|;
  }

  lemma HeadIsLeast(xs: seq<real>, y: real)
    requires Ascending(xs) && y in multiset(xs)
    ensures xs != [] && xs[0] <= y
  {
    assert y in xs;
  }

  lemma Tail(xs: seq<real>)
    requires xs != []
    ensures multiset(xs[1..]) == multiset(xs) - multiset{xs[0]} && xs[0] in multiset(xs)
  {
    assert xs == [xs[0]] + xs[1..];
  }

  lemma SameHeads(a: seq<real>, b: seq<real>)
    requires Ascending(a) && Ascending(b) && multiset(a) == multiset(b) && a != []
    ensures b != [] && a[0] == b[0] && multiset(a[1..]) == multiset(b[1..])
  {
    HeadIsLeast(b, a[0]);
    HeadIsLeast(a, b[0]);
    Tail(a);
    Tail(b);
  }

  lemma AscendingTail(xs: seq<real>)
    requires Ascending(xs) && xs != []
    ensures Ascending(xs[1..])
  {
  }

  lemma {:induction false} AscendingIsUnique(a: seq<real>, b: seq<real>)
    requires Ascending(a) && Ascending(b) && multiset(a) == multiset(b)
    ensures a == b
  {
    if a == [] {
      if b != [] {
        SameHeads(b, a);
      }
    } else {
      SameHeads(a, b);
      AscendingTail(a);
      AscendingTail(b);
      hide Ascending;
      AscendingIsUnique(a[1..], b[1..]);
      assert a == [a[0]] + a[1..] && b == [b[0]] + b[1..];
    }
  }

  lemma SortIgnoresOrder(a: seq<real>, b: seq<real>)
    requires multiset(a) == multiset(b)
    ensures Sort(a) == Sort(b)
  {
    SortKeeps(a);
    SortKeeps(b);
    AscendingIsUnique(Sort(a), Sort(b));
  }

  lemma ValuesConcat(a: seq<Score>, b: seq<Score>)
    ensures Values(a + b) == Values(a) + Values(b)
  {
  }

  lemma Reassociated(a: seq<real>, b: seq<real>, c: seq<real>)
    ensures multiset(b + (a + c)) == multiset(a + b + c)
  {
  }

  /** Mapping the later symbols against the earlier scores gives what one run over all of them would
      have given, on top of any reference both share. */
  lemma SplitRunsAgree(earlier: seq<Score>, later: seq<Score>, reference: seq<real>, buyQuantile: real, sellQuantile: real)
    ensures Directed(later, buyQuantile, sellQuantile, Values(earlier) + reference)
         == Directed(earlier + later, buyQuantile, sellQuantile, reference)[|earlier|..]
  {
    hide Sort, Quantile, DirectionOf, Values;
    ValuesConcat(earlier, later);
    Reassociated(Values(earlier), Values(later), reference);
    SortIgnoresOrder(Values(later) + (Values(earlier) + reference), Values(earlier + later) + reference);
  }

  // ---- rounding ----

  /** The rank is an integer nearest to quantile times size - 1, and the even one of two. */
  lemma RankIsNearest(size: nat, quantile: real)
    requires size > 0
    ensures var x, r := quantile * (size - 1) as real, NearestRank(size, quantile);
            && x - 0.5 <= r as real <= x + 0.5
            && (x - 0.5 == r as real || x + 0.5 == r as real ==> r % 2 == 0)
  {
    RoundIsNearest(quantile * (size - 1) as real);
  }

  lemma RoundIsNearest(x: real)
    ensures var r := RoundHalfEven(x);
            && x - 0.5 <= r as real <= x + 0.5
            && (x - 0.5 == r as real || x + 0.5 == r as real ==> r % 2 == 0)
  {
  }

  /** The quantile of a list is its entry at the nearest rank, the ends from 0 down and from 1 up, and 0 of
      an empty list. */
  lemma QuantileIs(sorted: seq<real>, quantile: real)
    ensures sorted == [] ==> Quantile(sorted, quantile) == 0.0
    ensures sorted != [] && quantile <= 0.0 ==> Quantile(sorted, quantile) == sorted[0]
    ensures sorted != [] && quantile >= 1.0 ==> Quantile(sorted, quantile) == sorted[|sorted| - 1]
    ensures sorted != [] && 0.0 < quantile < 1.0 ==>
              0 <= NearestRank(|sorted|, quantile) < |sorted| && Quantile(sorted, quantile) == sorted[NearestRank(|sorted|, quantile)]
  {
    hide NearestRank;
    if sorted != [] {
      QuantileIndexInRange(|sorted|, quantile);
    }
  }

  // ---- monotone ----

  function Strength(d: Direction): int {
    match d case Sell => 0 case Hold => 1 case Buy => 2
  }

  /** A higher score never gets a weaker direction, whatever the quantiles. */
  lemma DirectionsAreMonotone(scores: seq<Score>, buyQuantile: real, sellQuantile: real, reference: seq<real>, i: nat, j: nat)
    requires i < |scores| && j < |scores| && scores[i].value <= scores[j].value
    ensures var d := Directed(scores, buyQuantile, sellQuantile, reference);
            Strength(d[i]) <= Strength(d[j])
  {
  }

  // ---- proportions ----

  function AtLeast(xs: seq<real>, cut: real): nat {
    if xs == [] then 0 else (if xs[0] >= cut then 1 else 0) + AtLeast(xs[1..], cut)
  }

  function Below(xs: seq<real>, cut: real, sellCut: real): nat {
    if xs == [] then 0 else (if xs[0] < cut && xs[0] <= sellCut then 1 else 0) + Below(xs[1..], cut, sellCut)
  }

  lemma {:induction false} InsertCounts(x: real, sorted: seq<real>, cut: real, sellCut: real)
    ensures AtLeast(Insert(x, sorted), cut) == AtLeast([x] + sorted, cut)
    ensures Below(Insert(x, sorted), cut, sellCut) == Below([x] + sorted, cut, sellCut)
  {
    assert ([x] + sorted)[1..] == sorted;
    if sorted != [] && x > sorted[0] {
      InsertCounts(x, sorted[1..], cut, sellCut);
      assert ([x] + sorted[1..])[1..] == sorted[1..];
    }
  }

  lemma {:induction false} SortCounts(xs: seq<real>, cut: real, sellCut: real)
    ensures AtLeast(Sort(xs), cut) == AtLeast(xs, cut)
    ensures Below(Sort(xs), cut, sellCut) == Below(xs, cut, sellCut)
  {
    if xs != [] {
      SortCounts(xs[1..], cut, sellCut);
      InsertCounts(xs[0], Sort(xs[1..]), cut, sellCut);
      assert ([xs[0]] + Sort(xs[1..]))[1..] == Sort(xs[1..]);
    }
  }

  predicate Rising(xs: seq<real>) {
    forall i, j :: 0 <= i < j < |xs| ==> xs[i] < xs[j]
  }

  /** In a strictly rising list, an element's position counts what lies below it. */
  lemma {:induction false} RisingCounts(xs: seq<real>, buyAt: nat, sellAt: nat)
    requires Rising(xs) && buyAt < |xs| && sellAt < |xs|
    ensures AtLeast(xs, xs[buyAt]) == |xs| - buyAt
    ensures Below(xs, xs[buyAt], xs[sellAt]) == if sellAt < buyAt then sellAt + 1 else buyAt
  {
    PrefixCounts(xs, 0, buyAt, sellAt);
    assert xs[0..] == xs;
  }

  lemma {:induction false} PrefixCounts(xs: seq<real>, from: nat, buyAt: nat, sellAt: nat)
    requires Rising(xs) && buyAt < |xs| && sellAt < |xs| && from <= |xs|
    ensures AtLeast(xs[from..], xs[buyAt]) == if from <= buyAt then |xs| - buyAt else |xs| - from
    ensures var stop := if sellAt < buyAt then sellAt + 1 else buyAt;
            Below(xs[from..], xs[buyAt], xs[sellAt]) == if from <= stop then stop - from else 0
    decreases |xs| - from
  {
    if from < |xs| {
      PrefixCounts(xs, from + 1, buyAt, sellAt);
      assert xs[from..][1..] == xs[from + 1..];
      assert from < buyAt ==> xs[from] < xs[buyAt];
      assert buyAt < from ==> xs[buyAt] < xs[from];
      assert from < sellAt ==> xs[from] < xs[sellAt];
      assert sellAt < from ==> xs[sellAt] < xs[from];
    }
  }

  function Marked(values: seq<real>, buyCut: real, sellCut: real): seq<Direction> {
    seq(|values|, i requires 0 <= i < |values| => DirectionOf(values[i], buyCut, sellCut))
  }

  lemma {:induction false} MarkedCounts(values: seq<real>, buyCut: real, sellCut: real)
    ensures multiset(Marked(values, buyCut, sellCut))[Buy] == AtLeast(values, buyCut)
    ensures multiset(Marked(values, buyCut, sellCut))[Sell] == Below(values, buyCut, sellCut)
  {
    if values != [] {
      MarkedCounts(values[1..], buyCut, sellCut);
      assert Marked(values, buyCut, sellCut) == [DirectionOf(values[0], buyCut, sellCut)] + Marked(values[1..], buyCut, sellCut);
    }
  }

  ghost predicate DistinctValues(scores: seq<Score>) {
    forall i, j :: 0 <= i < j < |scores| ==> scores[i].value != scores[j].value
  }

  lemma DistinctSortRises(xs: seq<real>)
    requires forall i, j :: 0 <= i < j < |xs| ==> xs[i] != xs[j]
    ensures Rising(Sort(xs))
  {
    SortKeeps(xs);
    var sorted := Sort(xs);
    forall i, j | 0 <= i < j < |sorted| ensures sorted[i] < sorted[j] {
      if sorted[i] == sorted[j] {
        TwicePresent(sorted, i, j);
        OncePresent(xs, sorted[i]);
      }
    }
  }

  lemma TwicePresent(xs: seq<real>, i: nat, j: nat)
    requires i < j < |xs| && xs[i] == xs[j]
    ensures multiset(xs)[xs[i]] >= 2
  {
    assert xs == xs[..i] + [xs[i]] + xs[i + 1..j] + [xs[j]] + xs[j + 1..];
  }

  lemma {:induction false} OncePresent(xs: seq<real>, x: real)
    requires forall i, j :: 0 <= i < j < |xs| ==> xs[i] != xs[j]
    ensures multiset(xs)[x] <= 1
  {
    if xs != [] {
      OncePresent(xs[1..], x);
      assert xs == [xs[0]] + xs[1..];
      if xs[0] == x {
        assert x !in xs[1..];
        assert multiset(xs[1..])[x] == 0;
      }
    }
  }

  /** With distinct scores and no reference: exactly n - b buys, and s + 1 sells as long as the sell
      index s lies below the buy index b (otherwise the buys take precedence and b sells remain), where
      both indices are the half-even roundings of quantile times n - 1. */
  lemma Proportions(scores: seq<Score>, buyQuantile: real, sellQuantile: real)
    requires scores != [] && DistinctValues(scores) && 0.0 <= buyQuantile <= 1.0 && 0.0 <= sellQuantile <= 1.0
    ensures var n := |scores|;
            var b, s := NearestRank(n, buyQuantile), NearestRank(n, sellQuantile);
            var counts := multiset(Directed(scores, buyQuantile, sellQuantile, []));
            && counts[Buy] == n - b
            && counts[Sell] == if s < b then s + 1 else b
  {
    hide NearestRank, QuantileIndex, Quantile, Sort, Marked, Directed;
    var values, n := Values(scores), |scores|;
    SortKeeps(values);
    QuantileIndexInRange(n, buyQuantile);
    QuantileIndexInRange(n, sellQuantile);
    DirectedByCuts(scores, buyQuantile, sellQuantile);
    DistinctSortRises(values);
    CutCounts(values, QuantileIndex(n, buyQuantile), QuantileIndex(n, sellQuantile));
  }

  lemma DirectedByCuts(scores: seq<Score>, buyQuantile: real, sellQuantile: real)
    requires scores != [] && |Sort(Values(scores))| == |scores|
    requires 0 <= QuantileIndex(|scores|, buyQuantile) < |scores| && 0 <= QuantileIndex(|scores|, sellQuantile) < |scores|
    ensures var sorted := Sort(Values(scores));
            Directed(scores, buyQuantile, sellQuantile, []) ==
            Marked(Values(scores), sorted[QuantileIndex(|scores|, buyQuantile)], sorted[QuantileIndex(|scores|, sellQuantile)])
  {
    hide NearestRank, QuantileIndex;
    assert Values(scores) + [] == Values(scores);
  }

  lemma CutCounts(values: seq<real>, b: nat, s: nat)
    requires Rising(Sort(values)) && |Sort(values)| == |values| && b < |values| && s < |values|
    ensures var marks := multiset(Marked(values, Sort(values)[b], Sort(values)[s]));
            && marks[Buy] == |values| - b
            && marks[Sell] == if s < b then s + 1 else b
  {
    var sorted := Sort(values);
    RisingCounts(sorted, b, s);
    SortCounts(values, sorted[b], sorted[s]);
    MarkedCounts(values, sorted[b], sorted[s]);
  }
}
