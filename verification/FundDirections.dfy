/** The cross-sectional quantile mapping of app/engine/fundsignal_loop.py. Scores are reals; a scores
    dict is the sequence of its items in insertion order. */
module FundDirections {

  datatype Score = Score(symbol: string, value: real)

  datatype Direction = Sell | Hold | Buy

  /** Python's round(): to the nearest integer, halves to the even one. */
  function RoundHalfEven(x: real): int {
    var f := x.Floor;
    var part := x - f as real;
    if part < 0.5 then f
    else if part > 0.5 then f + 1
    else if f % 2 == 0 then f
    else f + 1
  }

  /** The nearest rank to quantile `q` of `size` values. */
  function NearestRank(size: nat, q: real): int
    requires size > 0
  {
    RoundHalfEven(q * (size - 1) as real)
  }

  function QuantileIndex(size: nat, q: real): int
    requires size > 0
  {
    if q <= 0.0 then 0
    else if q >= 1.0 then size - 1
    else NearestRank(size, q)
  }

  lemma RoundInRange(x: real, top: nat)
    requires 0.0 <= x <= top as real
    ensures 0 <= RoundHalfEven(x) <= top
  {
    assert x.Floor <= top;
  }

  lemma QuantileIndexInRange(size: nat, q: real)
    requires size > 0
    ensures 0 <= QuantileIndex(size, q) < size
    ensures 0.0 <= q <= 1.0 ==> QuantileIndex(size, q) == NearestRank(size, q)
  {
    var top := (size - 1) as real;
    if 0.0 < q < 1.0 {
      Scaled(q, top);
      RoundInRange(q * top, size - 1);
    } else if q == 0.0 {
      assert q * top == 0.0;
    } else if q == 1.0 {
      assert q * top == top;
      assert top.Floor == size - 1;
    }
  }

  lemma Scaled(q: real, top: real)
    requires 0.0 < q < 1.0 && top >= 0.0
    ensures 0.0 <= q * top <= top
  {
    assert (1.0 - q) * top >= 0.0;
  }

  function Quantile(sorted: seq<real>, q: real): real {
    if sorted == [] then 0.0
    else
      QuantileIndexInRange(|sorted|, q);
      sorted[QuantileIndex(|sorted|, q)]
  }

  function Insert(x: real, sorted: seq<real>): seq<real> {
    if sorted == [] || x <= sorted[0] then [x] + sorted else [sorted[0]] + Insert(x, sorted[1..])
  }

  function Sort(xs: seq<real>): seq<real> {
    if xs == [] then [] else Insert(xs[0], Sort(xs[1..]))
  }

  function Values(scores: seq<Score>): seq<real> {
    seq(|scores|, i requires 0 <= i < |scores| => scores[i].value)
  }

  function DirectionOf(value: real, buyCut: real, sellCut: real): Direction {
    if value >= buyCut then Buy else if value <= sellCut then Sell else Hold
  }

  /** The direction of each item, in order. */
  function Directed(scores: seq<Score>, buyQuantile: real, sellQuantile: real, reference: seq<real>): seq<Direction> {
    var ordered := Sort(Values(scores) + reference);
    var buyCut, sellCut := Quantile(ordered, buyQuantile), Quantile(ordered, sellQuantile);
    seq(|scores|, i requires 0 <= i < |scores| => DirectionOf(scores[i].value, buyCut, sellCut))
  }

  ghost predicate DistinctSymbols(scores: seq<Score>) {
    forall i, j :: 0 <= i < j < |scores| ==> scores[i].symbol != scores[j].symbol
  }

  method MapDirections(scores: seq<Score>, buyQuantile: real, sellQuantile: real, reference: seq<real>)
    returns (directions: map<string, Direction>)
    requires DistinctSymbols(scores)
    ensures directions.Keys == set s <- scores :: s.symbol
    ensures forall i :: 0 <= i < |scores| ==>
              directions[scores[i].symbol] == Directed(scores, buyQuantile, sellQuantile, reference)[i]
  {
    directions := map[];
    if scores == [] {
      return;
    }
    var ordered := Sort(Values(scores) + reference);
    var buyCut := Quantile(ordered, buyQuantile);
    var sellCut := Quantile(ordered, sellQuantile);
    for i := 0 to |scores|
      invariant directions.Keys == set s <- scores[..i] :: s.symbol
      invariant forall j :: 0 <= j < i ==>
                  scores[j].symbol in directions && directions[scores[j].symbol] == DirectionOf(scores[j].value, buyCut, sellCut)
    {
      var s := scores[i].value;
      assert scores[..i + 1] == scores[..i] + [scores[i]];
      if s >= buyCut {
        directions := directions[scores[i].symbol := Buy];
      } else if s <= sellCut {
        directions := directions[scores[i].symbol := Sell];
      } else {
        directions := directions[scores[i].symbol := Hold];
      }
    }
    assert scores[..|scores|] == scores;
  }
}
