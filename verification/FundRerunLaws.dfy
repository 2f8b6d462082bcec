/** A later run of the same day against one run over all the day's symbols. */
module FundRerunLaws {
  import opened FundDirections
  import opened FundDirectionsLaws

  function SymbolsOf(scores: seq<Score>): set<string> {
    set s <- scores :: s.symbol
  }

  /** The scores of some symbols, in order. */
  function Select(scores: seq<Score>, symbols: set<string>): (chosen: seq<Score>)
    ensures forall s <- chosen :: s in scores && s.symbol in symbols
  {
    if scores == [] then []
    else (if scores[0].symbol in symbols then [scores[0]] else []) + Select(scores[1..], symbols)
  }

  /** A later run after `earlier`, of which the table holds the symbols `stored`: those are skipped, so
      the run's own scores cover new symbols and, of the earlier ones, exactly the `rescored`. */
  ghost predicate IsRerun(earlier: seq<Score>, rescored: set<string>, later: seq<Score>) {
    && DistinctSymbols(later)
    && (forall s <- later :: s.symbol != "" && (s.symbol in SymbolsOf(earlier) ==> s.symbol in rescored))
    && rescored <= SymbolsOf(later)
  }

  /** The later run gives every symbol it can emit the direction that one run over all the day's symbols
      gives it, a rescored symbol counting with its new score. */
  ghost predicate RerunAgrees(earlier: seq<Score>, stored: set<string>, later: seq<Score>,
                              minConviction: real, buyQuantile: real, sellQuantile: real)
  {
    var rest := Select(earlier, SymbolsOf(earlier) - SymbolsOf(later));
    var alone := Directed(later, buyQuantile, sellQuantile, Values(Select(earlier, stored)));
    var whole := Directed(rest + later, buyQuantile, sellQuantile, [])[|rest|..];
    forall i :: 0 <= i < |later| && later[i].value >= minConviction ==> alone[i] == whole[i]
  }

  lemma {:induction false} SelectSame(scores: seq<Score>, some: set<string>, others: set<string>)
    requires forall s <- scores :: s.symbol in some <==> s.symbol in others
    ensures Select(scores, some) == Select(scores, others)
  {
    if scores != [] {
      assert scores[0] in scores && forall s <- scores[1..] :: s in scores;
      SelectSame(scores[1..], some, others);
    }
  }

  /** When every earlier symbol is stored or rescored, the two runs agree on every symbol, whatever is
      emitted and whatever the quantiles. */
  lemma NothingLostAgrees(earlier: seq<Score>, stored: set<string>, rescored: set<string>, later: seq<Score>,
                          minConviction: real, buyQuantile: real, sellQuantile: real)
    requires stored !! rescored && stored + rescored == SymbolsOf(earlier) && IsRerun(earlier, rescored, later)
    ensures RerunAgrees(earlier, stored, later, minConviction, buyQuantile, sellQuantile)
  {
    hide Directed;
    forall s <- earlier
      ensures s.symbol in SymbolsOf(earlier) - SymbolsOf(later) <==> s.symbol in stored
    {
      assert s.symbol in SymbolsOf(earlier);
    }
    SelectSame(earlier, SymbolsOf(earlier) - SymbolsOf(later), stored);
    var rest := Select(earlier, stored);
    SplitRunsAgree(rest, later, [], buyQuantile, sellQuantile);
    assert Values(rest) + [] == Values(rest);
  }

  // ---- scores lie between 0 and 1 ----

  predicate InUnit(scores: seq<Score>) {
    forall s <- scores :: 0.0 <= s.value <= 1.0
  }

  predicate AllAtMost(xs: seq<real>, ceiling: real) {
    forall i :: 0 <= i < |xs| ==> xs[i] <= ceiling
  }

  lemma SortAtMost(xs: seq<real>, ceiling: real)
    requires AllAtMost(xs, ceiling)
    ensures AllAtMost(Sort(xs), ceiling)
  {
    SortKeeps(xs);
    var sorted := Sort(xs);
    forall i | 0 <= i < |sorted| ensures sorted[i] <= ceiling {
      assert sorted[i] in multiset(sorted);
      assert sorted[i] in xs;
    }
  }

  /** A score of 1 is bought whatever it is compared with. */
  lemma TopIsBought(later: seq<Score>, reference: seq<real>, i: nat, buyQuantile: real, sellQuantile: real)
    requires i < |later| && later[i].value == 1.0
    requires AllAtMost(Values(later), 1.0) && AllAtMost(reference, 1.0)
    ensures Directed(later, buyQuantile, sellQuantile, reference)[i] == Buy
  {
    var all := Values(later) + reference;
    SortAtMost(all, 1.0);
    SortKeeps(all);
    QuantileIndexInRange(|all|, buyQuantile);
  }

  lemma UnitValues(scores: seq<Score>)
    requires InUnit(scores)
    ensures AllAtMost(Values(scores), 1.0)
  {
    forall i | 0 <= i < |scores| ensures Values(scores)[i] <= 1.0 {
      assert scores[i] in scores;
    }
  }

  lemma UnitSelect(scores: seq<Score>, symbols: set<string>)
    requires InUnit(scores)
    ensures InUnit(Select(scores, symbols))
  {
  }

  lemma DirectedLength(later: seq<Score>, buyQuantile: real, sellQuantile: real, reference: seq<real>)
    ensures |Directed(later, buyQuantile, sellQuantile, reference)| == |later|
  {
  }

  /** With a threshold of 1 or more only a score of 1 can be emitted, and both runs buy it. */
  lemma ThresholdAtTopAgrees(earlier: seq<Score>, stored: set<string>, later: seq<Score>,
                             minConviction: real, buyQuantile: real, sellQuantile: real)
    requires minConviction >= 1.0 && InUnit(earlier) && InUnit(later)
    ensures RerunAgrees(earlier, stored, later, minConviction, buyQuantile, sellQuantile)
  {
    hide Directed, Values;
    var restSymbols := SymbolsOf(earlier) - SymbolsOf(later);
    var rest, kept := Select(earlier, restSymbols), Select(earlier, stored);
    UnitSelect(earlier, restSymbols);
    UnitSelect(earlier, stored);
    UnitValues(rest);
    UnitValues(kept);
    UnitValues(later);
    SplitRunsAgree(rest, later, [], buyQuantile, sellQuantile);
    assert Values(rest) + [] == Values(rest);
    DirectedLength(later, buyQuantile, sellQuantile, Values(kept));
    DirectedLength(later, buyQuantile, sellQuantile, Values(rest));
    forall i | 0 <= i < |later| && later[i].value >= minConviction
      ensures Directed(later, buyQuantile, sellQuantile, Values(kept))[i] == Directed(later, buyQuantile, sellQuantile, Values(rest))[i]
    {
      assert later[i] in later;
      TopIsBought(later, Values(kept), i, buyQuantile, sellQuantile);
      TopIsBought(later, Values(rest), i, buyQuantile, sellQuantile);
    }
  }

  // ---- the second tier of scores ----

  /** Every value is 1, or at most `high`. */
  predicate TwoTiers(xs: seq<real>, high: real) {
    forall i :: 0 <= i < |xs| ==> xs[i] == 1.0 || xs[i] <= high
  }

  lemma {:induction false} TierIndex(sorted: seq<real>, cut: real, at: nat)
    requires Ascending(sorted) && at < |sorted|
    ensures sorted[at] < cut <==> at < |sorted| - AtLeast(sorted, cut)
    ensures AtLeast(sorted, cut) <= |sorted|
  {
    var rest := sorted[1..];
    if at > 0 {
      AscendingTail(sorted);
      TierIndex(rest, cut, at - 1);
      assert rest[at - 1] == sorted[at] && sorted[0] <= sorted[at];
      if sorted[0] >= cut {
        AllCounted(rest, cut);
      }
    } else if sorted[0] >= cut {
      AllCounted(sorted, cut);
    } else {
      CountBounded(rest, cut);
    }
  }

  lemma {:induction false} AllCounted(xs: seq<real>, cut: real)
    requires AllAtLeast(xs, cut) || (xs != [] && Ascending(xs) && xs[0] >= cut)
    ensures AtLeast(xs, cut) == |xs|
  {
    if xs != [] {
      assert AllAtLeast(xs[1..], cut);
      AllCounted(xs[1..], cut);
    }
  }

  lemma {:induction false} CountBounded(xs: seq<real>, cut: real)
    ensures AtLeast(xs, cut) <= |xs|
  {
    if xs != [] {
      CountBounded(xs[1..], cut);
    }
  }

  lemma TierDirection(all: seq<real>, high: real, quantile: real, sellCut: real)
    requires all != [] && TwoTiers(all, high) && high < 1.0 && 0.0 < quantile < 1.0
    ensures DirectionOf(high, Quantile(Sort(all), quantile), sellCut) == Buy
        <==> NearestRank(|all|, quantile) < |all| - AtLeast(all, 1.0)
  {
    hide NearestRank, AtLeast, Sort, Ascending;
    var sorted := Sort(all);
    SortKeeps(all);
    SortCounts(all, 1.0, 0.0);
    QuantileIndexInRange(|all|, quantile);
    var at := QuantileIndex(|all|, quantile);
    TierIndex(sorted, 1.0, at);
    assert sorted[at] in multiset(sorted);
    assert sorted[at] in all;
  }

  /** A score on top of the second tier is bought exactly when the buy rank lies below the first tier. */
  lemma SecondTierBought(later: seq<Score>, reference: seq<real>, i: nat, high: real, quantile: real, sellQuantile: real)
    requires i < |later| && later[i].value == high < 1.0 && 0.0 < quantile < 1.0
    requires TwoTiers(Values(later) + reference, high)
    ensures var n := |later| + |reference|;
            Directed(later, quantile, sellQuantile, reference)[i] == Buy
            <==> NearestRank(n, quantile) < n - AtLeast(Values(later) + reference, 1.0)
  {
    hide NearestRank, AtLeast, Sort, Quantile, DirectionOf, TwoTiers;
    var all := Values(later) + reference;
    TierDirection(all, high, quantile, Quantile(Sort(all), sellQuantile));
  }

  // ---- a quantile between two cuts ----

  lemma RoundNear(x: real, c: int)
    ensures x < c as real + 0.5 ==> RoundHalfEven(x) <= c
    ensures x > c as real + 0.5 ==> RoundHalfEven(x) >= c + 1
  {
    assert x < c as real + 0.5 ==> x.Floor <= c;
    assert x > c as real + 0.5 ==> x.Floor >= c;
  }

  lemma Distributed(x: real, a: real, b: real)
    ensures x * (a - b) == x * a - x * b && (a - b) * x == a * x - b * x
  {
  }

  function Gaps(gap: real, count: nat): real {
    gap * count as real
  }

  /** With quantile 1 - gap the rank lies below the top `ones` ranks exactly when the gap is wide enough. */
  lemma RankBelow(size: nat, ones: nat, gap: real)
    requires size > 0
    ensures Gaps(gap, size - 1) > ones as real - 0.5 ==> NearestRank(size, 1.0 - gap) < size - ones
    ensures Gaps(gap, size - 1) < ones as real - 0.5 ==> NearestRank(size, 1.0 - gap) >= size - ones
  {
    hide RoundHalfEven;
    var top := (size - 1) as real;
    var x := (1.0 - gap) * top;
    Distributed(top, 1.0, gap);
    assert x == top - Gaps(gap, size - 1);
    assert NearestRank(size, 1.0 - gap) == RoundHalfEven(x);
    assert (size - 1 - ones) as real == top - ones as real;
    RoundNear(x, size - 1 - ones);
  }

  lemma SignOf(d: real, s: real)
    requires s > 0.0
    ensures d > 0.0 <==> d * s > 0.0
    ensures d < 0.0 <==> d * s < 0.0
  {
  }

  lemma Quotient(a: real, b: real) returns (x: real)
    requires 0.0 < a < b
    ensures 0.0 < x < 1.0 && x * b == a
  {
    x := a / b;
    assert x * b == a;
    SignOf(x, b);
    SignOf(1.0 - x, b);
    Distributed(b, 1.0, x);
  }

  lemma SmallShare(a: real, b: real, m: real, x: real)
    requires b > 0.0 && m * a < b && x * b == a
    ensures x * m < 1.0
  {
    assert (x * m) * b == m * a;
    Distributed(b, 1.0, x * m);
    SignOf(1.0 - x * m, b);
  }

  /** Adding `moreA` to `a` and `moreB` to `b`, with b large against a, moves the quotient: it falls when
      nothing is added to `a` and rises otherwise. */
  lemma QuotientMoves(a: real, b: real, moreA: real, moreB: real, x: real, y: real)
    requires 0.0 < x && b > 0.0 && moreB > 0.0 && moreB * a < b && (moreA == 0.0 || moreA >= 1.0)
    requires x * b == a && y * (b + moreB) == a + moreA
    ensures if moreA == 0.0 then y < x else y > x
  {
    Distributed(b + moreB, y, x);
    assert x * (b + moreB) == a + x * moreB;
    assert (y - x) * (b + moreB) == moreA - x * moreB;
    SignOf(x, moreB);
    SmallShare(a, b, moreB, x);
    SignOf(y - x, b + moreB);
  }

  /** A gap between the two quotients, seen from both. */
  lemma GapBetween(a: real, b: real, moreA: real, moreB: real) returns (gap: real)
    requires 0.0 < a < b && 0.0 < moreB && 0.0 <= moreA <= moreB && moreB * a < b && (moreA == 0.0 || moreA >= 1.0)
    ensures 0.0 < gap < 1.0
    ensures if moreA == 0.0 then gap * b < a && gap * (b + moreB) > a
            else gap * b > a && gap * (b + moreB) < a + moreA
  {
    var x := Quotient(a, b);
    var y := Quotient(a + moreA, b + moreB);
    QuotientMoves(a, b, moreA, moreB, x, y);
    gap := (x + y) / 2.0;
    Distributed(b, gap, x);
    SignOf(gap - x, b);
    Distributed(b + moreB, gap, y);
    SignOf(gap - y, b + moreB);
  }

  /** A buy quantile for which a lost score decides: of `few` scores with `ones` in the first tier, and of
      `lost` more with `lostOnes` more, the rank lies below the first tier in exactly one case. */
  lemma QuantileBetween(few: nat, ones: nat, lost: nat, lostOnes: nat) returns (quantile: real)
    requires 0 < ones < few && 0 < lost && lostOnes <= lost && few - 1 >= lost * ones
    ensures 0.0 < quantile < 1.0
    ensures NearestRank(few, quantile) < few - ones <==>
            !(NearestRank(few + lost, quantile) < few + lost - (ones + lostOnes))
  {
    hide NearestRank;
    var a, b := ones as real - 0.5, (few - 1) as real;
    HalfLess(lost, ones, few - 1);
    var gap := GapBetween(a, b, lostOnes as real, lost as real);
    quantile := 1.0 - gap;
    assert (few + lost - 1) as real == b + lost as real;
    assert Gaps(gap, few - 1) == gap * b && Gaps(gap, few + lost - 1) == gap * (b + lost as real);
    hide Gaps;
    RankBelow(few, ones, gap);
    RankBelow(few + lost, ones + lostOnes, gap);
  }

  lemma HalfLess(lost: nat, ones: nat, top: nat)
    requires lost > 0 && top >= lost * ones
    ensures lost as real * (ones as real - 0.5) < top as real
  {
    Distributed(lost as real, ones as real, 0.5);
    assert lost as real * ones as real == (lost * ones) as real;
  }

  // ---- the witness ----

  function Letters(count: nat): string {
    if count == 0 then "" else Letters(count - 1) + "A"
  }

  lemma {:induction false} LettersLength(count: nat)
    ensures |Letters(count)| == count
  {
    if count > 0 {
      LettersLength(count - 1);
    }
  }

  lemma {:induction false} Longest(scores: seq<Score>) returns (length: nat)
    ensures forall s <- scores :: |s.symbol| <= length
  {
    if scores == [] {
      length := 0;
    } else {
      length := Longest(scores[1..]);
      assert scores == [scores[0]] + scores[1..];
      length := if |scores[0].symbol| > length then |scores[0].symbol| else length;
    }
  }

  lemma {:induction false} SelectDistinct(scores: seq<Score>, symbols: set<string>)
    requires DistinctSymbols(scores)
    ensures DistinctSymbols(Select(scores, symbols))
    ensures forall s <- scores :: s.symbol in symbols ==> s in Select(scores, symbols)
  {
    if scores != [] {
      SelectDistinct(scores[1..], symbols);
      forall s <- Select(scores[1..], symbols) ensures s.symbol != scores[0].symbol {
        var j :| 0 <= j < |scores[1..]| && scores[1..][j] == s;
        assert scores[j + 1] == s;
      }
    }
  }

  lemma SelectStep(scores: seq<Score>, symbols: set<string>, cut: real)
    requires scores != []
    ensures var chosen, rest := Select(scores, symbols), Select(scores[1..], symbols);
            var taken := if scores[0].symbol in symbols then 1 else 0;
            && |chosen| == taken + |rest|
            && AtLeast(Values(chosen), cut) == (if scores[0].value >= cut then taken else 0) + AtLeast(Values(rest), cut)
  {
    ValueCounts(scores[0], Select(scores[1..], symbols), cut);
    hide AtLeast, Values;
    assert scores[0].symbol !in symbols ==> Select(scores, symbols) == Select(scores[1..], symbols);
  }

  lemma {:induction false} SelectCounts(scores: seq<Score>, some: set<string>, all: set<string>, cut: real)
    requires some <= all
    ensures var fewer, more := Select(scores, some), Select(scores, all);
            && |fewer| <= |more| && AtLeast(Values(fewer), cut) <= AtLeast(Values(more), cut)
            && AtLeast(Values(more), cut) - AtLeast(Values(fewer), cut) <= |more| - |fewer|
  {
    if scores != [] {
      hide Select, AtLeast, Values;
      SelectCounts(scores[1..], some, all, cut);
      SelectStep(scores, some, cut);
      SelectStep(scores, all, cut);
    } else {
      assert Select(scores, some) == Select(scores, all);
    }
  }

  lemma {:induction false} SelectMore(scores: seq<Score>, some: set<string>, all: set<string>, missed: Score)
    requires some <= all && missed in scores && missed.symbol in all && missed.symbol !in some
    ensures |Select(scores, some)| < |Select(scores, all)|
  {
    hide Select, AtLeast, Values;
    SelectStep(scores, some, 0.0);
    SelectStep(scores, all, 0.0);
    if scores[0] == missed {
      SelectCounts(scores[1..], some, all, 0.0);
    } else {
      assert missed in scores[1..];
      SelectMore(scores[1..], some, all, missed);
    }
  }

  lemma ValueCounts(s: Score, rest: seq<Score>, cut: real)
    ensures AtLeast(Values([s] + rest), cut) == (if s.value >= cut then 1 else 0) + AtLeast(Values(rest), cut)
  {
    assert Values([s] + rest)[1..] == Values(rest);
  }

  lemma {:induction false} AtLeastConcat(a: seq<real>, b: seq<real>, cut: real)
    ensures AtLeast(a + b, cut) == AtLeast(a, cut) + AtLeast(b, cut)
  {
    if a == [] {
      assert a + b == b;
    } else {
      assert (a + b)[1..] == a[1..] + b;
      AtLeastConcat(a[1..], b, cut);
    }
  }

  /** The greatest score below 1, not below the two floors. */
  lemma {:induction false} SecondTier(scores: seq<Score>, floor: real) returns (high: real)
    requires InUnit(scores) && floor < 1.0
    ensures 0.0 <= high < 1.0 && high >= floor && TwoTiers(Values(scores), high)
  {
    if scores == [] {
      high := if floor > 0.0 then floor else 0.0;
    } else {
      assert scores[0] in scores && forall s <- scores[1..] :: s in scores;
      var below := SecondTier(scores[1..], floor);
      high := if scores[0].value == 1.0 || scores[0].value <= below then below else scores[0].value;
      forall i | 0 <= i < |scores| ensures Values(scores)[i] == 1.0 || Values(scores)[i] <= high {
        if i > 0 {
          assert Values(scores)[i] == Values(scores[1..])[i - 1];
        }
      }
    }
  }

  /** New symbols, longer than `longest`: `many` on top of the second tier, then one in the first. */
  function Newcomers(longest: nat, many: nat, high: real): seq<Score> {
    seq(many + 1, i requires 0 <= i < many + 1 => Score(Letters(longest + 1 + i), if i < many then high else 1.0))
  }

  lemma NewcomersCount(longest: nat, many: nat, high: real)
    requires high < 1.0
    ensures AtLeast(Values(Newcomers(longest, many, high)), 1.0) == 1
  {
    var newcomers := Newcomers(longest, many, high);
    NoneCounted(Values(newcomers)[..many], 1.0);
    assert Values(newcomers) == Values(newcomers)[..many] + [1.0];
    AtLeastConcat(Values(newcomers)[..many], [1.0], 1.0);
    assert [1.0][1..] == [];
  }

  lemma {:induction false} NoneCounted(xs: seq<real>, cut: real)
    requires forall i :: 0 <= i < |xs| ==> xs[i] < cut
    ensures AtLeast(xs, cut) == 0
  {
    if xs != [] {
      NoneCounted(xs[1..], cut);
    }
  }

  lemma NewcomersAreNew(scores: seq<Score>, longest: nat, many: nat, high: real)
    requires forall s <- scores :: |s.symbol| <= longest
    ensures var newcomers := Newcomers(longest, many, high);
            && DistinctSymbols(newcomers)
            && forall s <- newcomers :: s.symbol != "" && s.symbol !in SymbolsOf(scores)
  {
    var newcomers := Newcomers(longest, many, high);
    forall i | 0 <= i < |newcomers| ensures |newcomers[i].symbol| == longest + 1 + i {
      LettersLength(longest + 1 + i);
    }
  }

  lemma BatchIsRerun(earlier: seq<Score>, rescored: set<string>, newcomers: seq<Score>)
    requires DistinctSymbols(earlier) && rescored <= SymbolsOf(earlier) && "" !in SymbolsOf(earlier)
    requires DistinctSymbols(newcomers) && forall s <- newcomers :: s.symbol != "" && s.symbol !in SymbolsOf(earlier)
    ensures var later := Select(earlier, rescored) + newcomers;
            IsRerun(earlier, rescored, later) && SymbolsOf(later) * SymbolsOf(earlier) == rescored
  {
    SelectDistinct(earlier, rescored);
    var again := Select(earlier, rescored);
    var later := again + newcomers;
    forall s <- again ensures s.symbol in SymbolsOf(earlier) {
      assert s in earlier;
    }
    forall symbol <- rescored ensures symbol in SymbolsOf(later) {
      var s :| s in earlier && s.symbol == symbol;
      assert s in again;
      assert s in later;
    }
    forall i, j | 0 <= i < j < |later| ensures later[i].symbol != later[j].symbol {
      if i < |again| <= j {
        assert later[i] in again && later[j] in newcomers;
      }
    }
    forall s <- later ensures s.symbol != "" && (s.symbol in SymbolsOf(earlier) ==> s.symbol in rescored) {
      if s in again {
        assert s.symbol in rescored && s.symbol in SymbolsOf(earlier);
      }
    }
  }

  lemma NewcomerBought(again: seq<Score>, newcomers: seq<Score>, kept: seq<Score>, high: real, quantile: real, sellQuantile: real)
    requires newcomers != [] && newcomers[0].value == high < 1.0 && 0.0 < quantile < 1.0
    requires TwoTiers(Values(again), high) && TwoTiers(Values(newcomers), high) && TwoTiers(Values(kept), high)
    ensures var n := |again| + |newcomers| + |kept|;
            var ones := AtLeast(Values(again), 1.0) + AtLeast(Values(newcomers), 1.0) + AtLeast(Values(kept), 1.0);
            Directed(again + newcomers, quantile, sellQuantile, Values(kept))[|again|] == Buy <==> NearestRank(n, quantile) < n - ones
  {
    hide NearestRank, AtLeast, Directed;
    ValuesConcat(again, newcomers);
    AtLeastConcat(Values(again), Values(newcomers), 1.0);
    AtLeastConcat(Values(again + newcomers), Values(kept), 1.0);
    SecondTierBought(again + newcomers, Values(kept), |again|, high, quantile, sellQuantile);
  }

  lemma SelectTiers(scores: seq<Score>, symbols: set<string>, high: real)
    requires TwoTiers(Values(scores), high)
    ensures TwoTiers(Values(Select(scores, symbols)), high)
  {
    var chosen := Select(scores, symbols);
    forall i | 0 <= i < |chosen| ensures Values(chosen)[i] == 1.0 || Values(chosen)[i] <= high {
      assert chosen[i] in scores;
      var j :| 0 <= j < |scores| && scores[j] == chosen[i];
      assert Values(scores)[j] == chosen[i].value;
    }
  }

  lemma LostIsMissed(earlier: seq<Score>, stored: set<string>, rescored: set<string>, rest: set<string>)
    requires stored !! rescored && stored + rescored < SymbolsOf(earlier) && rest == SymbolsOf(earlier) - rescored
    ensures var kept, whole := Values(Select(earlier, stored)), Values(Select(earlier, rest));
            && |kept| < |whole| && AtLeast(kept, 1.0) <= AtLeast(whole, 1.0)
            && AtLeast(whole, 1.0) - AtLeast(kept, 1.0) <= |whole| - |kept|
  {
    var lost :| lost in SymbolsOf(earlier) && lost !in stored + rescored;
    var s :| s in earlier && s.symbol == lost;
    SelectCounts(earlier, stored, rest, 1.0);
    SelectMore(earlier, stored, rest, s);
  }

  /** If the threshold is below 1 and some earlier score is neither stored nor scored again, there is a
      batch of scores between 0 and 1, each rescored as before or at least the threshold, and a buy
      quantile, for which the two runs differ on a symbol that can be emitted. */
  lemma LostScoreShiftsCut(earlier: seq<Score>, stored: set<string>, rescored: set<string>, minConviction: real, sellQuantile: real)
    returns (later: seq<Score>, quantile: real)
    requires DistinctSymbols(earlier) && "" !in SymbolsOf(earlier) && InUnit(earlier) && minConviction < 1.0
    requires stored !! rescored && stored + rescored < SymbolsOf(earlier)
    ensures IsRerun(earlier, rescored, later) && InUnit(later)
    ensures forall s <- later :: s in earlier || s.value >= minConviction
    ensures !RerunAgrees(earlier, stored, later, minConviction, quantile, sellQuantile)
  {
    hide Directed, NearestRank, Values, IsRerun, TwoTiers, AtLeast, Newcomers;
    var high := SecondTier(earlier, minConviction);
    var longest := Longest(earlier);
    var rest := SymbolsOf(earlier) - rescored;
    var again, kept, whole := Select(earlier, rescored), Select(earlier, stored), Select(earlier, rest);
    LostIsMissed(earlier, stored, rescored, rest);
    ValuesSize(kept);
    ValuesSize(whole);
    CountBounded(Values(again), 1.0);
    CountBounded(Values(kept), 1.0);
    ValuesSize(again);
    var ones := AtLeast(Values(again), 1.0) + 1 + AtLeast(Values(kept), 1.0);
    var lost, lostOnes := |whole| - |kept|, AtLeast(Values(whole), 1.0) - AtLeast(Values(kept), 1.0);
    var many := lost * ones;
    assert many >= 1 by { ProductAtLeastOne(lost, ones); }
    var newcomers := Newcomers(longest, many, high);
    NewcomersShape(longest, many, high);
    NewcomersCount(longest, many, high);
    NewcomersAreNew(earlier, longest, many, high);
    BatchIsRerun(earlier, rescored, newcomers);
    later := again + newcomers;
    SelectTiers(earlier, rescored, high);
    SelectTiers(earlier, stored, high);
    SelectTiers(earlier, rest, high);
    quantile := QuantileBetween(|again| + |newcomers| + |kept|, ones, lost, lostOnes);
    NewcomerBought(again, newcomers, kept, high, quantile, sellQuantile);
    NewcomerBought(again, newcomers, whole, high, quantile, sellQuantile);
    assert SymbolsOf(earlier) - SymbolsOf(later) == rest;
    SplitRunsAgree(whole, later, [], quantile, sellQuantile);
    assert Values(whole) + [] == Values(whole);
    assert later[|again|] == newcomers[0];
  }

  lemma ProductAtLeastOne(a: nat, b: nat)
    requires a >= 1 && b >= 1
    ensures a * b >= 1
  {
  }

  lemma NewcomersShape(longest: nat, many: nat, high: real)
    requires many >= 1 && 0.0 <= high < 1.0
    ensures var newcomers := Newcomers(longest, many, high);
            && |newcomers| == many + 1 && newcomers[0].value == high && TwoTiers(Values(newcomers), high)
            && InUnit(newcomers) && forall s <- newcomers :: s.value >= high
  {
  }

  lemma ValuesSize(scores: seq<Score>)
    ensures |Values(scores)| == |scores|
  {
  }

  /** With scores between 0 and 1, a later run agrees with one run over all the day's symbols on everything
      it can emit, for every batch that scores the same earlier symbols again and for all quantiles,
      exactly when no earlier score is lost or the threshold admits nothing below 1. */
  lemma RerunAgreesIffNothingLost(earlier: seq<Score>, stored: set<string>, rescored: set<string>, minConviction: real)
    requires DistinctSymbols(earlier) && "" !in SymbolsOf(earlier) && InUnit(earlier)
    requires stored !! rescored && stored + rescored <= SymbolsOf(earlier)
    ensures stored + rescored == SymbolsOf(earlier) || minConviction >= 1.0 <==>
            forall later, b, q :: IsRerun(earlier, rescored, later) && InUnit(later) ==> RerunAgrees(earlier, stored, later, minConviction, b, q)
  {
    hide IsRerun, RerunAgrees;
    if stored + rescored == SymbolsOf(earlier) || minConviction >= 1.0 {
      forall later, b, q | IsRerun(earlier, rescored, later) && InUnit(later)
        ensures RerunAgrees(earlier, stored, later, minConviction, b, q)
      {
        if minConviction >= 1.0 {
          ThresholdAtTopAgrees(earlier, stored, later, minConviction, b, q);
        } else {
          NothingLostAgrees(earlier, stored, rescored, later, minConviction, b, q);
        }
      }
    } else {
      var later, quantile := LostScoreShiftsCut(earlier, stored, rescored, minConviction, 0.0);
    }
  }
}
