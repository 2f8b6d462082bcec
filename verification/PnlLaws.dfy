/** Laws of whole fill sequences: checkpointing, independence of symbols, splitting, mirror image,
    conservation of cash, drift and the hull of the average cost. */
module PnlLaws {
  import opened Pnl
  import opened PnlLotLaws

  // ---- checkpointing ----

  lemma {:induction false} Checkpoint(baseline: map<string, Lot>, a: seq<Fill>, b: seq<Fill>)
    ensures var first := FoldFrom(baseline, a);
            var second := FoldFrom(first.positions, b);
            FoldFrom(baseline, a + b) == FoldResult(second.positions, first.realized + second.realized)
    decreases |a|
  {
    if a == [] {
      assert a + b == b;
    } else {
      assert (a + b)[1..] == a[1..] + b;
      Checkpoint(Step(baseline, a[0]), a[1..], b);
    }
  }

  // ---- one symbol at a time ----

  function Only(fills: seq<Fill>, symbol: string): (own: seq<Fill>)
    ensures forall f <- own :: f.symbol == symbol && f in fills
  {
    if fills == [] then []
    else (if fills[0].symbol == symbol then [fills[0]] else []) + Only(fills[1..], symbol)
  }

  lemma {:induction false} OnlyConcat(a: seq<Fill>, b: seq<Fill>, symbol: string)
    ensures Only(a + b, symbol) == Only(a, symbol) + Only(b, symbol)
  {
    if a == [] {
      assert a + b == b;
    } else {
      assert (a + b)[1..] == a[1..] + b;
      OnlyConcat(a[1..], b, symbol);
    }
  }

  /** The history of a single lot. */
  function FoldLot(lot: Lot, fills: seq<Fill>): Lot
    decreases |fills|
  {
    if fills == [] then lot
    else FoldLot(Stored(ApplyFill(lot, fills[0].qty, fills[0].price)), fills[1..])
  }

  lemma StepAt(accs: map<string, Lot>, f: Fill, symbol: string)
    ensures var next := Step(accs, f);
            if f.symbol != symbol then
              Get(next, symbol) == Get(accs, symbol) && (symbol in next <==> symbol in accs)
            else
              var lot := Stored(ApplyFill(Get(accs, symbol), f.qty, f.price));
              Get(next, symbol) == lot && (symbol in next <==> Abs(lot.qty) >= QTY_EPSILON)
  {
  }

  lemma OnlyStep(fills: seq<Fill>, symbol: string)
    requires fills != []
    ensures Only(fills, symbol) ==
            if fills[0].symbol == symbol then [fills[0]] + Only(fills[1..], symbol) else Only(fills[1..], symbol)
  {
  }

  lemma FoldLotStep(lot: Lot, f: Fill, rest: seq<Fill>)
    ensures FoldLot(lot, [f] + rest) == FoldLot(Stored(ApplyFill(lot, f.qty, f.price)), rest)
  {
    assert ([f] + rest)[1..] == rest;
  }

  /** A symbol's final lot depends only on its own baseline and its own fills. */
  lemma {:induction false} SymbolsAreIndependent(baseline: map<string, Lot>, fills: seq<Fill>, symbol: string)
    ensures var final := FoldFrom(baseline, fills).positions;
            && Get(final, symbol) == FoldLot(Get(baseline, symbol), Only(fills, symbol))
            && (symbol in final <==>
                if Only(fills, symbol) == [] then symbol in baseline
                else Abs(FoldLot(Get(baseline, symbol), Only(fills, symbol)).qty) >= QTY_EPSILON)
    decreases |fills|
  {
    hide Step, ApplyFill, Only;
    if fills != [] {
      var next := Step(baseline, fills[0]);
      SymbolsAreIndependent(next, fills[1..], symbol);
      StepAt(baseline, fills[0], symbol);
      OnlyStep(fills, symbol);
      if fills[0].symbol == symbol {
        FoldLotStep(Get(baseline, symbol), fills[0], Only(fills[1..], symbol));
      }
    }
  }

  lemma StepsCommute(accs: map<string, Lot>, f: Fill, g: Fill)
    requires f.symbol != g.symbol
    ensures Step(Step(accs, f), g) == Step(Step(accs, g), f)
    ensures StepRealized(Step(accs, f), g) == StepRealized(accs, g)
  {
    hide ApplyFill, RealizedDelta;
    assert Get(Step(accs, f), g.symbol) == Get(accs, g.symbol);
    assert Get(Step(accs, g), f.symbol) == Get(accs, f.symbol);
  }

  lemma {:induction false} MoveToFront(accs: map<string, Lot>, before: seq<Fill>, f: Fill, after: seq<Fill>)
    requires forall g <- before :: g.symbol != f.symbol
    ensures FoldFrom(accs, before + [f] + after) == FoldFrom(accs, [f] + before + after)
    decreases |before|
  {
    hide Step, StepRealized;
    if before == [] {
      assert before + [f] + after == [f] + before + after;
    } else {
      var g, rest := before[0], before[1..];
      assert (before + [f] + after)[1..] == rest + [f] + after;
      MoveToFront(Step(accs, g), rest, f, after);
      assert ([f] + rest + after)[1..] == rest + after;
      assert ([f] + before + after)[1..] == [g] + (rest + after);
      assert ([g] + (rest + after))[1..] == rest + after;
      StepsCommute(accs, g, f);
      StepsCommute(accs, f, g);
    }
  }

  lemma {:induction false} FirstOf(fills: seq<Fill>, symbol: string) returns (before: seq<Fill>, f: Fill, after: seq<Fill>)
    requires Only(fills, symbol) != []
    ensures fills == before + [f] + after && f == Only(fills, symbol)[0]
    ensures forall g <- before :: g.symbol != symbol
  {
    if fills[0].symbol == symbol {
      before, f, after := [], fills[0], fills[1..];
    } else {
      before, f, after := FirstOf(fills[1..], symbol);
      before := [fills[0]] + before;
    }
  }

  lemma OnlyOthers(fills: seq<Fill>, symbol: string)
    requires forall g <- fills :: g.symbol != symbol
    ensures Only(fills, symbol) == []
  {
    if Only(fills, symbol) != [] {
      assert Only(fills, symbol)[0] in Only(fills, symbol);
    }
  }

  lemma OnlyAround(before: seq<Fill>, f: Fill, after: seq<Fill>, s: string)
    ensures Only(before + [f] + after, s) == Only(before, s) + Only([f], s) + Only(after, s)
    ensures Only(before + after, s) == Only(before, s) + Only(after, s)
    ensures Only([f], s) == if f.symbol == s then [f] else []
  {
    OnlyConcat(before + [f], after, s);
    OnlyConcat(before, [f], s);
    OnlyConcat(before, after, s);
    OnlyStep([f], s);
  }

  lemma OnlyWithoutFirst(a: seq<Fill>, before: seq<Fill>, f: Fill, after: seq<Fill>, s: string)
    requires a != [] && a[0] == f && Only(a, s) == Only(before + [f] + after, s)
    requires forall g <- before :: g.symbol != f.symbol
    ensures Only(a[1..], s) == Only(before + after, s)
  {
    hide Only;
    OnlyAround(before, f, after, s);
    OnlyStep(a, s);
    if s == f.symbol {
      OnlyOthers(before, s);
      assert Only(a[1..], s) == Only(a, s)[1..] == Only(after, s);
    }
  }

  lemma OnlyNonempty(fills: seq<Fill>)
    requires fills != []
    ensures Only(fills, fills[0].symbol) != []
  {
  }

  /** The fills of `b` without its first one of the symbol that leads `a` are those of `a` without its first. */
  lemma DropFirst(a: seq<Fill>, b: seq<Fill>) returns (before: seq<Fill>, after: seq<Fill>)
    requires a != [] && forall s :: Only(a, s) == Only(b, s)
    ensures b == before + [a[0]] + after && forall g <- before :: g.symbol != a[0].symbol
    ensures forall s :: Only(a[1..], s) == Only(before + after, s)
  {
    var f;
    OnlyStep(a, a[0].symbol);
    assert Only(b, a[0].symbol) == Only(a, a[0].symbol);
    before, f, after := FirstOf(b, a[0].symbol);
    hide Only;
    forall s ensures Only(a[1..], s) == Only(before + after, s) {
      assert Only(a, s) == Only(b, s);
      OnlyWithoutFirst(a, before, f, after, s);
    }
  }

  /** Any two interleavings with the same per-symbol order give the same positions and profit. */
  lemma {:induction false} InterleavingIsIrrelevant(accs: map<string, Lot>, a: seq<Fill>, b: seq<Fill>)
    requires forall s :: Only(a, s) == Only(b, s)
    ensures FoldFrom(accs, a) == FoldFrom(accs, b)
    decreases |a|
  {
    if a == [] {
      NoFills(b);
    } else {
      hide Step, StepRealized, Only, FoldFrom;
      var f := a[0];
      var before, after := DropFirst(a, b);
      InterleavingIsIrrelevant(Step(accs, f), a[1..], before + after);
      MoveToFront(accs, before, f, after);
      FoldStep(accs, f, before + after);
      FoldStep(accs, f, a[1..]);
      assert [f] + (before + after) == [f] + before + after;
      assert [f] + a[1..] == a;
    }
  }

  lemma NoFills(b: seq<Fill>)
    requires forall s :: Only([], s) == Only(b, s)
    ensures b == []
  {
    if b != [] {
      OnlyNonempty(b);
    }
  }

  lemma FoldStep(accs: map<string, Lot>, f: Fill, rest: seq<Fill>)
    ensures FoldFrom(accs, [f] + rest) ==
            FoldResult(FoldFrom(Step(accs, f), rest).positions, StepRealized(accs, f) + FoldFrom(Step(accs, f), rest).realized)
  {
    assert ([f] + rest)[1..] == rest;
  }

  // ---- mirror image ----

  function NegateFills(fills: seq<Fill>): seq<Fill> {
    seq(|fills|, i requires 0 <= i < |fills| => fills[i].(qty := -fills[i].qty))
  }

  function NegateLots(accs: map<string, Lot>): map<string, Lot> {
    map s <- accs :: NegateLot(accs[s])
  }

  lemma StepMirror(accs: map<string, Lot>, f: Fill)
    ensures Step(NegateLots(accs), f.(qty := -f.qty)) == NegateLots(Step(accs, f))
    ensures StepRealized(NegateLots(accs), f.(qty := -f.qty)) == -StepRealized(accs, f)
  {
    hide ApplyFill, RealizedDelta, Stored, Put, NegateLots, Get;
    var acc := Get(accs, f.symbol);
    GetMirror(accs, f.symbol);
    TradeMirror(acc, f.qty, f.price);
    GainMirror(acc, f.qty, f.price);
    PutMirror(accs, f.symbol, ApplyFill(acc, f.qty, f.price), ApplyFill(NegateLot(acc), -f.qty, f.price));
  }

  lemma GetMirror(accs: map<string, Lot>, symbol: string)
    ensures Get(NegateLots(accs), symbol) == NegateLot(Get(accs, symbol))
  {
  }

  /** Trading the opposite side of everything gives the opposite positions and the opposite profit. */
  lemma {:induction false} Mirror(baseline: map<string, Lot>, fills: seq<Fill>)
    ensures var straight := FoldFrom(baseline, fills);
            FoldFrom(NegateLots(baseline), NegateFills(fills)) == FoldResult(NegateLots(straight.positions), -straight.realized)
    decreases |fills|
  {
    if fills != [] {
      var f, rest := fills[0], fills[1..];
      assert NegateFills(fills) == [f.(qty := -f.qty)] + NegateFills(rest);
      assert [f] + rest == fills;
      StepMirror(baseline, f);
      Mirror(Step(baseline, f), rest);
      FoldStep(NegateLots(baseline), f.(qty := -f.qty), NegateFills(rest));
      FoldStep(baseline, f, rest);
    }
  }

  lemma NegateWithout(accs: map<string, Lot>, symbol: string)
    ensures NegateLots(accs) - {symbol} == NegateLots(accs - {symbol})
  {
  }

  lemma NegateWith(accs: map<string, Lot>, symbol: string, lot: Lot)
    ensures NegateLots(accs)[symbol := NegateLot(lot)] == NegateLots(accs[symbol := lot])
  {
  }

  lemma SameStorage(lot: Lot, mirrored: Lot)
    requires Stored(mirrored) == NegateLot(Stored(lot))
    ensures Abs(mirrored.qty) < QTY_EPSILON <==> Abs(lot.qty) < QTY_EPSILON
    ensures Abs(lot.qty) >= QTY_EPSILON ==> mirrored == NegateLot(lot)
  {
  }

  lemma PutMirror(accs: map<string, Lot>, symbol: string, lot: Lot, mirrored: Lot)
    requires Stored(mirrored) == NegateLot(Stored(lot))
    ensures Put(NegateLots(accs), symbol, mirrored) == NegateLots(Put(accs, symbol, lot))
  {
    SameStorage(lot, mirrored);
    hide Stored, NegateLots, NegateLot, Abs;
    NegateWithout(accs, symbol);
    NegateWith(accs, symbol, lot);
  }

  // ---- sequences on the tick grid ----

  ghost predicate GridLots(accs: map<string, Lot>, tick: real) {
    forall s <- accs :: GridLot(accs[s], tick)
  }

  ghost predicate GridFills(fills: seq<Fill>, tick: real) {
    forall f <- fills :: OnGrid(f.qty, tick)
  }

  lemma GridGet(accs: map<string, Lot>, symbol: string, tick: real)
    requires GridLots(accs, tick)
    ensures GridLot(Get(accs, symbol), tick)
  {
    assert 0.0 == Ticks(0, tick);
  }

  lemma GridStep(accs: map<string, Lot>, f: Fill, tick: real)
    requires QTY_EPSILON < tick && GridLots(accs, tick) && OnGrid(f.qty, tick)
    ensures GridLots(Step(accs, f), tick)
  {
    GridGet(accs, f.symbol, tick);
    GridTradeIsTextbook(Get(accs, f.symbol), f.qty, f.price, tick);
  }

  lemma {:induction false} GridFold(accs: map<string, Lot>, fills: seq<Fill>, tick: real)
    requires QTY_EPSILON < tick && GridLots(accs, tick) && GridFills(fills, tick)
    ensures GridLots(FoldFrom(accs, fills).positions, tick)
    decreases |fills|
  {
    if fills != [] {
      GridStep(accs, fills[0], tick);
      GridFold(Step(accs, fills[0]), fills[1..], tick);
    }
  }

  // ---- partial fills ----

  lemma SplitStep(accs: map<string, Lot>, symbol: string, q1: real, q2: real, price: real, tick: real)
    requires QTY_EPSILON < tick && GridLots(accs, tick) && OnGrid(q1, tick) && OnGrid(q2, tick) && SameSide(q1, q2)
    ensures var first, second, whole := Fill(symbol, q1, price), Fill(symbol, q2, price), Fill(symbol, q1 + q2, price);
            && Step(Step(accs, first), second) == Step(accs, whole)
            && StepRealized(accs, first) + StepRealized(Step(accs, first), second) == StepRealized(accs, whole)
  {
    hide ApplyFill, RealizedDelta, TextbookTrade, TextbookGain;
    var acc := Get(accs, symbol);
    GridGet(accs, symbol, tick);
    GridClosed(q1, q2, tick);
    GridTradeIsTextbook(acc, q1, price, tick);
    GridTradeIsTextbook(acc, q1 + q2, price, tick);
    var mid := ApplyFill(acc, q1, price);
    GridTradeIsTextbook(mid, q2, price, tick);
    TextbookSplit(acc, q1, q2, price);
    assert Get(Step(accs, Fill(symbol, q1, price)), symbol) == mid;
  }

  /** Replacing one fill by two parts of the same price and side, anywhere in the sequence, changes
      neither the positions nor the profit, even when the position flips inside either part. */
  lemma PartialFillsAreInvisible(baseline: map<string, Lot>, before: seq<Fill>, symbol: string,
                                 q1: real, q2: real, price: real, after: seq<Fill>, tick: real)
    requires QTY_EPSILON < tick && GridLots(baseline, tick) && GridFills(before, tick)
    requires OnGrid(q1, tick) && OnGrid(q2, tick) && SameSide(q1, q2)
    ensures FoldFrom(baseline, before + [Fill(symbol, q1, price), Fill(symbol, q2, price)] + after)
         == FoldFrom(baseline, before + [Fill(symbol, q1 + q2, price)] + after)
  {
    hide Step, StepRealized;
    var first, second, whole := Fill(symbol, q1, price), Fill(symbol, q2, price), Fill(symbol, q1 + q2, price);
    var mid := FoldFrom(baseline, before).positions;
    GridFold(baseline, before, tick);
    SplitStep(mid, symbol, q1, q2, price, tick);
    assert before + [first, second] + after == before + ([first, second] + after);
    assert before + [whole] + after == before + ([whole] + after);
    Checkpoint(baseline, before, [first, second] + after);
    Checkpoint(baseline, before, [whole] + after);
    assert ([first, second] + after)[1..] == [second] + after;
    assert ([second] + after)[1..] == after;
    assert ([whole] + after)[1..] == after;
  }

  // ---- conservation of cash ----

  function Amount(f: Fill): real {
    f.qty * f.price
  }

  function Notional(fills: seq<Fill>): real {
    if fills == [] then 0.0 else Amount(fills[0]) + Notional(fills[1..])
  }

  function NetQty(fills: seq<Fill>): real {
    if fills == [] then 0.0 else fills[0].qty + NetQty(fills[1..])
  }

  ghost function TotalCost(accs: map<string, Lot>): real
    decreases |accs|
  {
    if accs == map[] then 0.0
    else var s :| s in accs; accs[s].costBasis + TotalCost(accs - {s})
  }

  lemma {:induction false} TotalCostWithout(accs: map<string, Lot>, symbol: string)
    ensures TotalCost(accs) == Get(accs, symbol).costBasis + TotalCost(accs - {symbol})
    decreases |accs|
  {
    if symbol !in accs {
      assert accs - {symbol} == accs;
    } else {
      var s :| s in accs && TotalCost(accs) == accs[s].costBasis + TotalCost(accs - {s});
      if s != symbol {
        assert accs - {s} - {symbol} == accs - {symbol} - {s};
        TotalCostWithout(accs - {s}, symbol);
        TotalCostWithout(accs - {symbol}, s);
      }
    }
  }

  lemma TotalCostPut(accs: map<string, Lot>, symbol: string, lot: Lot)
    ensures TotalCost(Put(accs, symbol, lot)) - TotalCost(accs) == Stored(lot).costBasis - Get(accs, symbol).costBasis
  {
    var after := Put(accs, symbol, lot);
    TotalCostWithout(accs, symbol);
    TotalCostWithout(after, symbol);
    assert after - {symbol} == accs - {symbol};
  }

  lemma CashStep(accs: map<string, Lot>, f: Fill, tick: real)
    requires QTY_EPSILON < tick && GridLots(accs, tick) && OnGrid(f.qty, tick)
    ensures TotalCost(Step(accs, f)) - TotalCost(accs) - StepRealized(accs, f) == Amount(f)
  {
    hide ApplyFill, RealizedDelta, TextbookTrade, TextbookGain;
    var acc := Get(accs, f.symbol);
    GridGet(accs, f.symbol, tick);
    GridTradeIsTextbook(acc, f.qty, f.price, tick);
    TextbookCash(acc, f.qty, f.price);
    TotalCostPut(accs, f.symbol, ApplyFill(acc, f.qty, f.price));
  }

  /** Cash is conserved: what the lots cost now, less what they cost at the start, less the profit
      taken, is exactly the money spent on fills. */
  lemma {:induction false} CashConservation(baseline: map<string, Lot>, fills: seq<Fill>, tick: real)
    requires QTY_EPSILON < tick && GridLots(baseline, tick) && GridFills(fills, tick)
    ensures var r := FoldFrom(baseline, fills);
            TotalCost(r.positions) - TotalCost(baseline) - r.realized == Notional(fills)
    decreases |fills|
  {
    hide Step, StepRealized, Amount;
    if fills != [] {
      var f := fills[0];
      CashStep(baseline, f, tick);
      GridStep(baseline, f, tick);
      CashConservation(Step(baseline, f), fills[1..], tick);
    }
  }

  lemma {:induction false} GridQuantity(lot: Lot, fills: seq<Fill>, tick: real)
    requires QTY_EPSILON < tick && GridLot(lot, tick) && GridFills(fills, tick)
    ensures GridLot(FoldLot(lot, fills), tick)
    ensures FoldLot(lot, fills).qty == lot.qty + NetQty(fills)
    decreases |fills|
  {
    hide TextbookTrade, TextbookGain;
    if fills != [] {
      GridTradeIsTextbook(lot, fills[0].qty, fills[0].price, tick);
      TextbookCash(lot, fills[0].qty, fills[0].price);
      GridQuantity(ApplyFill(lot, fills[0].qty, fills[0].price), fills[1..], tick);
    }
  }

  /** A symbol is absent from the positions exactly when its fills net to zero. */
  lemma OpenIffNonzero(fills: seq<Fill>, symbol: string, tick: real)
    requires QTY_EPSILON < tick && GridFills(fills, tick)
    ensures symbol in Fold(fills).positions <==> NetQty(Only(fills, symbol)) != 0.0
    ensures Get(Fold(fills).positions, symbol).qty == NetQty(Only(fills, symbol))
  {
    SymbolsAreIndependent(map[], fills, symbol);
    assert 0.0 == Ticks(0, tick);
    GridQuantity(FLAT, Only(fills, symbol), tick);
    GridGap(FoldLot(FLAT, Only(fills, symbol)).qty, tick);
  }

  /** Once everything nets flat the profit is minus the money spent, whatever the fill order. */
  lemma FlatProfit(fills: seq<Fill>, tick: real)
    requires QTY_EPSILON < tick && GridFills(fills, tick)
    requires forall s :: NetQty(Only(fills, s)) == 0.0
    ensures Fold(fills) == FoldResult(map[], -Notional(fills))
  {
    hide FoldFrom, Only;
    CashConservation(map[], fills, tick);
    var positions := Fold(fills).positions;
    forall s ensures s !in positions {
      OpenIffNonzero(fills, s, tick);
    }
    assert positions == map[];
  }

  // ---- profit by symbol ----

  function Without(fills: seq<Fill>, symbol: string): seq<Fill> {
    if fills == [] then []
    else (if fills[0].symbol != symbol then [fills[0]] else []) + Without(fills[1..], symbol)
  }

  lemma WithoutStep(fills: seq<Fill>, symbol: string)
    requires fills != []
    ensures Without(fills, symbol) ==
            if fills[0].symbol != symbol then [fills[0]] + Without(fills[1..], symbol) else Without(fills[1..], symbol)
  {
  }

  lemma OnlyCons(f: Fill, rest: seq<Fill>, s: string)
    ensures Only([f] + rest, s) == if f.symbol == s then [f] + Only(rest, s) else Only(rest, s)
  {
    assert ([f] + rest)[1..] == rest;
    OnlyStep([f] + rest, s);
  }

  lemma {:induction false} OnlyWithout(fills: seq<Fill>, symbol: string, s: string)
    ensures Only(Without(fills, symbol), s) == if s == symbol then [] else Only(fills, s)
  {
    if fills != [] {
      hide Only, Without;
      OnlyWithout(fills[1..], symbol, s);
      WithoutStep(fills, symbol);
      OnlyStep(fills, s);
      OnlyCons(fills[0], Without(fills[1..], symbol), s);
    }
  }

  /** Fills do not see the lots of other symbols. */
  lemma {:induction false} OtherLotsAreInvisible(a: map<string, Lot>, b: map<string, Lot>, fills: seq<Fill>, symbol: string)
    requires forall s :: s != symbol ==> Get(a, s) == Get(b, s)
    requires forall f <- fills :: f.symbol != symbol
    ensures FoldFrom(a, fills).realized == FoldFrom(b, fills).realized
    decreases |fills|
  {
    hide ApplyFill, RealizedDelta;
    if fills != [] {
      var f := fills[0];
      assert f in fills && forall g <- fills[1..] :: g in fills;
      forall s | s != symbol ensures Get(Step(a, f), s) == Get(Step(b, f), s) {
        StepAt(a, f, s);
        StepAt(b, f, s);
      }
      OtherLotsAreInvisible(Step(a, f), Step(b, f), fills[1..], symbol);
    }
  }

  lemma {:induction false} WithoutSymbol(fills: seq<Fill>, symbol: string)
    ensures forall f <- Without(fills, symbol) :: f.symbol != symbol && f in fills
  {
    if fills != [] {
      WithoutSymbol(fills[1..], symbol);
      assert fills == [fills[0]] + fills[1..];
    }
  }

  /** From any baseline the profit is that of one symbol's own fills plus that of all the others. */
  lemma ProfitSplits(baseline: map<string, Lot>, fills: seq<Fill>, symbol: string)
    ensures FoldFrom(baseline, fills).realized
         == FoldFrom(baseline, Only(fills, symbol)).realized + FoldFrom(baseline, Without(fills, symbol)).realized
  {
    hide FoldFrom, Only;
    var own, rest := Only(fills, symbol), Without(fills, symbol);
    forall s ensures Only(fills, s) == Only(own + rest, s) {
      OnlyConcat(own, rest, s);
      OnlyWithout(fills, symbol, s);
      OnlyTwice(fills, symbol, s);
    }
    InterleavingIsIrrelevant(baseline, fills, own + rest);
    Checkpoint(baseline, own, rest);
    WithoutSymbol(fills, symbol);
    forall s | s != symbol ensures Get(FoldFrom(baseline, own).positions, s) == Get(baseline, s) {
      OwnFillsKeepOthers(baseline, fills, symbol, s);
    }
    OtherLotsAreInvisible(FoldFrom(baseline, own).positions, baseline, rest, symbol);
  }

  lemma OwnFillsKeepOthers(baseline: map<string, Lot>, fills: seq<Fill>, symbol: string, s: string)
    requires s != symbol
    ensures var positions := FoldFrom(baseline, Only(fills, symbol)).positions;
            Get(positions, s) == Get(baseline, s) && (s in positions <==> s in baseline)
  {
    hide FoldFrom, Only;
    OnlyTwice(fills, symbol, s);
    SymbolsAreIndependent(baseline, Only(fills, symbol), s);
  }

  lemma {:induction false} OnlyTwice(fills: seq<Fill>, symbol: string, s: string)
    ensures Only(Only(fills, symbol), s) == if s == symbol then Only(fills, symbol) else []
  {
    if fills != [] {
      hide Only;
      OnlyTwice(fills[1..], symbol, s);
      OnlyStep(fills, symbol);
      OnlyCons(fills[0], Only(fills[1..], symbol), s);
    }
  }

  /** A symbol that ends flat has realized exactly minus what its baseline cost and its fills spent, beside
      whatever the others do. */
  lemma FlatSymbolProfit(baseline: map<string, Lot>, fills: seq<Fill>, symbol: string, tick: real)
    requires QTY_EPSILON < tick && GridLots(baseline, tick) && GridFills(fills, tick)
    requires Get(baseline, symbol).qty + NetQty(Only(fills, symbol)) == 0.0
    ensures FoldFrom(baseline, fills).realized
         == -Get(baseline, symbol).costBasis - Notional(Only(fills, symbol)) + FoldFrom(baseline, Without(fills, symbol)).realized
    ensures symbol !in FoldFrom(baseline, fills).positions || Only(fills, symbol) == []
  {
    hide FoldFrom, Only, NetQty, Notional;
    var own := Only(fills, symbol);
    ProfitSplits(baseline, fills, symbol);
    GridGet(baseline, symbol, tick);
    NothingSpent();
    NothingRealized(baseline);
    if own != [] {
      FlatOwnFills(baseline, fills, symbol, tick);
    }
  }

  lemma NothingSpent()
    ensures Notional([]) == 0.0 && NetQty([]) == 0.0
  {
  }

  lemma FlatOwnFills(baseline: map<string, Lot>, fills: seq<Fill>, symbol: string, tick: real)
    requires QTY_EPSILON < tick && GridLots(baseline, tick) && GridFills(fills, tick)
    requires Get(baseline, symbol).qty + NetQty(Only(fills, symbol)) == 0.0 && Only(fills, symbol) != []
    ensures FoldFrom(baseline, Only(fills, symbol)).realized == -Get(baseline, symbol).costBasis - Notional(Only(fills, symbol))
    ensures symbol !in FoldFrom(baseline, fills).positions
  {
    hide FoldFrom, Only, NetQty, Notional, FoldLot, TotalCost;
    var own := Only(fills, symbol);
    GridGet(baseline, symbol, tick);
    GridQuantity(Get(baseline, symbol), own, tick);
    SymbolsAreIndependent(baseline, fills, symbol);
    SymbolsAreIndependent(baseline, own, symbol);
    OnlyTwice(fills, symbol, symbol);
    CashConservation(baseline, own, tick);
    var positions := FoldFrom(baseline, own).positions;
    forall s | s != symbol ensures Get(positions, s) == Get(baseline, s) && (s in positions <==> s in baseline) {
      OwnFillsKeepOthers(baseline, fills, symbol, s);
    }
    forall s <- positions ensures s in baseline - {symbol} && positions[s] == (baseline - {symbol})[s] {
      assert Get(positions, s) == Get(baseline, s);
    }
    assert positions == baseline - {symbol};
    TotalCostWithout(baseline, symbol);
  }

  ghost function SumOfProfits(baseline: map<string, Lot>, fills: seq<Fill>, symbols: set<string>): real
    decreases |symbols|
  {
    if symbols == {} then 0.0
    else var s :| s in symbols; FoldFrom(baseline, Only(fills, s)).realized + SumOfProfits(baseline, fills, symbols - {s})
  }

  lemma {:induction false} SameProfits(baseline: map<string, Lot>, a: seq<Fill>, b: seq<Fill>, symbols: set<string>)
    requires forall s <- symbols :: Only(a, s) == Only(b, s)
    ensures SumOfProfits(baseline, a, symbols) == SumOfProfits(baseline, b, symbols)
    decreases |symbols|
  {
    hide FoldFrom, Only;
    if symbols != {} {
      var s :| s in symbols
            && SumOfProfits(baseline, a, symbols) == FoldFrom(baseline, Only(a, s)).realized + SumOfProfits(baseline, a, symbols - {s})
            && SumOfProfits(baseline, b, symbols) == FoldFrom(baseline, Only(b, s)).realized + SumOfProfits(baseline, b, symbols - {s});
      SameProfits(baseline, a, b, symbols - {s});
    }
  }

  /** From any baseline the profit is the sum, over any set that holds all the traded symbols, of what each
      symbol's own fills realize. */
  lemma {:induction false} ProfitIsSum(baseline: map<string, Lot>, fills: seq<Fill>, symbols: set<string>)
    requires forall f <- fills :: f.symbol in symbols
    ensures FoldFrom(baseline, fills).realized == SumOfProfits(baseline, fills, symbols)
    decreases |symbols|
  {
    hide FoldFrom, Only, Without;
    assert fills != [] ==> fills[0] in fills;
    if symbols == {} {
      NothingRealized(baseline);
    } else {
      var s :| s in symbols
            && SumOfProfits(baseline, fills, symbols) == FoldFrom(baseline, Only(fills, s)).realized + SumOfProfits(baseline, fills, symbols - {s});
      ProfitSplits(baseline, fills, s);
      WithoutSymbol(fills, s);
      ProfitIsSum(baseline, Without(fills, s), symbols - {s});
      forall t <- symbols - {s} ensures Only(Without(fills, s), t) == Only(fills, t) {
        OnlyWithout(fills, s, t);
      }
      SameProfits(baseline, Without(fills, s), fills, symbols - {s});
    }
  }

  lemma NothingRealized(baseline: map<string, Lot>)
    ensures FoldFrom(baseline, []).realized == 0.0
  {
  }

  // ---- bounds that need no grid ----

  lemma {:induction false} LotDrift(lot: Lot, fills: seq<Fill>)
    ensures Abs(FoldLot(lot, fills).qty - (lot.qty + NetQty(fills))) <= QTY_EPSILON * |fills| as real
    decreases |fills|
  {
    hide ApplyFill;
    if fills != [] {
      TradeDrift(lot, fills[0].qty, fills[0].price);
      LotDrift(Stored(ApplyFill(lot, fills[0].qty, fills[0].price)), fills[1..]);
    }
  }

  /** For arbitrary quantities each fill of a symbol mislays at most the tolerance. */
  lemma QuantityDrift(baseline: map<string, Lot>, fills: seq<Fill>, symbol: string)
    ensures Abs(Get(FoldFrom(baseline, fills).positions, symbol).qty
                - (Get(baseline, symbol).qty + NetQty(Only(fills, symbol))))
         <= QTY_EPSILON * |Only(fills, symbol)| as real
  {
    hide FoldFrom, FoldLot, NetQty;
    SymbolsAreIndependent(baseline, fills, symbol);
    LotDrift(Get(baseline, symbol), Only(fills, symbol));
  }

  lemma {:induction false} LotHull(lot: Lot, fills: seq<Fill>, lo: real, hi: real)
    requires InHull(lot, lo, hi) && forall f <- fills :: lo <= f.price <= hi
    ensures InHull(FoldLot(lot, fills), lo, hi)
    decreases |fills|
  {
    hide ApplyFill, InHull;
    if fills != [] {
      TradeKeepsHull(lot, fills[0].qty, fills[0].price, lo, hi);
      LotHull(Stored(ApplyFill(lot, fills[0].qty, fills[0].price)), fills[1..], lo, hi);
    }
  }

  /** Every bound on a symbol's fill prices and baseline average bounds its final average cost; with
      positive prices the quantity and the cost basis therefore have the same sign. */
  lemma AverageCostHull(baseline: map<string, Lot>, fills: seq<Fill>, symbol: string, lo: real, hi: real)
    requires InHull(Get(baseline, symbol), lo, hi)
    requires forall f <- fills :: f.symbol == symbol ==> lo <= f.price <= hi
    ensures var lot := Get(FoldFrom(baseline, fills).positions, symbol);
            && (lot.qty != 0.0 ==> lo <= AvgCost(lot) <= hi)
            && (lo > 0.0 ==> (lot.qty > 0.0 <==> lot.costBasis > 0.0) && (lot.qty < 0.0 <==> lot.costBasis < 0.0))
  {
    SymbolsAreIndependent(baseline, fills, symbol);
    LotHull(Get(baseline, symbol), Only(fills, symbol), lo, hi);
    var lot := Get(FoldFrom(baseline, fills).positions, symbol);
    if lot.qty != 0.0 && lo > 0.0 {
      HullByCost(lot, lo, hi);
      if lot.qty > 0.0 { assert lo * lot.qty > 0.0; } else { assert lo * -lot.qty > 0.0; }
    }
  }
}
