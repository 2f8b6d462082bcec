/** Laws of a single fill against a single lot. */
module PnlLotLaws {
  import opened Pnl

  // ---- quantities that are multiples of a tick wider than the tolerance ----

  function Ticks(n: int, tick: real): real {
    n as real * tick
  }

  ghost predicate OnGrid(x: real, tick: real) {
    exists n: int :: x == Ticks(n, tick)
  }

  lemma GridClosed(x: real, y: real, tick: real)
    requires OnGrid(x, tick) && OnGrid(y, tick)
    ensures OnGrid(x + y, tick) && OnGrid(-x, tick) && OnGrid(0.0, tick)
  {
    var m: int, n: int :| x == Ticks(m, tick) && y == Ticks(n, tick);
    assert x + y == Ticks(m + n, tick);
    assert -x == Ticks(-m, tick);
    assert 0.0 == Ticks(0, tick);
  }

  lemma GridGap(x: real, tick: real)
    requires QTY_EPSILON < tick && OnGrid(x, tick)
    ensures Abs(x) <= QTY_EPSILON ==> x == 0.0
  {
    var n: int :| x == Ticks(n, tick);
    if n >= 1 {
      ProductSign(n as real - 1.0, tick);
    } else if n <= -1 {
      ProductSign(-(n as real) - 1.0, tick);
    }
  }

  ghost predicate GridLot(lot: Lot, tick: real) {
    OnGrid(lot.qty, tick) && WellFormed(lot)
  }

  predicate WellFormed(lot: Lot) {
    lot.qty == 0.0 ==> lot.costBasis == 0.0
  }

  /** What a later read of the symbol sees once the lot has been stored or deleted. */
  function Stored(lot: Lot): Lot {
    if Abs(lot.qty) < QTY_EPSILON then FLAT else lot
  }

  function AvgCost(lot: Lot): real
    requires lot.qty != 0.0
  {
    lot.costBasis / lot.qty
  }

  predicate Opposed(x: real, y: real) {
    x > 0.0 > y || x < 0.0 < y
  }

  /** Textbook average-cost accounting with no tolerance anywhere: adding sums cost, reducing keeps
      the average, and crossing zero reopens at the fill price. */
  function TextbookTrade(acc: Lot, qty: real, price: real): Lot {
    var total := acc.qty + qty;
    if !Opposed(acc.qty, qty) then Lot(total, acc.costBasis + qty * price)
    else if !Opposed(acc.qty, total) then Lot(total, AvgCost(acc) * total)
    else Lot(total, price * total)
  }

  /** Profit of the closed part: closed quantity times the distance to the average cost. */
  function TextbookGain(acc: Lot, qty: real, price: real): real {
    if !Opposed(acc.qty, qty) then 0.0
    else if !Opposed(acc.qty, acc.qty + qty) then -qty * (price - AvgCost(acc))
    else acc.qty * (price - AvgCost(acc))
  }

  lemma AverageTimesQty(lot: Lot, qty: real)
    requires lot.qty != 0.0
    ensures AvgCost(lot) * lot.qty == lot.costBasis
    ensures lot.costBasis * qty / lot.qty == AvgCost(lot) * qty
  {
    var a := AvgCost(lot);
    assert a * lot.qty == lot.costBasis;
    assert lot.costBasis * qty == (a * qty) * lot.qty;
  }

  /** On the grid the tolerance never bites: the code is textbook average-cost accounting. */
  lemma GridTradeIsTextbook(acc: Lot, qty: real, price: real, tick: real)
    requires QTY_EPSILON < tick && GridLot(acc, tick) && OnGrid(qty, tick)
    ensures ApplyFill(acc, qty, price) == TextbookTrade(acc, qty, price)
    ensures RealizedDelta(acc.qty, acc.costBasis, qty, price) == TextbookGain(acc, qty, price)
    ensures GridLot(ApplyFill(acc, qty, price), tick)
    ensures Stored(ApplyFill(acc, qty, price)) == ApplyFill(acc, qty, price)
  {
    var total := acc.qty + qty;
    GridClosed(acc.qty, qty, tick);
    GridGap(total, tick);
    GridGap(qty, tick);
    if acc.qty != 0.0 {
      AverageTimesQty(acc, total);
      if qty == 0.0 {
        assert qty * price == 0.0;
      }
      if Opposed(acc.qty, qty) {
        OpposedTrade(acc, qty, price);
      }
    }
  }

  lemma OpposedTrade(acc: Lot, qty: real, price: real)
    requires Opposed(acc.qty, qty)
    requires Abs(acc.qty + qty) <= QTY_EPSILON ==> acc.qty + qty == 0.0
    ensures ApplyFill(acc, qty, price) == TextbookTrade(acc, qty, price)
    ensures RealizedDelta(acc.qty, acc.costBasis, qty, price) == TextbookGain(acc, qty, price)
  {
    if Abs(qty) <= Abs(acc.qty) {
      ReducingTrade(acc, qty, price);
    } else {
      CrossingTrade(acc, qty, price);
    }
  }

  lemma ReducingTrade(acc: Lot, qty: real, price: real)
    requires Opposed(acc.qty, qty) && Abs(qty) <= Abs(acc.qty)
    requires Abs(acc.qty + qty) <= QTY_EPSILON ==> acc.qty + qty == 0.0
    ensures ApplyFill(acc, qty, price) == TextbookTrade(acc, qty, price)
    ensures RealizedDelta(acc.qty, acc.costBasis, qty, price) == TextbookGain(acc, qty, price)
  {
    var total := acc.qty + qty;
    AverageTimesQty(acc, total);
    assert CloseQty(acc.qty, qty) == qty;
    assert total == 0.0 ==> AvgCost(acc) * total == 0.0;
  }

  lemma CrossingTrade(acc: Lot, qty: real, price: real)
    requires Opposed(acc.qty, qty) && Abs(qty) > Abs(acc.qty)
    requires Abs(acc.qty + qty) <= QTY_EPSILON ==> acc.qty + qty == 0.0
    ensures ApplyFill(acc, qty, price) == TextbookTrade(acc, qty, price)
    ensures RealizedDelta(acc.qty, acc.costBasis, qty, price) == TextbookGain(acc, qty, price)
  {
    var total := acc.qty + qty;
    assert CloseQty(acc.qty, qty) == -acc.qty;
    assert Opposed(acc.qty, total) && Abs(total) > QTY_EPSILON;
    assert ApplyFill(acc, qty, price) == Lot(0.0 + (qty - -acc.qty), 0.0 + (qty - -acc.qty) * price);
    assert qty - -acc.qty == total;
    Commuted(total, price);
  }

  lemma Commuted(x: real, y: real)
    ensures x * y == y * x
  {
  }

  /** The realized profit is the textbook one for all quantities: no tolerance enters it. */
  lemma GainIsTextbook(acc: Lot, qty: real, price: real)
    ensures RealizedDelta(acc.qty, acc.costBasis, qty, price) == TextbookGain(acc, qty, price)
  {
    if qty == 0.0 {
      assert 0.0 * (price - (if acc.qty == 0.0 then 0.0 else AvgCost(acc))) == 0.0;
    }
  }

  /** Cash law: what enters the cost basis is the notional plus what was realized. */
  lemma TextbookCash(acc: Lot, qty: real, price: real)
    ensures TextbookTrade(acc, qty, price).costBasis - acc.costBasis - TextbookGain(acc, qty, price) == qty * price
    ensures TextbookTrade(acc, qty, price).qty == acc.qty + qty
  {
    if acc.qty != 0.0 {
      var a, total := AvgCost(acc), acc.qty + qty;
      AverageTimesQty(acc, total);
      assert a * total == a * acc.qty + a * qty;
      assert price * total == price * acc.qty + price * qty;
      assert acc.qty * (price - a) == price * acc.qty - a * acc.qty;
      assert -qty * (price - a) == a * qty - price * qty;
    }
  }

  /** Away from the grid one fill mislays at most the tolerance. */
  lemma TradeDrift(acc: Lot, qty: real, price: real)
    ensures Abs(Stored(ApplyFill(acc, qty, price)).qty - (acc.qty + qty)) <= QTY_EPSILON
  {
  }

  // ---- what a fill against the position does ----

  lemma AverageIs(lot: Lot, average: real)
    requires lot.qty != 0.0 && lot.costBasis == average * lot.qty
    ensures AvgCost(lot) == average
  {
  }

  lemma ProductSign(x: real, y: real)
    requires x >= 0.0 && y >= 0.0
    ensures x * y >= 0.0
  {
  }

  /** A fill against a position of the given average: reduce at that average, or cross zero and
      reopen at the price; either way a remnant within the tolerance is dropped. */
  function OpposedLot(average: real, accQty: real, qty: real, price: real): Lot {
    var total := accQty + qty;
    if Abs(qty) <= Abs(accQty) then Stored(Lot(total, average * total))
    else if Abs(total) > QTY_EPSILON then Lot(total, total * price)
    else FLAT
  }

  lemma OpposedShape(acc: Lot, qty: real, price: real)
    requires Opposed(acc.qty, qty)
    ensures Stored(ApplyFill(acc, qty, price)) == OpposedLot(AvgCost(acc), acc.qty, qty, price)
  {
    AverageTimesQty(acc, acc.qty + qty);
  }

  // ---- splitting one fill ----

  predicate SameSide(x: real, y: real) {
    (x >= 0.0 && y >= 0.0) || (x <= 0.0 && y <= 0.0)
  }

  lemma TextbookSplit(acc: Lot, q1: real, q2: real, price: real)
    requires WellFormed(acc) && SameSide(q1, q2)
    ensures TextbookTrade(TextbookTrade(acc, q1, price), q2, price) == TextbookTrade(acc, q1 + q2, price)
    ensures TextbookGain(acc, q1, price) + TextbookGain(TextbookTrade(acc, q1, price), q2, price)
         == TextbookGain(acc, q1 + q2, price)
  {
    var mid := acc.qty + q1;
    assert (q1 + q2) * price == q1 * price + q2 * price;
    if Opposed(acc.qty, q1) {
      if Opposed(acc.qty, mid) {
        SplitAfterFlip(acc, q1, q2, price);
      } else if mid == 0.0 {
        SplitAtZero(acc, q1, q2, price);
      } else {
        SplitBeforeZero(acc, q1, q2, price);
      }
    } else if acc.qty == 0.0 && mid != 0.0 {
      AverageIs(Lot(mid, acc.costBasis + q1 * price), price);
    }
  }

  lemma SplitAfterFlip(acc: Lot, q1: real, q2: real, price: real)
    requires SameSide(q1, q2) && Opposed(acc.qty, q1) && Opposed(acc.qty, acc.qty + q1)
    ensures TextbookTrade(TextbookTrade(acc, q1, price), q2, price) == TextbookTrade(acc, q1 + q2, price)
    ensures TextbookGain(acc, q1, price) + TextbookGain(TextbookTrade(acc, q1, price), q2, price)
         == TextbookGain(acc, q1 + q2, price)
  {
    assert price * (acc.qty + q1 + q2) == price * (acc.qty + q1) + q2 * price;
  }

  lemma SplitAtZero(acc: Lot, q1: real, q2: real, price: real)
    requires SameSide(q1, q2) && acc.qty != 0.0 && acc.qty + q1 == 0.0
    ensures TextbookTrade(TextbookTrade(acc, q1, price), q2, price) == TextbookTrade(acc, q1 + q2, price)
    ensures TextbookGain(acc, q1, price) + TextbookGain(TextbookTrade(acc, q1, price), q2, price)
         == TextbookGain(acc, q1 + q2, price)
  {
    assert AvgCost(acc) * 0.0 == 0.0;
    assert TextbookTrade(acc, q1, price) == Lot(0.0, 0.0);
    assert price * q2 == q2 * price;
    assert -q1 == acc.qty;
  }

  lemma SplitBeforeZero(acc: Lot, q1: real, q2: real, price: real)
    requires SameSide(q1, q2) && Opposed(acc.qty, q1) && acc.qty + q1 != 0.0 && !Opposed(acc.qty, acc.qty + q1)
    ensures TextbookTrade(TextbookTrade(acc, q1, price), q2, price) == TextbookTrade(acc, q1 + q2, price)
    ensures TextbookGain(acc, q1, price) + TextbookGain(TextbookTrade(acc, q1, price), q2, price)
         == TextbookGain(acc, q1 + q2, price)
  {
    var a := AvgCost(acc);
    var mid := Lot(acc.qty + q1, a * (acc.qty + q1));
    AverageIs(mid, a);
    assert TextbookTrade(acc, q1, price) == mid;
    GainsAdd(acc.qty, q1, q2, price - a);
    if q2 == 0.0 {
      assert q2 * price == 0.0;
    }
  }

  lemma GainsAdd(qty: real, q1: real, q2: real, spread: real)
    ensures -q1 * spread + -q2 * spread == -(q1 + q2) * spread
    ensures -q1 * spread + (qty + q1) * spread == qty * spread
  {
  }

  // ---- mirror image ----

  function NegateLot(lot: Lot): Lot {
    Lot(-lot.qty, -lot.costBasis)
  }

  lemma StoredMirror(lot: Lot)
    ensures Stored(NegateLot(lot)) == NegateLot(Stored(lot))
  {
  }

  lemma AddingMirror(acc: Lot, qty: real, price: real)
    requires acc.qty == 0.0 || (acc.qty > 0.0 && qty > 0.0) || (acc.qty < 0.0 && qty < 0.0)
    ensures ApplyFill(NegateLot(acc), -qty, price) == NegateLot(ApplyFill(acc, qty, price))
  {
    NegatedFactor(qty, price);
  }

  lemma TradeMirror(acc: Lot, qty: real, price: real)
    ensures Stored(ApplyFill(NegateLot(acc), -qty, price)) == NegateLot(Stored(ApplyFill(acc, qty, price)))
  {
    hide ApplyFill;
    if Opposed(acc.qty, qty) {
      OpposedMirror(acc, qty, price);
    } else if qty == 0.0 && acc.qty != 0.0 {
      ZeroFill(acc, price);
      ZeroFill(NegateLot(acc), price);
      StoredMirror(acc);
    } else {
      AddingMirror(acc, qty, price);
      StoredMirror(ApplyFill(acc, qty, price));
    }
  }

  lemma GainMirror(acc: Lot, qty: real, price: real)
    ensures RealizedDelta(-acc.qty, -acc.costBasis, -qty, price) == -RealizedDelta(acc.qty, acc.costBasis, qty, price)
  {
    if Opposed(acc.qty, qty) {
      OpposedGainMirror(acc, qty, price);
    } else if qty == 0.0 && acc.qty != 0.0 {
      ZeroFill(acc, price);
      ZeroFill(NegateLot(acc), price);
    }
  }

  lemma ZeroFill(acc: Lot, price: real)
    requires acc.qty != 0.0
    ensures Stored(ApplyFill(acc, 0.0, price)) == Stored(acc)
    ensures RealizedDelta(acc.qty, acc.costBasis, 0.0, price) == 0.0
  {
    assert 0.0 * price == 0.0;
    AverageTimesQty(acc, acc.qty);
  }

  lemma AverageMirror(acc: Lot)
    requires acc.qty != 0.0
    ensures AvgCost(NegateLot(acc)) == AvgCost(acc)
  {
    AverageTimesQty(acc, acc.qty);
    AverageIs(NegateLot(acc), AvgCost(acc));
  }

  lemma OpposedMirror(acc: Lot, qty: real, price: real)
    requires Opposed(acc.qty, qty)
    ensures Stored(ApplyFill(NegateLot(acc), -qty, price)) == NegateLot(Stored(ApplyFill(acc, qty, price)))
  {
    hide ApplyFill, AvgCost, OpposedLot, Stored;
    AverageMirror(acc);
    OpposedShape(acc, qty, price);
    OpposedShape(NegateLot(acc), -qty, price);
    OpposedLotMirror(AvgCost(acc), acc.qty, qty, price);
  }

  lemma OpposedLotMirror(average: real, accQty: real, qty: real, price: real)
    ensures OpposedLot(average, -accQty, -qty, price) == NegateLot(OpposedLot(average, accQty, qty, price))
  {
    NegatedFactor(accQty + qty, average);
    NegatedFactor(accQty + qty, price);
  }

  lemma OpposedGainMirror(acc: Lot, qty: real, price: real)
    requires Opposed(acc.qty, qty)
    ensures RealizedDelta(-acc.qty, -acc.costBasis, -qty, price) == -RealizedDelta(acc.qty, acc.costBasis, qty, price)
  {
    AverageMirror(acc);
    NegatedFactor(-CloseQty(acc.qty, qty), price - AvgCost(acc));
  }

  lemma NegatedFactor(x: real, y: real)
    ensures -x * y == -(x * y)
  {
  }

  // ---- where the average cost can lie ----

  ghost predicate InHull(lot: Lot, lo: real, hi: real) {
    WellFormed(lot) && (lot.qty != 0.0 ==> lo <= AvgCost(lot) <= hi)
  }

  lemma HullByCost(lot: Lot, lo: real, hi: real)
    requires lot.qty != 0.0
    ensures lo <= AvgCost(lot) <= hi <==>
            (if lot.qty > 0.0 then lo * lot.qty <= lot.costBasis <= hi * lot.qty
             else hi * lot.qty <= lot.costBasis <= lo * lot.qty)
  {
    var a, q := AvgCost(lot), lot.qty;
    AverageTimesQty(lot, q);
    assert lo * q - a * q == (lo - a) * q;
    assert hi * q - a * q == (hi - a) * q;
    if q > 0.0 {
      assert lo - a > 0.0 ==> (lo - a) * q > 0.0;
      assert lo - a <= 0.0 ==> (lo - a) * q <= 0.0;
      assert hi - a < 0.0 ==> (hi - a) * q < 0.0;
      assert hi - a >= 0.0 ==> (hi - a) * q >= 0.0;
    } else {
      assert lo - a > 0.0 ==> (lo - a) * q < 0.0;
      assert lo - a <= 0.0 ==> (lo - a) * q >= 0.0;
      assert hi - a < 0.0 ==> (hi - a) * q > 0.0;
      assert hi - a >= 0.0 ==> (hi - a) * q <= 0.0;
    }
  }

  lemma TradeKeepsHull(acc: Lot, qty: real, price: real, lo: real, hi: real)
    requires InHull(acc, lo, hi) && lo <= price <= hi
    ensures InHull(Stored(ApplyFill(acc, qty, price)), lo, hi)
  {
    var total := acc.qty + qty;
    if Opposed(acc.qty, qty) {
      OpposedKeepsHull(acc, qty, price, lo, hi);
    } else if qty == 0.0 && acc.qty != 0.0 {
      ZeroFill(acc, price);
    } else if total != 0.0 {
      AddingKeepsHull(acc, qty, price, lo, hi);
    }
  }

  lemma OpposedKeepsHull(acc: Lot, qty: real, price: real, lo: real, hi: real)
    requires InHull(acc, lo, hi) && lo <= price <= hi && Opposed(acc.qty, qty)
    ensures InHull(Stored(ApplyFill(acc, qty, price)), lo, hi)
  {
    hide ApplyFill;
    OpposedAverage(acc, qty, price);
    var lot := Stored(ApplyFill(acc, qty, price));
    assert WellFormed(lot);
  }

  lemma OpposedAverage(acc: Lot, qty: real, price: real)
    requires Opposed(acc.qty, qty)
    ensures var lot := Stored(ApplyFill(acc, qty, price));
            && (lot.qty == 0.0 ==> lot.costBasis == 0.0)
            && (lot.qty != 0.0 ==> AvgCost(lot) == if Abs(qty) <= Abs(acc.qty) then AvgCost(acc) else price)
  {
    hide ApplyFill;
    var total := acc.qty + qty;
    OpposedShape(acc, qty, price);
    if total != 0.0 {
      AverageIs(Lot(total, AvgCost(acc) * total), AvgCost(acc));
      AverageIs(Lot(total, total * price), price);
    }
  }

  lemma AddingKeepsHull(acc: Lot, qty: real, price: real, lo: real, hi: real)
    requires InHull(acc, lo, hi) && lo <= price <= hi
    requires SameDirection(acc.qty, qty) && acc.qty + qty != 0.0
    ensures InHull(Lot(acc.qty + qty, acc.costBasis + qty * price), lo, hi)
  {
    HullByCost(Lot(acc.qty + qty, acc.costBasis + qty * price), lo, hi);
    if acc.qty != 0.0 { HullByCost(acc, lo, hi); }
    assert lo * (acc.qty + qty) == lo * acc.qty + lo * qty;
    assert hi * (acc.qty + qty) == hi * acc.qty + hi * qty;
    ProductSign(Abs(qty), price - lo);
    ProductSign(Abs(qty), hi - price);
  }

  /** A purely reducing fill leaves the average cost exactly as it was. */
  lemma ReducingKeepsAverage(acc: Lot, qty: real, price: real)
    requires Opposed(acc.qty, qty) && Abs(qty) <= Abs(acc.qty)
    ensures var lot := Stored(ApplyFill(acc, qty, price));
            lot.qty != 0.0 ==> lot.qty == acc.qty + qty && AvgCost(lot) == AvgCost(acc)
  {
    var left := acc.qty + qty;
    OpposedShape(acc, qty, price);
    if left != 0.0 { AverageIs(Lot(left, AvgCost(acc) * left), AvgCost(acc)); }
  }
}
