/** The realized-P&L fold of packages/proto/pnl/pnl.go: average-cost accounting over signed
    fills, with shorts, position flips and the flat-lot tolerance. float64 is modelled as real. */
module Pnl {
  const QTY_EPSILON: real := 0.000000001

  datatype Fill = Fill(symbol: string, qty: real, price: real)

  datatype Lot = Lot(qty: real, costBasis: real)

  datatype FoldResult = FoldResult(positions: map<string, Lot>, realized: real)

  const FLAT := Lot(0.0, 0.0)

  function Abs(x: real): real {
    if x < 0.0 then -x else x
  }

  predicate SameDirection(accQty: real, fillQty: real) {
    accQty == 0.0 || (fillQty > 0.0) == (accQty > 0.0)
  }

  function CloseQty(accQty: real, fillQty: real): real {
    if Abs(fillQty) > Abs(accQty) then -accQty else fillQty
  }

  function RealizedDelta(accQty: real, accCost: real, fillQty: real, fillPrice: real): real {
    if SameDirection(accQty, fillQty) then 0.0
    else -CloseQty(accQty, fillQty) * (fillPrice - accCost / accQty)
  }

  /** The lot one fill leaves behind, before the flat-lot deletion. */
  function ApplyFill(acc: Lot, qty: real, price: real): Lot {
    if SameDirection(acc.qty, qty) then
      Lot(acc.qty + qty, acc.costBasis + qty * price)
    else
      var close := CloseQty(acc.qty, qty);
      var left := acc.qty + close;
      var kept := if Abs(left) < QTY_EPSILON then FLAT else Lot(left, acc.costBasis * left / acc.qty);
      var remainder := qty - close;
      if Abs(remainder) > QTY_EPSILON then Lot(kept.qty + remainder, kept.costBasis + remainder * price)
      else kept
  }

  /** Reading an absent symbol gives the zero lot. */
  function Get(accs: map<string, Lot>, symbol: string): Lot {
    if symbol in accs then accs[symbol] else FLAT
  }

  function Put(accs: map<string, Lot>, symbol: string, lot: Lot): map<string, Lot> {
    if Abs(lot.qty) < QTY_EPSILON then accs - {symbol} else accs[symbol := lot]
  }

  function Step(accs: map<string, Lot>, f: Fill): map<string, Lot> {
    Put(accs, f.symbol, ApplyFill(Get(accs, f.symbol), f.qty, f.price))
  }

  function StepRealized(accs: map<string, Lot>, f: Fill): real {
    var acc := Get(accs, f.symbol);
    RealizedDelta(acc.qty, acc.costBasis, f.qty, f.price)
  }

  function FoldFrom(baseline: map<string, Lot>, fills: seq<Fill>): FoldResult
    decreases |fills|
  {
    if fills == [] then FoldResult(baseline, 0.0)
    else
      var rest := FoldFrom(Step(baseline, fills[0]), fills[1..]);
      FoldResult(rest.positions, StepRealized(baseline, fills[0]) + rest.realized)
  }

  function Fold(fills: seq<Fill>): FoldResult {
    FoldFrom(map[], fills)
  }

  /** One iteration's update of the local lot, with the source's assignments in the source's order. */
  method TradeLot(acc0: Lot, f: Fill) returns (acc: Lot, gain: real)
    ensures acc == ApplyFill(acc0, f.qty, f.price)
    ensures gain == RealizedDelta(acc0.qty, acc0.costBasis, f.qty, f.price)
  {
    acc, gain := acc0, 0.0;
    if acc.qty == 0.0 || (f.qty > 0.0) == (acc.qty > 0.0) {
      acc := Lot(acc.qty + f.qty, acc.costBasis + f.qty * f.price);
    } else {
      gain := RealizedDelta(acc.qty, acc.costBasis, f.qty, f.price);
      var closeQty := f.qty;
      if Abs(closeQty) > Abs(acc.qty) {
        closeQty := -acc.qty;
      }
      var oldQty := acc.qty;
      acc := acc.(qty := acc.qty + closeQty);
      if Abs(acc.qty) < QTY_EPSILON {
        acc := FLAT;
      } else {
        acc := acc.(costBasis := acc.costBasis * acc.qty / oldQty);
      }
      var remainder := f.qty - closeQty;
      if Abs(remainder) > QTY_EPSILON {
        acc := Lot(acc.qty + remainder, acc.costBasis + remainder * f.price);
      }
    }
  }

  /** The source's loop: `accs` is updated fill by fill while `realized` accumulates. */
  method FoldInto(baseline: map<string, Lot>, fills: seq<Fill>) returns (result: FoldResult)
    ensures result == FoldFrom(baseline, fills)
  {
    var accs, realized := baseline, 0.0;
    for i := 0 to |fills|
      invariant FoldFrom(baseline, fills).positions == FoldFrom(accs, fills[i..]).positions
      invariant FoldFrom(baseline, fills).realized == realized + FoldFrom(accs, fills[i..]).realized
    {
      var f := fills[i];
      assert fills[i..][1..] == fills[i + 1..];
      var acc, gain := TradeLot(Get(accs, f.symbol), f);
      realized := realized + gain;
      if Abs(acc.qty) < QTY_EPSILON {
        accs := accs - {f.symbol};
      } else {
        accs := accs[f.symbol := acc];
      }
    }
    result := FoldResult(accs, realized);
  }
}
