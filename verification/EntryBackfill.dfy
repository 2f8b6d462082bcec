/** Entry-time inference of app/engine/entry_backfill.py: when the position that is open now was opened. */
module EntryBackfill {
  import opened Options
  import opened Pnl
  import opened PnlLotLaws
  import opened PnlLaws

  /** `time` is updated_at; every side but BUY sells. */
  datatype Order = Order(time: int, buy: bool, filledQty: real, price: real)

  function Signed(o: Order): real {
    if o.buy then o.filledQty else -o.filledQty
  }

  function Balance(orders: seq<Order>): real {
    if orders == [] then 0.0 else Signed(orders[0]) + Balance(orders[1..])
  }

  /** The filled quantity of the orders of one side. */
  function Filled(orders: seq<Order>, buys: bool): real {
    if orders == [] then 0.0 else (if orders[0].buy == buys then orders[0].filledQty else 0.0) + Filled(orders[1..], buys)
  }

  /** The balance is what was bought less what was sold. */
  lemma {:induction false} BalanceBySide(orders: seq<Order>)
    ensures Balance(orders) == Filled(orders, true) - Filled(orders, false)
  {
    if orders != [] {
      BalanceBySide(orders[1..]);
    }
  }

  lemma {:induction false} BalanceConcat(a: seq<Order>, b: seq<Order>)
    ensures Balance(a + b) == Balance(a) + Balance(b)
  {
    if a == [] {
      assert a + b == b;
    } else {
      assert (a + b)[1..] == a[1..] + b;
      BalanceConcat(a[1..], b);
    }
  }

  lemma BalancePrefix(orders: seq<Order>, i: nat)
    requires i < |orders|
    ensures Balance(orders[..i + 1]) == Balance(orders[..i]) + Signed(orders[i])
  {
    assert orders[..i + 1] == orders[..i] + [orders[i]];
    BalanceConcat(orders[..i], [orders[i]]);
    assert Balance([orders[i]]) == Signed(orders[i]) + Balance([orders[i]][1..]);
  }

  // ---- the stable sort ----

  function Insert(o: Order, sorted: seq<Order>): seq<Order> {
    if sorted == [] || o.time <= sorted[0].time then [o] + sorted
    else [sorted[0]] + Insert(o, sorted[1..])
  }

  function SortByTime(orders: seq<Order>): seq<Order> {
    if orders == [] then [] else Insert(orders[0], SortByTime(orders[1..]))
  }

  ghost predicate InTimeOrder(orders: seq<Order>) {
    forall i, j :: 0 <= i < j < |orders| ==> orders[i].time <= orders[j].time
  }

  function AtTime(orders: seq<Order>, time: int): seq<Order> {
    if orders == [] then []
    else (if orders[0].time == time then [orders[0]] else []) + AtTime(orders[1..], time)
  }

  lemma {:induction false} InsertPermutes(o: Order, sorted: seq<Order>)
    ensures multiset(Insert(o, sorted)) == multiset{o} + multiset(sorted)
  {
    if sorted != [] && o.time > sorted[0].time {
      InsertPermutes(o, sorted[1..]);
      assert sorted == [sorted[0]] + sorted[1..];
    }
  }

  /** Nothing in the result is earlier than both the new order and the old first one. */
  lemma {:induction false} InsertKeepsOrder(o: Order, sorted: seq<Order>)
    requires InTimeOrder(sorted)
    ensures InTimeOrder(Insert(o, sorted))
    ensures forall x <- Insert(o, sorted) :: o.time <= x.time || (sorted != [] && sorted[0].time <= x.time)
  {
    if sorted != [] && o.time > sorted[0].time {
      InsertKeepsOrder(o, sorted[1..]);
      var rest := Insert(o, sorted[1..]);
      assert |sorted| > 1 ==> sorted[0].time <= sorted[1].time;
      forall j | 0 <= j < |rest|
        ensures sorted[0].time <= rest[j].time
      {
        assert rest[j] in rest;
      }
      LaterAll(sorted[0], rest);
    }
  }

  lemma LaterAll(first: Order, rest: seq<Order>)
    requires InTimeOrder(rest) && forall j :: 0 <= j < |rest| ==> first.time <= rest[j].time
    ensures InTimeOrder([first] + rest)
    ensures forall x <- [first] + rest :: first.time <= x.time
  {
  }

  lemma {:induction false} InsertIsStable(o: Order, sorted: seq<Order>, time: int)
    ensures AtTime(Insert(o, sorted), time) == (if o.time == time then [o] else []) + AtTime(sorted, time)
    ensures Balance(Insert(o, sorted)) == Signed(o) + Balance(sorted)
  {
    var r := Insert(o, sorted);
    if sorted == [] || o.time <= sorted[0].time {
      assert r[1..] == sorted;
    } else {
      InsertIsStable(o, sorted[1..], time);
      assert r[1..] == Insert(o, sorted[1..]);
    }
  }

  /** sorted(): a permutation in time order. */
  lemma {:induction false} SortPermutes(orders: seq<Order>)
    ensures multiset(SortByTime(orders)) == multiset(orders)
    ensures InTimeOrder(SortByTime(orders))
  {
    if orders != [] {
      SortPermutes(orders[1..]);
      var rest := SortByTime(orders[1..]);
      InsertPermutes(orders[0], rest);
      InsertKeepsOrder(orders[0], rest);
      hide InTimeOrder, Insert;
      assert orders == [orders[0]] + orders[1..];
    }
  }

  /** Orders of equal time keep the caller's order, and the net quantity is that of the caller's list. */
  lemma {:induction false} SortIsStable(orders: seq<Order>, time: int)
    ensures AtTime(SortByTime(orders), time) == AtTime(orders, time)
    ensures Balance(SortByTime(orders)) == Balance(orders)
  {
    if orders != [] {
      SortIsStable(orders[1..], time);
      InsertIsStable(orders[0], SortByTime(orders[1..]), time);
    }
  }

  // ---- the walk ----

  /** After the first `n` orders the open position was opened by order `k`: the balance was zero just
      before it and never again since. */
  ghost predicate OpenedBy(orders: seq<Order>, n: nat, k: nat)
    requires n <= |orders|
  {
    k < n && Balance(orders[..k]) == 0.0 && forall m :: k < m <= n ==> Balance(orders[..m]) != 0.0
  }

  /** None exactly when as much was bought as sold, in whatever order the orders come; otherwise the time of
      the order after the last zero-balance prefix of the time-sorted orders. */
  method InferOpenEntryTime(orders: seq<Order>) returns (entry: Option<int>)
    ensures entry.None? <==> Filled(orders, true) == Filled(orders, false)
    ensures entry.None? <==> Balance(orders) == 0.0
    ensures var ordered := SortByTime(orders);
            entry.Some? ==> exists k: nat :: OpenedBy(ordered, |ordered|, k) && entry == Some(ordered[k].time)
  {
    SortIsStable(orders, 0);
    BalanceBySide(orders);
    var ordered := SortByTime(orders);
    var balance: real, candidate: Option<int> := 0.0, None;
    ghost var opener := 0;
    for i := 0 to |ordered|
      invariant balance == Balance(ordered[..i])
      invariant balance != 0.0 ==> OpenedBy(ordered, i, opener) && candidate == Some(ordered[opener].time)
    {
      BalancePrefix(ordered, i);
      var o := ordered[i];
      if o.filledQty == 0.0 {
        continue;
      }
      var signed := if o.buy then o.filledQty else -o.filledQty;
      var wasFlat := balance == 0.0;
      balance := balance + signed;
      if wasFlat && balance != 0.0 {
        candidate := Some(o.time);
        opener := i;
      } else if !wasFlat && balance == 0.0 {
        candidate := None;
      }
    }
    assert ordered[..|ordered|] == ordered;
    entry := if balance != 0.0 then candidate else None;
  }

  /** The opening order is unique, and it is a real fill. */
  lemma OneOpener(orders: seq<Order>, n: nat, k: nat, other: nat)
    requires n <= |orders| && OpenedBy(orders, n, k) && OpenedBy(orders, n, other)
    ensures k == other && orders[k].filledQty != 0.0
  {
    BalancePrefix(orders, k);
    assert Balance(orders[..k]) == 0.0 && Balance(orders[..other]) == 0.0 && Balance(orders[..k + 1]) != 0.0;
  }

  // ---- agreement with the position fold ----

  function Fills(orders: seq<Order>, symbol: string): seq<Fill> {
    seq(|orders|, i requires 0 <= i < |orders| => Fill(symbol, Signed(orders[i]), orders[i].price))
  }

  ghost predicate GridOrders(orders: seq<Order>, tick: real) {
    forall o <- orders :: OnGrid(Signed(o), tick)
  }

  lemma {:induction false} FillsNet(orders: seq<Order>, symbol: string)
    ensures Only(Fills(orders, symbol), symbol) == Fills(orders, symbol)
    ensures NetQty(Fills(orders, symbol)) == Balance(orders)
  {
    var fills := Fills(orders, symbol);
    if orders != [] {
      assert fills[1..] == Fills(orders[1..], symbol);
      FillsNet(orders[1..], symbol);
      assert fills == [fills[0]] + fills[1..];
    }
  }

  /** On the tick grid the position fold holds a lot exactly when the balance is not zero, of that size. */
  lemma LotIffBalance(orders: seq<Order>, symbol: string, tick: real)
    requires QTY_EPSILON < tick && GridOrders(orders, tick)
    ensures symbol in Fold(Fills(orders, symbol)).positions <==> Balance(orders) != 0.0
    ensures Get(Fold(Fills(orders, symbol)).positions, symbol).qty == Balance(orders)
  {
    FillsNet(orders, symbol);
    OpenIffNonzero(Fills(orders, symbol), symbol, tick);
  }

  /** The fold sees a buy as more of the symbol and any other order as less of it, by the filled quantity. */
  lemma SidesMoveTheLot(orders: seq<Order>, o: Order, symbol: string, tick: real)
    requires QTY_EPSILON < tick && GridOrders(orders + [o], tick)
    ensures var before := Get(Fold(Fills(orders, symbol)).positions, symbol).qty;
            var after := Get(Fold(Fills(orders + [o], symbol)).positions, symbol).qty;
            after == if o.buy then before + o.filledQty else before - o.filledQty
  {
    hide Fold, Fills;
    assert forall x <- orders :: x in orders + [o];
    LotIffBalance(orders, symbol, tick);
    LotIffBalance(orders + [o], symbol, tick);
    BalanceConcat(orders, [o]);
    BalanceBySide([o]);
    assert [o][1..] == [] && Filled([], true) == 0.0 && Filled([], false) == 0.0;
  }

  // ---- exactly when they agree ----

  /** What the fold keeps of a balance `after` that one fill reached from `before`. */
  function Kept(before: real, after: real): real {
    if Abs(after) > QTY_EPSILON || (Abs(after) == QTY_EPSILON && !Opposed(before, after)) then after else 0.0
  }

  /** The step loses nothing to the fold's tolerance. */
  predicate Clear(before: real, after: real) {
    after == 0.0 || Abs(after) > QTY_EPSILON || (Abs(after) == QTY_EPSILON && !Opposed(before, after))
  }

  /** One fill of any size on any lot: the tolerance drops a remnant strictly below it, and on a flip
      also a remnant of exactly its size. */
  lemma StoredQuantity(lot: Lot, qty: real, price: real)
    ensures Stored(ApplyFill(lot, qty, price)).qty == Kept(lot.qty, lot.qty + qty)
  {
    var sameSide := SameDirection(lot.qty, qty);
    if !sameSide && Abs(qty) > Abs(lot.qty) {
      assert Opposed(lot.qty, lot.qty + qty);
    }
  }

  lemma {:induction false} FoldLotSnoc(lot: Lot, fills: seq<Fill>, f: Fill)
    ensures FoldLot(lot, fills + [f]) == Stored(ApplyFill(FoldLot(lot, fills), f.qty, f.price))
    decreases |fills|
  {
    hide ApplyFill, Stored;
    if fills == [] {
      assert fills + [f] == [f] && [f][1..] == [];
    } else {
      assert (fills + [f])[1..] == fills[1..] + [f];
      FoldLotSnoc(Stored(ApplyFill(lot, fills[0].qty, fills[0].price)), fills[1..], f);
    }
  }

  /** The quantity that the fold holds after the first `n` orders. */
  function Held(orders: seq<Order>, n: nat, symbol: string): real
    requires n <= |orders|
  {
    Get(Fold(Fills(orders[..n], symbol)).positions, symbol).qty
  }

  lemma HeldIsLot(orders: seq<Order>, n: nat, symbol: string)
    requires n <= |orders|
    ensures Held(orders, n, symbol) == FoldLot(FLAT, Fills(orders[..n], symbol)).qty
    ensures symbol in Fold(Fills(orders[..n], symbol)).positions <==> n > 0 && Abs(Held(orders, n, symbol)) >= QTY_EPSILON
  {
    FillsNet(orders[..n], symbol);
    SymbolsAreIndependent(map[], Fills(orders[..n], symbol), symbol);
  }

  lemma HeldStep(orders: seq<Order>, n: nat, symbol: string)
    requires n < |orders|
    ensures Held(orders, n + 1, symbol) == Kept(Held(orders, n, symbol), Held(orders, n, symbol) + Signed(orders[n]))
    ensures symbol in Fold(Fills(orders[..n + 1], symbol)).positions <==> Held(orders, n + 1, symbol) != 0.0
  {
    hide FoldLot, Fold, ApplyFill, Stored;
    HeldIsLot(orders, n, symbol);
    HeldIsLot(orders, n + 1, symbol);
    var fills, f := Fills(orders[..n], symbol), Fill(symbol, Signed(orders[n]), orders[n].price);
    assert Fills(orders[..n + 1], symbol) == fills + [f];
    FoldLotSnoc(FLAT, fills, f);
    StoredQuantity(FoldLot(FLAT, fills), f.qty, f.price);
  }

  /** Every step of the first `n` orders is clear. */
  ghost predicate ClearSteps(orders: seq<Order>, n: nat)
    requires n <= |orders|
  {
    forall m :: 0 <= m < n ==> Clear(Balance(orders[..m]), Balance(orders[..m + 1]))
  }

  /** The fold holds a lot after the first `n` orders exactly when their balance is not zero. */
  ghost predicate AgreeAt(orders: seq<Order>, n: nat, symbol: string)
    requires n <= |orders|
  {
    symbol in Fold(Fills(orders[..n], symbol)).positions <==> Balance(orders[..n]) != 0.0
  }

  /** After clear steps the fold holds exactly the balance. */
  lemma {:induction false} ClearHolds(orders: seq<Order>, n: nat, symbol: string)
    requires n <= |orders| && ClearSteps(orders, n)
    ensures Held(orders, n, symbol) == Balance(orders[..n]) && AgreeAt(orders, n, symbol)
  {
    hide Fold, Fills, Balance;
    if n == 0 {
      NothingHeld(orders, symbol);
    } else {
      assert Clear(Balance(orders[..n - 1]), Balance(orders[..n - 1 + 1]));
      ClearHolds(orders, n - 1, symbol);
      HeldStep(orders, n - 1, symbol);
      BalancePrefix(orders, n - 1);
    }
  }

  lemma NothingHeld(orders: seq<Order>, symbol: string)
    ensures Held(orders, 0, symbol) == 0.0 && Balance(orders[..0]) == 0.0 && AgreeAt(orders, 0, symbol)
  {
    assert orders[..0] == [] && Fills([], symbol) == [];
  }

  lemma {:induction false} AgreementIsClear(orders: seq<Order>, n: nat, symbol: string)
    requires n <= |orders| && forall m :: 0 <= m <= n ==> AgreeAt(orders, m, symbol)
    ensures ClearSteps(orders, n)
  {
    hide Fold, Fills, Balance, Held;
    if n > 0 {
      AgreementIsClear(orders, n - 1, symbol);
      ClearHolds(orders, n - 1, symbol);
      HeldStep(orders, n - 1, symbol);
      BalancePrefix(orders, n - 1);
      assert AgreeAt(orders, n, symbol);
    }
  }

  /** Inference and the position fold agree after every prefix of the orders exactly when no step ends
      within the tolerance without ending at zero; a remnant of just the tolerance counts as within it
      when the step crossed zero. */
  lemma AgreeIffClear(orders: seq<Order>, symbol: string)
    ensures (forall n :: 0 <= n <= |orders| ==> AgreeAt(orders, n, symbol)) <==> ClearSteps(orders, |orders|)
  {
    hide AgreeAt, Clear, Balance;
    if forall n :: 0 <= n <= |orders| ==> AgreeAt(orders, n, symbol) {
      AgreementIsClear(orders, |orders|, symbol);
    }
    if ClearSteps(orders, |orders|) {
      forall n | 0 <= n <= |orders|
        ensures AgreeAt(orders, n, symbol)
      {
        ClearHolds(orders, n, symbol);
      }
    }
  }

  /** The tick grid is clear. */
  lemma GridIsClear(orders: seq<Order>, tick: real)
    requires QTY_EPSILON < tick && GridOrders(orders, tick)
    ensures ClearSteps(orders, |orders|)
  {
    forall m | 0 <= m < |orders|
      ensures Clear(Balance(orders[..m]), Balance(orders[..m + 1]))
    {
      GridBalance(orders[..m + 1], tick);
      GridGap(Balance(orders[..m + 1]), tick);
    }
  }

  lemma {:induction false} GridBalance(orders: seq<Order>, tick: real)
    requires GridOrders(orders, tick)
    ensures OnGrid(Balance(orders), tick)
  {
    if orders == [] {
      assert 0.0 == Ticks(0, tick);
    } else {
      GridBalance(orders[1..], tick);
      GridClosed(Signed(orders[0]), Balance(orders[1..]), tick);
    }
  }

  /** The inferred opener is where the fold's own lot began: no lot before it, a lot ever since. */
  lemma FoldOpensThere(orders: seq<Order>, n: nat, k: nat, symbol: string)
    requires n <= |orders| && ClearSteps(orders, n)
    requires OpenedBy(orders, n, k)
    ensures symbol !in Fold(Fills(orders[..k], symbol)).positions
    ensures forall m :: k < m <= n ==> symbol in Fold(Fills(orders[..m], symbol)).positions
  {
    hide Fold, Fills, Balance, Clear;
    ClearHolds(orders, k, symbol);
    forall m | k < m <= n
      ensures symbol in Fold(Fills(orders[..m], symbol)).positions
    {
      ClearHolds(orders, m, symbol);
    }
  }

  /** An instance off the grid: a fill below the tolerance opens no lot but has an entry time. */
  lemma DustDisagrees(symbol: string, time: int)
    ensures var dust := [Order(time, true, QTY_EPSILON / 2.0, 1.0)];
            Balance(dust) != 0.0 && !AgreeAt(dust, 1, symbol)
  {
    var dust := [Order(time, true, QTY_EPSILON / 2.0, 1.0)];
    assert dust[1..] == [] && dust[..1] == dust;
    NothingHeld(dust, symbol);
    HeldStep(dust, 0, symbol);
  }
}
