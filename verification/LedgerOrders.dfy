/** When orders fill, what a fill changes, and where the shares and the cash of a run are. */
module LedgerOrders {
  import opened Ledger

  /** The shares held of a ticker. */
  function Held(ps: seq<Position>, ticker: string): int {
    if ps == [] then 0 else (if ps[0].ticker == ticker then ps[0].quantity else 0) + Held(ps[1..], ticker)
  }

  predicate Known(ps: seq<Position>, ticker: string) {
    exists i | 0 <= i < |ps| :: ps[i].ticker == ticker
  }

  lemma {:induction false} HeldUpdate(ps: seq<Position>, i: nat, p: Position, ticker: string)
    requires i < |ps| && p.ticker == ps[i].ticker
    ensures Held(ps[i := p], ticker) ==
            Held(ps, ticker) + if ticker == p.ticker then p.quantity - ps[i].quantity else 0
  {
    if i > 0 {
      HeldUpdate(ps[1..], i - 1, p, ticker);
      assert ps[i := p][1..] == ps[1..][i - 1 := p];
    } else {
      assert ps[0 := p][1..] == ps[1..];
    }
  }

  lemma {:induction false} HeldAppend(ps: seq<Position>, p: Position, ticker: string)
    ensures Held(ps + [p], ticker) == Held(ps, ticker) + if p.ticker == ticker then p.quantity else 0
  {
    if ps != [] {
      assert (ps + [p])[1..] == ps[1..] + [p];
      HeldAppend(ps[1..], p, ticker);
    }
  }

  lemma {:induction false} HeldInSlot(ps: seq<Position>, ticker: string)
    requires OnePerTicker(ps)
    ensures Held(ps, ticker) == var i := Slot(ps, ticker); if i < |ps| then ps[i].quantity else 0
    ensures !Known(ps, ticker) ==> Held(ps, ticker) == 0
  {
    if ps != [] {
      HeldInSlot(ps[1..], ticker);
      if ps[0].ticker == ticker {
        NotBehind(ps, ticker);
      }
    }
  }

  lemma NotBehind(ps: seq<Position>, ticker: string)
    requires ps != [] && OnePerTicker(ps) && ps[0].ticker == ticker
    ensures Slot(ps[1..], ticker) == |ps| - 1
  {}

  /** A market order and an order without a limit fill at the quoted price, any other at
      its limit. */
  function DuePrice(o: Order): real {
    if !o.market && o.limit > 0.0 then o.limit else o.quote
  }

  /** What filling it takes from the cash. */
  function Due(o: Order): real {
    DuePrice(o) * (o.size as real)
  }

  /** A buy fills exactly when the cash covers it and there is a place for the ticker; then
      the cash pays it, the shares are there, and every other ticker is as before. */
  lemma BuyFillsIff(a: Account, o: Order, currency: string, other: string)
    requires Proper(o)
    ensures var (b, outcome) := Buy(a, o, currency);
            && (outcome.Filled? <==> a.cash >= Due(o) && (Known(a.positions, o.ticker) || |a.positions| < 256))
            && (outcome.RejectedCash? <==> a.cash < Due(o))
            && (if outcome.Filled? then
                  && outcome == Filled(a.orderSeq + 1, DuePrice(o)) && b.orderSeq == a.orderSeq + 1
                  && b.cash == a.cash - Due(o) && b.starting == a.starting
                  && Held(b.positions, other) ==
                     Held(a.positions, other) + (if other == o.ticker then o.size else 0)
                else b == a)
  {
    hide Held, Bought, FillPrice, DuePrice, Slot;
    DueIs(o);
    KnownIff(a.positions, o.ticker);
    hide Known;
    if Buy(a, o, currency).1.Filled? {
      BuyShares(a, o, currency, other);
    }
  }

  lemma DueIs(o: Order)
    requires Proper(o)
    ensures FillPrice(o) == DuePrice(o)
  {}

  lemma KnownIff(ps: seq<Position>, ticker: string)
    ensures Known(ps, ticker) <==> Slot(ps, ticker) < |ps|
  {}

  lemma BoughtIs(p: Position, size: int, price: real)
    ensures var b := Bought(p, size, price);
            b.ticker == p.ticker && b.quantity == p.quantity + size && b.realized == p.realized
  {}

  lemma BuyShares(a: Account, o: Order, currency: string, other: string)
    requires Proper(o) && Buy(a, o, currency).1.Filled?
    ensures Held(Buy(a, o, currency).0.positions, other) ==
            Held(a.positions, other) + if other == o.ticker then o.size else 0
  {
    hide Held, Bought, FillPrice;
    var i := Slot(a.positions, o.ticker);
    var empty := Position(o.ticker, 0, 0.0, 0.0, currency);
    var ps := if i < |a.positions| then a.positions else a.positions + [empty];
    HeldAppend(a.positions, empty, other);
    BoughtIs(ps[i], o.size, FillPrice(o));
    HeldUpdate(ps, i, Bought(ps[i], o.size, FillPrice(o)), other);
  }

  /** A sell fills exactly when the shares are there. */
  lemma SellFillsIff(a: Account, o: Order, other: string)
    requires Proper(o) && OnePerTicker(a.positions)
    ensures var (b, outcome) := Sell(a, o);
            && (outcome.Filled? <==> Held(a.positions, o.ticker) >= o.size)
            && (if outcome.Filled? then
                  && outcome == Filled(a.orderSeq + 1, DuePrice(o)) && b.orderSeq == a.orderSeq + 1
                  && b.cash == a.cash + Due(o) && b.starting == a.starting
                  && Held(b.positions, other) ==
                     Held(a.positions, other) - (if other == o.ticker then o.size else 0)
                else b == a && outcome == RejectedPosition)
  {
    HeldInSlot(a.positions, o.ticker);
    var i := Slot(a.positions, o.ticker);
    var (b, outcome) := Sell(a, o);
    if outcome.Filled? {
      HeldUpdate(a.positions, i, Sold(a.positions[i], o.size, FillPrice(o)), other);
    }
  }

  /** Only a sell realizes a gain: the price less the average cost for each share it sells,
      and it leaves that average cost alone. */
  lemma GainIs(a: Account, o: Order, currency: string)
    requires Proper(o)
    ensures Sum(Buy(a, o, currency).0.positions, Realized) == Sum(a.positions, Realized)
    ensures Sell(a, o).1.Filled? ==>
              var i := Slot(a.positions, o.ticker);
              var ps := Sell(a, o).0.positions;
              && i < |a.positions| == |ps| && ps[i].avgCost == a.positions[i].avgCost
              && Sum(ps, Realized) ==
                 Sum(a.positions, Realized) + (DuePrice(o) - a.positions[i].avgCost) * (o.size as real)
  {
    hide Sum, FillPrice, DuePrice;
    DueIs(o);
    var i := Slot(a.positions, o.ticker);
    if Buy(a, o, currency).1.Filled? {
      BuyGains(a, o, currency);
    }
    if Sell(a, o).1.Filled? {
      SumUpdate(a.positions, i, Sold(a.positions[i], o.size, FillPrice(o)), Realized);
    }
  }

  lemma BuyGains(a: Account, o: Order, currency: string)
    requires Proper(o) && Buy(a, o, currency).1.Filled?
    ensures Sum(Buy(a, o, currency).0.positions, Realized) == Sum(a.positions, Realized)
  {
    hide Bought, FillPrice;
    var i := Slot(a.positions, o.ticker);
    var empty := Position(o.ticker, 0, 0.0, 0.0, currency);
    var ps := if i < |a.positions| then a.positions else a.positions + [empty];
    SumAppend(a.positions, [empty], Realized);
    assert Sum([empty][1..], Realized) == 0.0;
    BoughtIs(ps[i], o.size, FillPrice(o));
    SumUpdate(ps, i, Bought(ps[i], o.size, FillPrice(o)), Realized);
  }

  // -------------------------------------------------------------------- whole runs

  /** The orders of a run that fill, in order. */
  function Fills(capital: real, orders: seq<Order>, currency: string): seq<Order>
    requires forall k | 0 <= k < |orders| :: Proper(orders[k])
  {
    if orders == [] then []
    else
      var before, last := orders[..|orders| - 1], orders[|orders| - 1];
      var a := RunOrders(Opened(capital), before, currency).0;
      Fills(capital, before, currency) + if Execute(a, last, currency).1.Filled? then [last] else []
  }

  /** Shares bought less shares sold. */
  function Net(orders: seq<Order>, ticker: string): int {
    if orders == [] then 0
    else
      var last := orders[|orders| - 1];
      Net(orders[..|orders| - 1], ticker)
      + if last.ticker != ticker then 0 else if last.buy then last.size else -last.size
  }

  function Paid(orders: seq<Order>): real {
    if orders == [] then 0.0
    else
      var last := orders[|orders| - 1];
      Paid(orders[..|orders| - 1]) + if last.buy then Due(last) else -Due(last)
  }

  lemma OneMore(orders: seq<Order>, o: Order, ticker: string)
    ensures Net(orders + [o], ticker) ==
            Net(orders, ticker) + if o.ticker != ticker then 0 else if o.buy then o.size else -o.size
    ensures Paid(orders + [o]) == Paid(orders) + if o.buy then Due(o) else -Due(o)
  {
    assert (orders + [o])[..|orders|] == orders;
  }

  lemma FillStep(a: Account, fills: seq<Order>, capital: real, o: Order, currency: string, ticker: string)
    requires Proper(o) && OnePerTicker(a.positions)
    requires Held(a.positions, ticker) == Net(fills, ticker) && a.cash == capital - Paid(fills)
    requires a.orderSeq == 1000 + |fills|
    ensures var (b, outcome) := Execute(a, o, currency);
            var fills' := fills + if outcome.Filled? then [o] else [];
            && Held(b.positions, ticker) == Net(fills', ticker) && b.cash == capital - Paid(fills')
            && b.orderSeq == 1000 + |fills'|
  {
    hide Held, Net, Paid, Due, DuePrice, Known, Buy, Sell;
    OneMore(fills, o, ticker);
    assert fills + [] == fills;
    if o.buy {
      BuyFillsIff(a, o, currency, ticker);
    } else {
      SellFillsIff(a, o, ticker);
    }
  }

  /** After every run of orders from a new account, what is held of each ticker is what the
      filled orders bought less what they sold, the cash is the capital less what they paid,
      and the next order number counts them. */
  lemma {:induction false} FillsAccount(capital: real, orders: seq<Order>, currency: string, ticker: string)
    requires capital >= 0.0 && forall k | 0 <= k < |orders| :: Proper(orders[k])
    ensures var (a, n) := RunOrders(Opened(capital), orders, currency);
            var fills := Fills(capital, orders, currency);
            && Held(a.positions, ticker) == Net(fills, ticker) >= 0
            && a.cash == capital - Paid(fills) >= 0.0
            && n == |fills| && a.orderSeq == 1000 + n
    decreases |orders|
  {
    if orders != [] {
      var before, o := orders[..|orders| - 1], orders[|orders| - 1];
      FillsAccount(capital, before, currency, ticker);
      OrdersKeepSound(capital, before, currency);
      var a := RunOrders(Opened(capital), before, currency).0;
      FillStep(a, Fills(capital, before, currency), capital, o, currency, ticker);
    }
    hide Held, Net, Paid, Execute, Conserved;
    OrdersKeepSound(capital, orders, currency);
    NoneNegative(RunOrders(Opened(capital), orders, currency).0.positions, ticker);
  }

  lemma {:induction false} NoneNegative(ps: seq<Position>, ticker: string)
    requires forall i | 0 <= i < |ps| :: ps[i].quantity >= 0
    ensures Held(ps, ticker) >= 0
  {
    if ps != [] {
      NoneNegative(ps[1..], ticker);
    }
  }
}
