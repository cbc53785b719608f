/** The paper account of src/broker.c, over exact decimal values. */
module Ledger {

  const MAX_POSITIONS: nat := 256
  const FIRST_ORDER: int := 1000

  datatype Position = Position(ticker: string, quantity: int, avgCost: real, realized: real, currency: string)

  datatype Account = Account(cash: real, starting: real, orderSeq: int, positions: seq<Position>)

  /** An order as command_order hands it on: a truncated upper-case ticker, a positive
      size, and the price the market quotes. */
  datatype Order = Order(buy: bool, ticker: string, size: int, market: bool, limit: real, quote: real)

  datatype Outcome = Filled(id: int, price: real) | RejectedCash | RejectedPosition | RejectedFull

  predicate Proper(o: Order) {
    o.size > 0 && o.quote > 0.0
  }

  /** Market orders, and orders without a limit, fill at the quoted price. */
  function FillPrice(o: Order): (p: real)
    requires Proper(o)
    ensures p > 0.0
  {
    if o.market || o.limit <= 0.0 then o.quote else o.limit
  }

  function Slot(ps: seq<Position>, ticker: string): (i: nat)
    ensures i <= |ps|
    ensures i < |ps| ==> ps[i].ticker == ticker
    ensures forall j | 0 <= j < i :: ps[j].ticker != ticker
  {
    if ps == [] || ps[0].ticker == ticker then 0 else 1 + Slot(ps[1..], ticker)
  }

  function Bought(p: Position, size: int, price: real): Position {
    var q := p.quantity + size;
    p.(quantity := q,
       avgCost := if q > 0 then (p.avgCost * (p.quantity as real) + price * (size as real)) / (q as real) else price)
  }

  function Sold(p: Position, size: int, price: real): Position {
    p.(quantity := p.quantity - size, realized := p.realized + (price - p.avgCost) * (size as real))
  }

  /** paper_execute_buy */
  function Buy(a: Account, o: Order, currency: string): (Account, Outcome)
    requires Proper(o)
  {
    var price := FillPrice(o);
    var notional := price * (o.size as real);
    var i := Slot(a.positions, o.ticker);
    if a.cash < notional then (a, RejectedCash)
    else if i == |a.positions| && i >= MAX_POSITIONS then (a, RejectedFull)
    else
      var ps := if i < |a.positions| then a.positions else a.positions + [Position(o.ticker, 0, 0.0, 0.0, currency)];
      (Account(a.cash - notional, a.starting, a.orderSeq + 1, ps[i := Bought(ps[i], o.size, price)]),
       Filled(a.orderSeq + 1, price))
  }

  /** paper_execute_sell */
  function Sell(a: Account, o: Order): (Account, Outcome)
    requires Proper(o)
  {
    var i := Slot(a.positions, o.ticker);
    if i == |a.positions| || a.positions[i].quantity < o.size then (a, RejectedPosition)
    else
      var price := FillPrice(o);
      (Account(a.cash + price * (o.size as real), a.starting, a.orderSeq + 1,
               a.positions[i := Sold(a.positions[i], o.size, price)]),
       Filled(a.orderSeq + 1, price))
  }

  function Execute(a: Account, o: Order, currency: string): (Account, Outcome)
    requires Proper(o)
  {
    if o.buy then Buy(a, o, currency) else Sell(a, o)
  }

  /** broker_paper_reset_state with a capital. */
  function Opened(capital: real): Account {
    Account(capital, capital, FIRST_ORDER, [])
  }

  function RunOrders(a: Account, orders: seq<Order>, currency: string): (Account, nat)
    requires forall k | 0 <= k < |orders| :: Proper(orders[k])
  {
    if orders == [] then (a, 0)
    else
      var (b, fills) := RunOrders(a, orders[..|orders| - 1], currency);
      var (c, outcome) := Execute(b, orders[|orders| - 1], currency);
      (c, if outcome.Filled? then fills + 1 else fills)
  }

  // ------------------------------------------------------------------------ totals

  function Sum(ps: seq<Position>, f: Position -> real): real {
    if ps == [] then 0.0 else f(ps[0]) + Sum(ps[1..], f)
  }

  function Cost(p: Position): real {
    p.avgCost * (p.quantity as real)
  }

  function Realized(p: Position): real {
    p.realized
  }

  function MarketValue(quote: string -> real): Position -> real {
    (p: Position) => quote(p.ticker) * (p.quantity as real)
  }

  function Unrealized(quote: string -> real): Position -> real {
    (p: Position) => (quote(p.ticker) - p.avgCost) * (p.quantity as real)
  }

  /** broker_get_pnl's equity: cash and the market value of the positions. */
  function Equity(a: Account, quote: string -> real): real {
    a.cash + Sum(a.positions, MarketValue(quote))
  }

  /** Cash and cost on one side, starting cash and realized gains on the other. */
  predicate Conserved(a: Account) {
    a.cash + Sum(a.positions, Cost) - Sum(a.positions, Realized) == a.starting
  }

  predicate Solvent(a: Account) {
    a.cash >= 0.0 && forall i | 0 <= i < |a.positions| :: a.positions[i].quantity >= 0
  }

  predicate OnePerTicker(ps: seq<Position>) {
    forall i, j | 0 <= i < j < |ps| :: ps[i].ticker != ps[j].ticker
  }

  predicate Sound(a: Account) {
    Conserved(a) && Solvent(a) && OnePerTicker(a.positions) && |a.positions| <= MAX_POSITIONS
  }

  lemma {:induction false} SumUpdate(ps: seq<Position>, i: nat, p: Position, f: Position -> real)
    requires i < |ps|
    ensures Sum(ps[i := p], f) == Sum(ps, f) - f(ps[i]) + f(p)
  {
    if i > 0 {
      SumUpdate(ps[1..], i - 1, p, f);
      assert ps[i := p][1..] == ps[1..][i - 1 := p];
    } else {
      assert ps[0 := p][1..] == ps[1..];
    }
  }

  lemma {:induction false} SumAppend(a: seq<Position>, b: seq<Position>, f: Position -> real)
    ensures Sum(a + b, f) == Sum(a, f) + Sum(b, f)
  {
    if a == [] {
      assert a + b == b;
    } else {
      assert (a + b)[1..] == a[1..] + b;
      SumAppend(a[1..], b, f);
    }
  }

  lemma BoughtCost(p: Position, size: int, price: real)
    requires p.quantity >= 0 && size > 0
    ensures Cost(Bought(p, size, price)) == Cost(p) + price * (size as real)
  {
    var q := (p.quantity + size) as real;
    var total := p.avgCost * (p.quantity as real) + price * (size as real);
    assert total / q * q == total;
  }

  lemma SoldCost(p: Position, size: int, price: real)
    ensures var r := Sold(p, size, price);
            price * (size as real) + Cost(r) - Realized(r) == Cost(p) - Realized(p)
  {
    var s := size as real;
    assert (p.quantity - size) as real == p.quantity as real - s;
    assert p.avgCost * (p.quantity as real - s) == Cost(p) - p.avgCost * s;
    assert (price - p.avgCost) * s == price * s - p.avgCost * s;
  }

  lemma BuyKeepsSound(a: Account, o: Order, currency: string)
    requires Proper(o) && Sound(a)
    ensures Sound(Buy(a, o, currency).0)
  {
    var (b, outcome) := Buy(a, o, currency);
    if outcome.Filled? {
      var i, price := Slot(a.positions, o.ticker), FillPrice(o);
      var fresh' := [Position(o.ticker, 0, 0.0, 0.0, currency)];
      var ps := if i < |a.positions| then a.positions else a.positions + fresh';
      if i == |a.positions| {
        SumAppend(a.positions, fresh', Cost);
        SumAppend(a.positions, fresh', Realized);
        assert Sum(fresh'[1..], Cost) == 0.0 && Sum(fresh'[1..], Realized) == 0.0;
        assert Cost(fresh'[0]) == 0.0;
      }
      BoughtCost(ps[i], o.size, price);
      SumUpdate(ps, i, Bought(ps[i], o.size, price), Cost);
      SumUpdate(ps, i, Bought(ps[i], o.size, price), Realized);
    }
  }

  lemma SellKeepsSound(a: Account, o: Order)
    requires Proper(o) && Sound(a)
    ensures Sound(Sell(a, o).0)
  {
    var (b, outcome) := Sell(a, o);
    if outcome.Filled? {
      var i, price := Slot(a.positions, o.ticker), FillPrice(o);
      var p := Sold(a.positions[i], o.size, price);
      SoldCost(a.positions[i], o.size, price);
      SumUpdate(a.positions, i, p, Cost);
      SumUpdate(a.positions, i, p, Realized);
      assert price * (o.size as real) > 0.0;
    }
  }

  /** Every run of orders from a new account keeps cash plus cost equal to the starting
      cash plus realized gains, nothing negative, one position per ticker, and counts
      an order number for each fill and for nothing else. */
  lemma {:induction false} OrdersKeepSound(capital: real, orders: seq<Order>, currency: string)
    requires capital >= 0.0 && forall k | 0 <= k < |orders| :: Proper(orders[k])
    ensures var (a, fills) := RunOrders(Opened(capital), orders, currency);
            Sound(a) && a.starting == capital && a.orderSeq == FIRST_ORDER + fills
    decreases |orders|
  {
    if orders != [] {
      var before := orders[..|orders| - 1];
      OrdersKeepSound(capital, before, currency);
      var a := RunOrders(Opened(capital), before, currency).0;
      var o := orders[|orders| - 1];
      hide Sound, FillPrice;
      if o.buy {
        BuyKeepsSound(a, o, currency);
      } else {
        SellKeepsSound(a, o);
      }
    }
  }

  lemma {:induction false} ValueIsCostPlusGain(ps: seq<Position>, quote: string -> real)
    ensures Sum(ps, MarketValue(quote)) == Sum(ps, Cost) + Sum(ps, Unrealized(quote))
  {
    if ps != [] {
      ValueIsCostPlusGain(ps[1..], quote);
      var p := ps[0];
      GainOnOne(quote(p.ticker), p.avgCost, p.quantity as real);
    }
  }

  lemma GainOnOne(price: real, cost: real, q: real)
    ensures price * q == cost * q + (price - cost) * q
  {}

  /** Total profit at any prices is realized plus unrealized profit. */
  lemma ProfitSplits(a: Account, quote: string -> real)
    requires Conserved(a)
    ensures Equity(a, quote) - a.starting == Sum(a.positions, Realized) + Sum(a.positions, Unrealized(quote))
  {
    ValueIsCostPlusGain(a.positions, quote);
  }

  // ------------------------------------------------------------- saving and loading

  /** Four decimals. */
  predicate Fixed(x: real) {
    (x * 10000.0).Floor as real == x * 10000.0
  }

  /** "%.4f": whatever it does between two four-decimal values. */
  ghost predicate RoundsToFour(r: real -> real) {
    forall x | Fixed(x) :: r(x) == x
  }

  function Live(ps: seq<Position>): seq<Position> {
    if ps == [] then [] else if ps[0].quantity != 0 then [ps[0]] + Live(ps[1..]) else Live(ps[1..])
  }

  function RoundPosition(r: real -> real, p: Position): Position {
    p.(avgCost := r(p.avgCost), realized := r(p.realized))
  }

  function RoundAll(r: real -> real, ps: seq<Position>): seq<Position> {
    if ps == [] then [] else [RoundPosition(r, ps[0])] + RoundAll(r, ps[1..])
  }

  /** paper_save and then paper_load in a new process: flat positions are not written. */
  function Reloaded(r: real -> real, a: Account): Account {
    Account(r(a.cash), r(a.starting), a.orderSeq, RoundAll(r, Live(a.positions)))
  }

  predicate AllFixed(a: Account) {
    && Fixed(a.cash) && Fixed(a.starting)
    && forall i | 0 <= i < |a.positions| :: Fixed(a.positions[i].avgCost) && Fixed(a.positions[i].realized)
  }

  /** The realized gains of the positions that a save forgets. */
  function Forgotten(ps: seq<Position>): real {
    if ps == [] then 0.0 else (if ps[0].quantity == 0 then ps[0].realized else 0.0) + Forgotten(ps[1..])
  }

  lemma {:induction false} LiveKeeps(r: real -> real, ps: seq<Position>)
    requires RoundsToFour(r) && forall i | 0 <= i < |ps| :: Fixed(ps[i].avgCost) && Fixed(ps[i].realized)
    ensures RoundAll(r, Live(ps)) == Live(ps)
  {
    if ps != [] {
      LiveKeeps(r, ps[1..]);
      if ps[0].quantity != 0 {
        assert Fixed(ps[0].avgCost) && Fixed(ps[0].realized);
        assert ([ps[0]] + Live(ps[1..]))[1..] == Live(ps[1..]);
      }
    }
  }

  lemma {:induction false} LiveSums(ps: seq<Position>, quote: string -> real)
    ensures Sum(Live(ps), MarketValue(quote)) == Sum(ps, MarketValue(quote))
    ensures Sum(Live(ps), Cost) == Sum(ps, Cost)
    ensures Sum(Live(ps), Realized) == Sum(ps, Realized) - Forgotten(ps)
  {
    if ps != [] {
      LiveSums(ps[1..], quote);
      if ps[0].quantity != 0 {
        assert ([ps[0]] + Live(ps[1..]))[1..] == Live(ps[1..]);
      } else {
        assert MarketValue(quote)(ps[0]) == 0.0 && Cost(ps[0]) == 0.0;
      }
    }
  }

  lemma {:induction false} LiveTickers(ps: seq<Position>, k: nat) returns (i: nat)
    requires k < |Live(ps)|
    ensures k <= i < |ps| && Live(ps)[k] == ps[i]
    ensures |Live(ps)| <= |ps|
  {
    if ps[0].quantity != 0 && k == 0 {
      i := 0;
      LiveLength(ps);
    } else {
      var rest := Live(ps[1..]);
      i := LiveTickers(ps[1..], if ps[0].quantity != 0 then k - 1 else k);
      i := i + 1;
    }
  }

  lemma {:induction false} LiveLength(ps: seq<Position>)
    ensures |Live(ps)| <= |ps|
  {
    if ps != [] {
      LiveLength(ps[1..]);
    }
  }

  lemma {:induction false} LiveIsOnePerTicker(ps: seq<Position>)
    requires OnePerTicker(ps)
    ensures OnePerTicker(Live(ps))
  {
    if ps != [] {
      LiveIsOnePerTicker(ps[1..]);
      var rest := Live(ps[1..]);
      forall k | 0 <= k < |rest|
        ensures rest[k].ticker != ps[0].ticker
      {
        var i := LiveTickers(ps[1..], k);
        assert ps[i + 1] == ps[1..][i];
      }
    }
  }

  /** A save and a load keep the equity at every price. */
  lemma ReloadKeepsEquity(r: real -> real, a: Account, quote: string -> real)
    requires RoundsToFour(r) && AllFixed(a)
    ensures Equity(Reloaded(r, a), quote) == Equity(a, quote)
  {
    LiveKeeps(r, a.positions);
    LiveSums(a.positions, quote);
  }

  /** They keep the books balanced exactly when the forgotten gains add up to nothing. */
  lemma ReloadConservesIff(r: real -> real, a: Account)
    requires RoundsToFour(r) && AllFixed(a) && Sound(a)
    ensures Sound(Reloaded(r, a)) <==> Forgotten(a.positions) == 0.0
  {
    LiveKeeps(r, a.positions);
    LiveSums(a.positions, (t: string) => 0.0);
    var b := Reloaded(r, a);
    assert b == Account(a.cash, a.starting, a.orderSeq, Live(a.positions));
    LiveIsOnePerTicker(a.positions);
    LiveLength(a.positions);
    LiveIsSolvent(a.positions);
    hide Live, OnePerTicker, RoundsToFour, AllFixed, Forgotten, Sum, Reloaded;
  }

  lemma LiveIsSolvent(ps: seq<Position>)
    requires forall i | 0 <= i < |ps| :: ps[i].quantity >= 0
    ensures forall k | 0 <= k < |Live(ps)| :: Live(ps)[k].quantity >= 0
  {
    forall k | 0 <= k < |Live(ps)|
      ensures Live(ps)[k].quantity >= 0
    {
      var i := LiveTickers(ps, k);
    }
  }

  // --------------------------------------------------------- runs with restarts

  datatype Event = Place(order: Order) | Restart

  /** A run of orders and restarts over exact values, with the gains forgotten so far. */
  function RunEvents(a: Account, events: seq<Event>, currency: string): (Account, real)
    requires forall k | 0 <= k < |events| && events[k].Place? :: Proper(events[k].order)
  {
    if events == [] then (a, 0.0)
    else
      var (b, lost) := RunEvents(a, events[..|events| - 1], currency);
      match events[|events| - 1]
      case Place(o) => (Execute(b, o, currency).0, lost)
      case Restart => (b.(positions := Live(b.positions)), lost + Forgotten(b.positions))
  }

  /** The books as they would be with the forgotten gains added to the capital. */
  function Adjusted(a: Account, lost: real): Account {
    a.(starting := a.starting + lost)
  }

  lemma ExecuteAdjusted(a: Account, o: Order, currency: string, lost: real)
    requires Proper(o)
    ensures Execute(Adjusted(a, lost), o, currency).0 == Adjusted(Execute(a, o, currency).0, lost)
  {}

  /** Over every run of orders and restarts the account stays sound, but for exactly the
      gains the restarts have forgotten. */
  lemma {:induction false} EventsKeepSound(capital: real, events: seq<Event>, currency: string)
    requires capital >= 0.0
    requires forall k | 0 <= k < |events| && events[k].Place? :: Proper(events[k].order)
    ensures var (a, lost) := RunEvents(Opened(capital), events, currency);
            a.starting == capital && Sound(Adjusted(a, lost))
    decreases |events|
  {
    if events != [] {
      var before := events[..|events| - 1];
      EventsKeepSound(capital, before, currency);
      var (a, lost) := RunEvents(Opened(capital), before, currency);
      match events[|events| - 1]
      case Place(o) =>
        ExecuteAdjusted(a, o, currency, lost);
        hide Sound, FillPrice;
        if o.buy {
          BuyKeepsSound(Adjusted(a, lost), o, currency);
        } else {
          SellKeepsSound(Adjusted(a, lost), o);
        }
      case Restart =>
        RestartKeepsSound(Adjusted(a, lost));
        hide Sound;
    }
  }

  lemma RestartKeepsSound(a: Account)
    requires Sound(a)
    ensures Sound(Account(a.cash, a.starting + Forgotten(a.positions), a.orderSeq, Live(a.positions)))
  {
    LiveSums(a.positions, (t: string) => 0.0);
    LiveIsOnePerTicker(a.positions);
    LiveLength(a.positions);
    LiveIsSolvent(a.positions);
    hide Live, OnePerTicker, Forgotten, Sum;
  }

  /** Buying one share at 100 and selling it at 110, then restarting: the gain of 10 is in
      the cash but no longer in the books. */
  lemma ReloadForgetsGain(r: real -> real, currency: string)
    requires RoundsToFour(r)
    ensures var o := Order(true, "A", 1, false, 100.0, 1.0);
            var a := RunOrders(Opened(1000.0), [o, o.(buy := false, limit := 110.0)], currency).0;
            a.cash == 1010.0 && Sound(a) && !Conserved(Reloaded(r, a))
  {
    var o := Order(true, "A", 1, false, 100.0, 1.0);
    var s := o.(buy := false, limit := 110.0);
    var orders := [o, s];
    assert orders[..1] == [o] && [o][..0] == [];
    assert RunOrders(Opened(1000.0), [o], currency).0 == Buy(Opened(1000.0), o, currency).0;
    var p := Position("A", 1, 100.0, 0.0, currency);
    assert Buy(Opened(1000.0), o, currency).0 == Account(900.0, 1000.0, 1001, [p]);
    var a := Account(1010.0, 1000.0, 1002, [p.(quantity := 0, realized := 10.0)]);
    assert Sell(Account(900.0, 1000.0, 1001, [p]), s).0 == a;
    OrdersKeepSound(1000.0, orders, currency);
    assert a.positions[1..] == [] && Forgotten(a.positions) == 10.0;
    assert AllFixed(a);
    LiveKeeps(r, a.positions);
    LiveSums(a.positions, (t: string) => 0.0);
  }
}
