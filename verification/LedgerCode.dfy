/** The paper account as src/broker.c keeps it: one global record with an array of
    positions, changed in place. */
module LedgerCode {
  import opened Ledger

  class Paper {
    var cash: real
    var startingCash: real
    var orderSeq: int
    const positions: array<Position>
    var posCount: nat

    ghost predicate Valid()
      reads this
    {
      positions.Length == MAX_POSITIONS && posCount <= MAX_POSITIONS
    }

    ghost function Snapshot(): Account
      reads this, positions
      requires Valid()
    {
      Account(cash, startingCash, orderSeq, positions[..posCount])
    }

    /** A new account, as command_reset_paper leaves it. */
    constructor (capital: real)
      ensures Valid() && fresh(positions) && Snapshot() == Opened(capital)
    {
      positions := new Position[MAX_POSITIONS](_ => Position("", 0, 0.0, 0.0, ""));
      cash, startingCash, orderSeq, posCount := capital, capital, FIRST_ORDER, 0;
    }

    /** The search both orders start with: the first slot with this ticker, or posCount. */
    method FindSlot(ticker: string) returns (i: nat)
      requires Valid()
      ensures i == Slot(Snapshot().positions, ticker)
    {
      ghost var ps := positions[..posCount];
      i := 0;
      while i < posCount && positions[i].ticker != ticker
        invariant i <= posCount
        invariant Slot(ps, ticker) == i + Slot(ps[i..], ticker)
      {
        assert ps[i..][0] == positions[i] && ps[i..][1..] == ps[i + 1..];
        i := i + 1;
      }
      assert i < posCount ==> ps[i..][0] == positions[i];
    }

    /** paper_find_or_create; None when the ledger is full. */
    method FindOrCreate(ticker: string, currency: string) returns (found: bool, i: nat)
      requires Valid()
      modifies this`posCount, positions
      ensures Valid()
      ensures i == Slot(old(Snapshot()).positions, ticker)
      ensures found <==> i < old(posCount) || old(posCount) < MAX_POSITIONS
      ensures Snapshot().positions == if i < old(posCount) || !found then old(Snapshot()).positions
                                      else old(Snapshot()).positions + [Position(ticker, 0, 0.0, 0.0, currency)]
    {
      i := FindSlot(ticker);
      if i < posCount {
        return true, i;
      }
      if posCount >= MAX_POSITIONS {
        return false, i;
      }
      positions[posCount] := Position(ticker, 0, 0.0, 0.0, currency);
      posCount := posCount + 1;
      assert positions[..posCount - 1] == old(positions[..posCount]);
      found := true;
    }

    /** paper_execute_buy */
    method ExecuteBuy(o: Order, currency: string) returns (r: Outcome)
      requires Valid() && Proper(o)
      modifies this, positions
      ensures Valid() && Snapshot() == Buy(old(Snapshot()), o, currency).0
      ensures r == Buy(old(Snapshot()), o, currency).1
    {
      hide Slot, FillPrice, Bought;
      var fill := FillPrice(o);
      var notional := fill * (o.size as real);
      if cash < notional {
        return RejectedCash;
      }
      var found, i := FindOrCreate(o.ticker, currency);
      if !found {
        return RejectedFull;
      }
      FillBuy(i, o.size, fill);
      r := Filled(orderSeq, fill);
    }

    /** The part of paper_execute_buy after all checks. */
    method FillBuy(i: nat, size: int, fill: real)
      requires Valid() && i < posCount
      modifies this, positions
      ensures Valid() && posCount == old(posCount)
      ensures var a := old(Snapshot());
              Snapshot() == Account(a.cash - fill * (size as real), a.starting, a.orderSeq + 1,
                                    a.positions[i := Bought(a.positions[i], size, fill)])
    {
      ghost var ps := positions[..posCount];
      var notional := fill * (size as real);
      cash := cash - notional;
      var p := positions[i];
      var oldCost := p.avgCost * (p.quantity as real);
      var quantity := p.quantity + size;
      positions[i] := p.(quantity := quantity,
                         avgCost := if quantity > 0 then (oldCost + notional) / (quantity as real) else fill);
      assert ps[i] == p && positions[i] == Bought(p, size, fill);
      assert positions[..posCount] == ps[i := Bought(p, size, fill)];
      orderSeq := orderSeq + 1;
    }

    /** paper_execute_sell */
    method ExecuteSell(o: Order) returns (r: Outcome)
      requires Valid() && Proper(o)
      modifies this, positions
      ensures Valid() && Snapshot() == Sell(old(Snapshot()), o).0
      ensures r == Sell(old(Snapshot()), o).1
    {
      hide Slot;
      var i := FindSlot(o.ticker);
      if i == posCount || positions[i].quantity < o.size {
        return RejectedPosition;
      }
      var fill := FillPrice(o);
      var p := positions[i];
      positions[i] := p.(realized := p.realized + (fill - p.avgCost) * (o.size as real),
                         quantity := p.quantity - o.size);
      ghost var ps := old(positions[..posCount]);
      assert ps[i] == p && positions[i] == Sold(p, o.size, fill);
      assert positions[..posCount] == ps[i := Sold(p, o.size, fill)];
      cash := cash + fill * (o.size as real);
      orderSeq := orderSeq + 1;
      r := Filled(orderSeq, fill);
    }

    /** broker_get_pnl */
    method Profit(quote: string -> real) returns (pnl: real)
      requires Valid()
      ensures pnl == Equity(Snapshot(), quote) - startingCash
    {
      ghost var ps := positions[..posCount];
      var equity, i := cash, 0;
      while i < posCount
        invariant i <= posCount
        invariant equity + Sum(ps[i..], MarketValue(quote)) == Equity(Snapshot(), quote)
      {
        assert ps[i..][0] == positions[i] && ps[i..][1..] == ps[i + 1..];
        if positions[i].quantity != 0 {
          equity := equity + quote(positions[i].ticker) * (positions[i].quantity as real);
        }
        i := i + 1;
      }
      pnl := equity - startingCash;
    }

    /** One position line of the file. */
    method LoadPosition(p: Position)
      requires Valid() && posCount < MAX_POSITIONS
      modifies this`posCount, positions
      ensures Valid() && posCount == old(posCount) + 1
      ensures Snapshot() == old(Snapshot()).(positions := old(Snapshot()).positions + [p])
    {
      positions[posCount] := p;
      posCount := posCount + 1;
      assert positions[..posCount - 1] == old(positions[..posCount]);
    }

    /** What paper_save writes, read back by paper_load into a new record. */
    method SaveAndLoad(r: real -> real) returns (loaded: Paper)
      requires Valid()
      ensures loaded.Valid() && fresh(loaded) && fresh(loaded.positions)
      ensures loaded.Snapshot() == Reloaded(r, Snapshot())
    {
      hide Live, RoundAll, RoundPosition;
      ghost var ps := positions[..posCount];
      loaded := new Paper(r(cash));
      loaded.startingCash, loaded.orderSeq := r(startingCash), orderSeq;
      var i := 0;
      while i < posCount
        invariant i <= posCount && loaded.Valid() && loaded.posCount <= i
        invariant fresh(loaded) && fresh(loaded.positions)
        invariant Reloaded(r, Snapshot()) ==
                  loaded.Snapshot().(positions := loaded.Snapshot().positions + RoundAll(r, Live(ps[i..])))
      {
        LiveStep(r, ps, i, loaded.Snapshot().positions);
        if positions[i].quantity != 0 {
          loaded.LoadPosition(RoundPosition(r, positions[i]));
        }
        i := i + 1;
      }
      LiveStep(r, ps, i, loaded.Snapshot().positions);
    }

    /** The paper branch of command_close_all: a market order for every whole position,
        each under the risk rules and the count of the day's fills. */
    method CloseAll(rules: Rules, today: nat, quote: string -> real) returns (closed: nat)
      requires Valid() && OnePerTicker(Snapshot().positions) && Solvent(Snapshot())
      requires forall t :: quote(t) > 0.0
      modifies this, positions
      ensures Valid() && Flattened(old(Snapshot()), Snapshot(), posCount, closed, rules, today, quote)
    {
      hide Flattened, Allowed;
      var i := 0;
      closed := 0;
      FlattenNone(Snapshot(), rules, today, quote);
      while i < posCount
        invariant i <= posCount == old(posCount) && Valid()
        invariant Flattened(old(Snapshot()), Snapshot(), i, closed, rules, today, quote)
      {
        FlattenOne(old(Snapshot()), Snapshot(), i, closed, rules, today, quote);
        var p := positions[i];
        if p.quantity != 0 && Allowed(rules, SaleOf(p, quote), today + closed) {
          var r := ExecuteSell(SaleOf(p, quote));
          closed := closed + 1;
        }
        i := i + 1;
        FlattenedCount(old(Snapshot()), Snapshot(), i, closed, rules, today, quote);
      }
    }
  }

  lemma FlattenedCount(a: Account, b: Account, i: nat, closed: nat, rules: Rules, today: nat, quote: string -> real)
    requires Flattened(a, b, i, closed, rules, today, quote)
    ensures i <= |b.positions| == |a.positions|
  {}

  lemma LiveStep(r: real -> real, ps: seq<Position>, i: nat, done: seq<Position>)
    requires i <= |ps|
    ensures i == |ps| ==> done + RoundAll(r, Live(ps[i..])) == done
    ensures i < |ps| ==>
              done + RoundAll(r, Live(ps[i..])) ==
              (if ps[i].quantity != 0 then done + [RoundPosition(r, ps[i])] else done) + RoundAll(r, Live(ps[i + 1..]))
    ensures i == 0 ==> ps[i..] == ps && [] + RoundAll(r, Live(ps)) == RoundAll(r, Live(ps))
  {
    if i < |ps| {
      assert ps[i..][0] == ps[i] && ps[i..][1..] == ps[i + 1..];
      RoundFirst(r, ps[i], Live(ps[i + 1..]));
    } else {
      assert ps[i..] == [];
    }
  }

  /** The order that sells a whole position at market. */
  function SaleOf(p: Position, quote: string -> real): Order {
    Order(false, p.ticker, p.quantity, true, 0.0, quote(p.ticker))
  }

  /** The limits of the risk configuration that an order is checked against. */
  datatype Rules = Rules(maxSize: real, hasList: bool, listed: seq<string>, maxOrders: int)

  /** The checks on the order alone. */
  predicate Permits(rules: Rules, o: Order) {
    && !(rules.maxSize > 0.0 && o.size as real > rules.maxSize)
    && !(rules.hasList && |rules.listed| > 0 && o.ticker !in rules.listed)
  }

  /** The pre-trade checks of command_order, with the fills the day has seen so far. */
  predicate Allowed(rules: Rules, o: Order, today: nat) {
    Permits(rules, o) && !(rules.maxOrders > 0 && today >= rules.maxOrders)
  }

  /** How many positions the loop sells. */
  function SoldCount(ps: seq<Position>, rules: Rules, today: nat, quote: string -> real): nat {
    if ps == [] then 0
    else
      var before := SoldCount(ps[..|ps| - 1], rules, today, quote);
      before + if Sells(ps[|ps| - 1], rules, today + before, quote) then 1 else 0
  }

  predicate Sells(p: Position, rules: Rules, today: nat, quote: string -> real) {
    p.quantity != 0 && Allowed(rules, SaleOf(p, quote), today)
  }

  /** What is left of position j. */
  function LeftOver(ps: seq<Position>, j: nat, rules: Rules, today: nat, quote: string -> real): int
    requires j < |ps|
  {
    if Sells(ps[j], rules, today + SoldCount(ps[..j], rules, today, quote), quote) then 0 else ps[j].quantity
  }

  /** The first i positions of a have been treated, which gives b: one order for each one
      the rules let be sold, the others as they were, the books still balanced and the
      equity at the quoted prices the same. */
  ghost predicate Flattened(a: Account, b: Account, i: nat, closed: nat, rules: Rules, today: nat,
                            quote: string -> real) {
    && |b.positions| == |a.positions| && i <= |a.positions|
    && (forall j | 0 <= j < i ::
          && b.positions[j].ticker == a.positions[j].ticker
          && b.positions[j].quantity == LeftOver(a.positions, j, rules, today, quote))
    && b.positions[i..] == a.positions[i..]
    && closed == SoldCount(a.positions[..i], rules, today, quote) && b.orderSeq == a.orderSeq + closed
    && Solvent(b) && OnePerTicker(b.positions)
    && (Conserved(a) ==> Conserved(b))
    && Equity(b, quote) == Equity(a, quote)
  }

  lemma FlattenNone(a: Account, rules: Rules, today: nat, quote: string -> real)
    requires OnePerTicker(a.positions) && Solvent(a)
    ensures Flattened(a, a, 0, 0, rules, today, quote)
  {
    assert a.positions[..0] == [];
  }

  lemma SoldStep(ps: seq<Position>, i: nat, rules: Rules, today: nat, quote: string -> real)
    requires i < |ps|
    ensures var before := SoldCount(ps[..i], rules, today, quote);
            var sells := Sells(ps[i], rules, today + before, quote);
            && SoldCount(ps[..i + 1], rules, today, quote) == before + (if sells then 1 else 0)
            && LeftOver(ps, i, rules, today, quote) == (if sells then 0 else ps[i].quantity)
            && (sells ==> ps[i].quantity != 0)
  {
    hide Allowed;
    assert ps[..i + 1][..i] == ps[..i];
  }

  lemma SameRest(a: seq<Position>, b: seq<Position>, i: nat)
    requires |a| == |b| && i < |a| && a[i..] == b[i..]
    ensures a[i] == b[i] && a[i + 1..] == b[i + 1..]
  {
    assert b[i] == b[i..][0] == a[i..][0];
    assert b[i + 1..] == b[i..][1..] == a[i + 1..];
  }

  lemma NotNegative(a: Account, i: nat)
    requires Solvent(a) && i < |a.positions|
    ensures a.positions[i].quantity >= 0
  {}

  lemma FlattenOne(a: Account, b: Account, i: nat, closed: nat, rules: Rules, today: nat, quote: string -> real)
    requires Flattened(a, b, i, closed, rules, today, quote) && i < |b.positions| && forall t :: quote(t) > 0.0
    ensures b.positions[i].quantity >= 0
    ensures !Sells(b.positions[i], rules, today + closed, quote) ==>
              Flattened(a, b, i + 1, closed, rules, today, quote)
    ensures Sells(b.positions[i], rules, today + closed, quote) ==>
              Flattened(a, Sell(b, SaleOf(b.positions[i], quote)).0, i + 1, closed + 1, rules, today, quote)
  {
    hide Conserved, Equity, Slot, Sell, OnePerTicker, SoldCount, LeftOver, Sells, Solvent;
    SoldStep(a.positions, i, rules, today, quote);
    SameRest(a.positions, b.positions, i);
    NotNegative(b, i);
    if Sells(b.positions[i], rules, today + closed, quote) {
      var o := SaleOf(b.positions[i], quote);
      SlotIs(b.positions, i);
      SaleKeeps(b, o, i, quote);
      var p, c := Sold(b.positions[i], o.size, o.quote), Sell(b, o).0;
      SoldOneKeeps(b, c, i, p);
    }
  }

  function OpenCount(ps: seq<Position>): nat {
    if ps == [] then 0 else OpenCount(ps[..|ps| - 1]) + (if ps[|ps| - 1].quantity != 0 then 1 else 0)
  }

  /** The position is no larger than the configured size, if there is one, and its ticker is
      on the list of symbols, if there is one with entries. */
  predicate WithinRules(rules: Rules, p: Position) {
    && (rules.maxSize > 0.0 ==> p.quantity as real <= rules.maxSize)
    && (rules.hasList && rules.listed != [] ==> p.ticker in rules.listed)
  }

  lemma PermitsIff(rules: Rules, p: Position, quote: string -> real)
    ensures Permits(rules, SaleOf(p, quote)) <==> WithinRules(rules, p)
  {}

  /** Each position on its own passes the rules, and the day has room for all of them. */
  ghost predicate NothingInTheWay(ps: seq<Position>, rules: Rules, today: nat, quote: string -> real) {
    && (forall j | 0 <= j < |ps| :: ps[j].quantity != 0 ==> WithinRules(rules, ps[j]))
    && (OpenCount(ps) == 0 || rules.maxOrders <= 0 || today + OpenCount(ps) <= rules.maxOrders)
  }

  ghost predicate AllFlat(ps: seq<Position>, rules: Rules, today: nat, quote: string -> real) {
    forall j | 0 <= j < |ps| :: LeftOver(ps, j, rules, today, quote) == 0
  }

  /** Nothing is left open exactly when nothing stands in the way. */
  lemma {:induction false} FlatIff(ps: seq<Position>, rules: Rules, today: nat, quote: string -> real)
    ensures AllFlat(ps, rules, today, quote) <==> NothingInTheWay(ps, rules, today, quote)
    ensures SoldCount(ps, rules, today, quote) <= OpenCount(ps)
    ensures NothingInTheWay(ps, rules, today, quote) ==> SoldCount(ps, rules, today, quote) == OpenCount(ps)
    decreases |ps|
  {
    hide Permits, WithinRules, LeftOver, AllFlat;
    if ps == [] {
      NoneFlat(rules, today, quote);
    } else {
      var init, p := ps[..|ps| - 1], ps[|ps| - 1];
      FlatIff(init, rules, today, quote);
      FlatLast(ps, rules, today, quote);
      PermitsIff(rules, p, quote);
      assert forall j | 0 <= j < |init| :: init[j] == ps[j];
    }
  }

  /** The loop leaves nothing open exactly when nothing stood in its way. */
  lemma CloseAllFlattensIff(a: Account, b: Account, closed: nat, rules: Rules, today: nat, quote: string -> real)
    requires Flattened(a, b, |b.positions|, closed, rules, today, quote)
    ensures (forall p | p in b.positions :: p.quantity == 0) <==> NothingInTheWay(a.positions, rules, today, quote)
  {
    hide LeftOver, NothingInTheWay, Conserved, Equity;
    FlatIff(a.positions, rules, today, quote);
    assert forall j | 0 <= j < |b.positions| :: b.positions[j] in b.positions;
  }

  lemma NoneFlat(rules: Rules, today: nat, quote: string -> real)
    ensures AllFlat([], rules, today, quote)
  {}

  lemma FlatLast(ps: seq<Position>, rules: Rules, today: nat, quote: string -> real)
    requires ps != []
    ensures var init, p := ps[..|ps| - 1], ps[|ps| - 1];
            AllFlat(ps, rules, today, quote) <==>
            AllFlat(init, rules, today, quote) &&
            (p.quantity == 0 || Allowed(rules, SaleOf(p, quote), today + SoldCount(init, rules, today, quote)))
  {
    hide Allowed, SoldCount;
    var init := ps[..|ps| - 1];
    forall j | 0 <= j < |init|
      ensures LeftOver(ps, j, rules, today, quote) == LeftOver(init, j, rules, today, quote)
    {
      assert ps[..j] == init[..j];
    }
    LastFlat(ps, rules, today, quote);
    hide LeftOver;
    if AllFlat(ps, rules, today, quote) {
      assert LeftOver(ps, |init|, rules, today, quote) == 0;
      assert forall j | 0 <= j < |init| :: LeftOver(ps, j, rules, today, quote) == 0;
    } else {
      var j :| 0 <= j < |ps| && LeftOver(ps, j, rules, today, quote) != 0;
      assert j < |init| ==> LeftOver(init, j, rules, today, quote) != 0;
    }
  }

  lemma LastFlat(ps: seq<Position>, rules: Rules, today: nat, quote: string -> real)
    requires ps != []
    ensures var init, p := ps[..|ps| - 1], ps[|ps| - 1];
            LeftOver(ps, |init|, rules, today, quote) == 0 <==>
            p.quantity == 0 || Allowed(rules, SaleOf(p, quote), today + SoldCount(init, rules, today, quote))
  {}

  lemma SoldOneKeeps(b: Account, c: Account, i: nat, p: Position)
    requires i < |b.positions| && c.positions == b.positions[i := p] && c.cash >= b.cash
    requires p.ticker == b.positions[i].ticker && p.quantity >= 0
    ensures Solvent(b) ==> Solvent(c)
    ensures OnePerTicker(b.positions) ==> OnePerTicker(c.positions)
    ensures c.positions[i + 1..] == b.positions[i + 1..]
  {}

  lemma RoundFirst(r: real -> real, p: Position, ps: seq<Position>)
    ensures RoundAll(r, [p] + ps) == [RoundPosition(r, p)] + RoundAll(r, ps)
  {
    assert ([p] + ps)[1..] == ps;
  }

  lemma SlotIs(ps: seq<Position>, i: nat)
    requires OnePerTicker(ps) && i < |ps|
    ensures Slot(ps, ps[i].ticker) == i
  {}

  /** Selling a whole position at its quoted price moves value from stock to cash. */
  lemma SaleKeeps(a: Account, o: Order, i: nat, quote: string -> real)
    requires Proper(o) && o.market && i < |a.positions| && Slot(a.positions, o.ticker) == i
    requires o.size == a.positions[i].quantity && o.quote == quote(o.ticker)
    ensures var b := Sell(a, o).0;
            && Sell(a, o).1.Filled?
            && b.positions == a.positions[i := Sold(a.positions[i], o.size, o.quote)]
            && b.orderSeq == a.orderSeq + 1
            && (Conserved(a) ==> Conserved(b))
            && Equity(b, quote) == Equity(a, quote)
            && b.cash >= a.cash
  {
    var p := Sold(a.positions[i], o.size, o.quote);
    SoldCost(a.positions[i], o.size, o.quote);
    SumUpdate(a.positions, i, p, Cost);
    SumUpdate(a.positions, i, p, Realized);
    SumUpdate(a.positions, i, p, MarketValue(quote));
    assert o.quote * (o.size as real) > 0.0;
  }
}
