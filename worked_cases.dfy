/**
 * Concrete cases of the ledger and tick rules: a buy and sell at the same price, the add-on
 * trigger, the take-profit trigger and the first entry.
 */
module WorkedCases {
  import opened Wrappers
  import opened Ledger
  import opened Strategy
  import opened Registry

  /** 1,000,000 in cash; buy 6,000 at 100 leaves 993,997; selling at 100 gives 999,994 and a profit of -6. */
  lemma RoundTripAtOneHundred()
    ensures var bought := Buy(Book(1000000.0, [], []), 1, "KRW-BTC", 100.0, 6000.0);
            var sold := Sell(bought.1, 1, "KRW-BTC", 100.0);
            && bought.0 && bought.1.cash == 993997.0
            && bought.1.orders == [Order("KRW-BTC", 1, 100.0, 60.0)]
            && sold.0 == Some(-6.0) && sold.1.cash == 999994.0
            && sold.1.orders == [] && sold.1.history == [Trade("KRW-BTC", 1, -6.0)]
  {
    BuyThenSellRoundTrip(Book(1000000.0, [], []), 1, "KRW-BTC", 100.0, 6000.0);
  }

  /** The one open layer of the worked cases: step 1 bought at 100. */
  function OneLayer(): seq<Order> {
    [Order("KRW-BTC", 1, 100.0, 60.0)]
  }

  /** With a drop rate of -1%, step 2 is bought at 99 but not at 99.5. */
  lemma AddOnTrigger()
    ensures Plan(OneLayer(), "KRW-BTC", 99.0, DefaultParams) == BuyAt(2)
    ensures Plan(OneLayer(), "KRW-BTC", 99.5, DefaultParams) == Hold
  {
    var ts := TickerOrders(OneLayer(), "KRW-BTC");
    assert ts == OneLayer();
  }

  /** With a target rate of 0.5%, the layer bought at 100 is sold at 100.5 but not at 100.4. */
  lemma TakeProfitTrigger()
    ensures Plan(OneLayer(), "KRW-BTC", 100.5, DefaultParams) == SellAt(1)
    ensures Plan(OneLayer(), "KRW-BTC", 100.4, DefaultParams) == Hold
  {
    var ts := TickerOrders(OneLayer(), "KRW-BTC");
    assert ts == OneLayer();
  }

  /** A ticker without orders opens step 1, whatever `maxStep` is, even 0. */
  lemma FirstEntryIgnoresMaxStep(orders: seq<Order>, ticker: string, price: real, p: Params)
    requires forall o :: o in orders ==> o.ticker != ticker
    ensures Plan(orders, ticker, price, p) == BuyAt(1)
  {
    assert TickerOrders(orders, ticker) == [];
  }
}
