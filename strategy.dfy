/**
 * The per-ticker strategy: on each tick it takes profit on the highest layer whose target is
 * reached, or else opens the first layer, or adds one layer when the price has dropped far
 * enough below the latest one; at most one action every `Throttle` time units.
 */
module Strategy {
  import opened Wrappers
  import opened Seqs
  import opened Ledger

  /** Minimum time between two actions of one ticker. */
  const Throttle: real := 3.0

  /** The notional of every layer bought by the strategy. */
  const Notional: real := 6000.0

  /** A ticker's strategy parameters: take-profit rate, add-on drop rate, highest step to add. */
  datatype Params = Params(targetRate: real, dropRate: real, maxStep: int)

  /** What one tick decides to attempt. */
  datatype Action = Hold | SellAt(step: int) | BuyAt(step: int)

  function OfTicker(ticker: string): Order -> bool {
    (o: Order) => o.ticker == ticker
  }

  function WithStep(step: int): Order -> bool {
    (o: Order) => o.step == step
  }

  predicate SortedByStepDesc(s: seq<Order>) {
    forall i, j :: 0 <= i < j < |s| ==> s[i].step >= s[j].step
  }

  /** Inserts `o` into rows sorted by step, highest first, before the first row of a step not above its own. */
  function Insert(o: Order, s: seq<Order>): (r: seq<Order>)
    requires SortedByStepDesc(s)
    ensures |r| == |s| + 1
    ensures r[0] == o || (s != [] && r[0] == s[0])
    ensures SortedByStepDesc(r)
    ensures multiset(r) == multiset(s) + multiset{o}
  {
    if s == [] || o.step >= s[0].step then [o] + s
    else
      assert s == [s[0]] + s[1..];
      [s[0]] + Insert(o, s[1..])
  }

  /** The rows sorted by step, highest first. */
  function SortByStepDesc(s: seq<Order>): (r: seq<Order>)
    ensures SortedByStepDesc(r)
    ensures multiset(r) == multiset(s)
  {
    if s == [] then []
    else
      assert s == [s[0]] + s[1..];
      Insert(s[0], SortByStepDesc(s[1..]))
  }

  /** The open orders of `ticker`, highest step first. */
  function TickerOrders(orders: seq<Order>, ticker: string): (ts: seq<Order>)
    ensures SortedByStepDesc(ts)
    ensures forall o :: o in ts <==> o in orders && o.ticker == ticker
    ensures multiset(ts) == multiset(Filter(orders, OfTicker(ticker)))
  {
    var mine := Filter(orders, OfTicker(ticker));
    var ts := SortByStepDesc(mine);
    forall o ensures o in ts <==> o in orders && o.ticker == ticker {
      assert o in ts <==> o in multiset(ts);
      assert o in mine <==> o in multiset(mine);
      assert o in mine <==> o in orders && OfTicker(ticker)(o);
    }
    ts
  }

  /** A layer bought at `o.price` has reached its take-profit target at `price`. */
  predicate TakesProfit(o: Order, price: real, targetRate: real) {
    price >= o.price * (1.0 + targetRate)
  }

  /** At `price`, the drop below a layer bought at `entry` has reached the add-on threshold. */
  predicate DropReached(entry: real, price: real, dropRate: real) {
    price <= entry * (1.0 + dropRate)
  }

  /** The first row, in the given order, whose take-profit target is reached. */
  function FirstTakeProfit(ts: seq<Order>, price: real, targetRate: real): (r: Option<Order>)
    ensures r.Some? ==> r.value in ts && TakesProfit(r.value, price, targetRate)
    ensures r.None? <==> forall o :: o in ts ==> !TakesProfit(o, price, targetRate)
  {
    if ts == [] then None
    else if TakesProfit(ts[0], price, targetRate) then Some(ts[0])
    else
      assert forall o :: o in ts ==> o == ts[0] || o in ts[1..];
      FirstTakeProfit(ts[1..], price, targetRate)
  }

  /** The highest step among the rows. */
  function MaxStep(ts: seq<Order>): (r: int)
    requires ts != []
    ensures exists i :: 0 <= i < |ts| && ts[i].step == r
    ensures forall o :: o in ts ==> o.step <= r
  {
    if |ts| == 1 then ts[0].step
    else
      var m := MaxStep(ts[1..]);
      assert forall o :: o in ts ==> o == ts[0] || o in ts[1..];
      assert exists i :: 1 <= i < |ts| && ts[i].step == m by {
        var i :| 0 <= i < |ts[1..]| && ts[1..][i].step == m;
        assert ts[i + 1].step == m;
      }
      if ts[0].step >= m then ts[0].step else m
  }

  /**
   * The action one tick attempts once the throttle allows it: sell the first of the ticker's
   * orders, highest step first, whose target is reached; otherwise buy step 1 when the ticker has
   * no order, or buy the step after the highest one when that step is below `maxStep` and the
   * price is at or under that layer's entry price scaled by `1 + dropRate`.
   */
  function Plan(orders: seq<Order>, ticker: string, price: real, p: Params): Action {
    var ts := TickerOrders(orders, ticker);
    match FirstTakeProfit(ts, price, p.targetRate)
    case Some(o) => SellAt(o.step)
    case None =>
      if ts == [] then BuyAt(1)
      else
        var latest := MaxStep(ts);
        if latest < p.maxStep && DropReached(ts[FirstIndex(ts, WithStep(latest)).value].price, price, p.dropRate)
        then BuyAt(latest + 1)
        else Hold
  }

  /** The ledger after attempting `a`, and whether the attempt counts as an action for the throttle. */
  function Effect(b: Book, a: Action, ticker: string, price: real): (bool, Book)
    requires price != 0.0
  {
    match a
    case Hold => (false, b)
    case SellAt(s) => (true, Sell(b, s, ticker, price).1)
    case BuyAt(s) => Buy(b, s, ticker, price, Notional)
  }

  /**
   * A tick's effect is at most one action: nothing at all, one layer appended to the orders with
   * the history untouched, or one trade put in front of the history with only rows dropped from
   * the orders.
   */
  lemma EffectIsOneAction(b: Book, a: Action, ticker: string, price: real)
    requires price != 0.0
    ensures a.Hold? ==> Effect(b, a, ticker, price) == (false, b)
    ensures var r := Effect(b, a, ticker, price).1;
            || r == b
            || (r.history == b.history && |r.orders| == |b.orders| + 1 && r.orders[..|b.orders|] == b.orders)
            || (|r.history| == |b.history| + 1 && r.history[1..] == b.history
                && forall o :: o in r.orders ==> o in b.orders)
  {
    match a
    case Hold =>
    case SellAt(s) =>
      var r := Sell(b, s, ticker, price);
      if r.0.Some? {
        assert r.1.history[1..] == b.history;
      }
    case BuyAt(s) =>
      var r := Buy(b, s, ticker, price, Notional);
      if r.0 {
        assert r.1.orders[..|b.orders|] == b.orders;
      }
  }

  /** On rows sorted highest step first, the first row whose target is reached has the highest such step. */
  lemma {:induction false} FirstTakeProfitIsHighest(ts: seq<Order>, price: real, targetRate: real)
    requires SortedByStepDesc(ts)
    requires FirstTakeProfit(ts, price, targetRate).Some?
    ensures forall o :: o in ts && TakesProfit(o, price, targetRate) ==>
              o.step <= FirstTakeProfit(ts, price, targetRate).value.step
  {
    if !TakesProfit(ts[0], price, targetRate) {
      assert SortedByStepDesc(ts[1..]);
      FirstTakeProfitIsHighest(ts[1..], price, targetRate);
      assert forall o :: o in ts ==> o == ts[0] || o in ts[1..];
    } else {
      forall o | o in ts ensures o.step <= ts[0].step {
        var i :| 0 <= i < |ts| && ts[i] == o;
        assert i == 0 || ts[0].step >= ts[i].step;
      }
    }
  }

  /** A scan that passes rows whose target is not reached stops at the first one whose target is. */
  lemma {:induction false} FirstTakeProfitAt(ts: seq<Order>, i: int, price: real, targetRate: real)
    requires 0 <= i < |ts|
    requires forall j :: 0 <= j < i ==> !TakesProfit(ts[j], price, targetRate)
    requires TakesProfit(ts[i], price, targetRate)
    ensures FirstTakeProfit(ts, price, targetRate).Some?
    ensures FirstTakeProfit(ts, price, targetRate).value == ts[i]
  {
    if i > 0 {
      assert !TakesProfit(ts[0], price, targetRate);
      FirstTakeProfitAt(ts[1..], i - 1, price, targetRate);
    }
  }

  /**
   * The tick sells exactly when some open order of the ticker has reached its target, and then it
   * sells the highest step among those orders.
   */
  lemma PlanSellsHighestTakeProfit(orders: seq<Order>, ticker: string, price: real, p: Params)
    ensures Plan(orders, ticker, price, p).SellAt? <==>
              exists o :: o in orders && o.ticker == ticker && TakesProfit(o, price, p.targetRate)
    ensures Plan(orders, ticker, price, p).SellAt? ==>
              && (exists o :: o in orders && o.ticker == ticker && TakesProfit(o, price, p.targetRate)
                                && o.step == Plan(orders, ticker, price, p).step)
              && (forall o :: o in orders && o.ticker == ticker && TakesProfit(o, price, p.targetRate) ==>
                                o.step <= Plan(orders, ticker, price, p).step)
  {
    var ts := TickerOrders(orders, ticker);
    if FirstTakeProfit(ts, price, p.targetRate).Some? {
      FirstTakeProfitIsHighest(ts, price, p.targetRate);
    }
  }

  /**
   * A buy opens a step above every open step of the ticker: step 1 when the ticker has no order,
   * otherwise the step right after the highest one, which is at most `maxStep`, and only when
   * that highest layer's entry price scaled by `1 + dropRate` is at least the price. A buy happens
   * only when no layer of the ticker has reached its target.
   */
  lemma PlanBuysAboveOpenLayers(orders: seq<Order>, ticker: string, price: real, p: Params, s: int)
    requires Plan(orders, ticker, price, p) == BuyAt(s)
    ensures forall o :: o in orders && o.ticker == ticker ==> o.step < s
    ensures forall o :: o in orders && o.ticker == ticker ==> !TakesProfit(o, price, p.targetRate)
    ensures (forall o :: o in orders ==> o.ticker != ticker) ==> s == 1
    ensures (exists o :: o in orders && o.ticker == ticker) ==>
              && s <= p.maxStep
              && exists o :: o in orders && o.ticker == ticker && o.step == s - 1 && DropReached(o.price, price, p.dropRate)
  {
    var ts := TickerOrders(orders, ticker);
    assert FirstTakeProfit(ts, price, p.targetRate).None?;
    if ts != [] {
      var latest := MaxStep(ts);
      var k := FirstIndex(ts, WithStep(latest)).value;
      assert s == latest + 1 && s <= p.maxStep;
      assert ts[k] in orders && ts[k].ticker == ticker && ts[k].step == latest;
      assert DropReached(ts[k].price, price, p.dropRate);
    } else {
      assert s == 1;
      assert forall o :: o in orders ==> o.ticker != ticker;
    }
  }

  /**
   * Conversely, when no layer of the ticker has reached its target, the highest open step `o.step`
   * is below `maxStep` and the price has reached the add-on threshold of the layers of that step,
   * the tick buys the step after it.
   */
  lemma PlanAddsLayerOnDrop(orders: seq<Order>, ticker: string, price: real, p: Params, o: Order)
    requires forall q :: q in orders && q.ticker == ticker ==> !TakesProfit(q, price, p.targetRate)
    requires o in orders && o.ticker == ticker
    requires forall q :: q in orders && q.ticker == ticker ==> q.step <= o.step
    requires o.step < p.maxStep
    requires forall q :: q in orders && q.ticker == ticker && q.step == o.step ==> DropReached(q.price, price, p.dropRate)
    ensures Plan(orders, ticker, price, p) == BuyAt(o.step + 1)
  {
    var ts := TickerOrders(orders, ticker);
    assert FirstTakeProfit(ts, price, p.targetRate).None?;
    var latest := MaxStep(ts);
    assert latest == o.step by {
      assert o in ts;
      var i :| 0 <= i < |ts| && ts[i].step == latest;
      assert ts[i] in orders && ts[i].ticker == ticker;
    }
    var k := IndexOfStep(ts, o);
    assert ts[k] in orders && ts[k].ticker == ticker && ts[k].step == o.step;
    assert DropReached(ts[k].price, price, p.dropRate);
  }

  /** The lookup of the first row of `o`'s step finds one when `o` is among the rows. */
  lemma IndexOfStep(ts: seq<Order>, o: Order) returns (k: nat)
    requires o in ts
    ensures FirstIndex(ts, WithStep(o.step)).Some? && k == FirstIndex(ts, WithStep(o.step)).value
    ensures k < |ts| && ts[k].step == o.step
  {
    var n :| 0 <= n < |ts| && ts[n] == o;
    assert WithStep(o.step)(ts[n]);
    k := FirstIndex(ts, WithStep(o.step)).value;
  }

  /**
   * On a step-distinct table the highest layer is the only row of its step, so the tick adds the
   * next layer exactly when that layer's drop threshold is reached (and the other conditions hold).
   */
  lemma PlanAddsLayerOnDropDistinct(orders: seq<Order>, ticker: string, price: real, p: Params, o: Order)
    requires StepsDistinct(orders)
    requires forall q :: q in orders && q.ticker == ticker ==> !TakesProfit(q, price, p.targetRate)
    requires o in orders && o.ticker == ticker
    requires forall q :: q in orders && q.ticker == ticker ==> q.step <= o.step
    requires o.step < p.maxStep
    requires DropReached(o.price, price, p.dropRate)
    ensures Plan(orders, ticker, price, p) == BuyAt(o.step + 1)
  {
    forall q | q in orders && q.ticker == ticker && q.step == o.step
      ensures DropReached(q.price, price, p.dropRate)
    {
      var i :| 0 <= i < |orders| && orders[i] == q;
      var j :| 0 <= j < |orders| && orders[j] == o;
      if i < j {
        StepsDistinctPairwise(orders, i, j);
      } else if j < i {
        StepsDistinctPairwise(orders, j, i);
      }
    }
    PlanAddsLayerOnDrop(orders, ticker, price, p, o);
  }

  /** A tick keeps the steps of every ticker distinct. */
  lemma PlanKeepsStepsDistinct(b: Book, ticker: string, price: real, p: Params)
    requires price != 0.0
    requires StepsDistinct(b.orders)
    ensures StepsDistinct(Effect(b, Plan(b.orders, ticker, price, p), ticker, price).1.orders)
  {
    match Plan(b.orders, ticker, price, p)
    case Hold =>
    case SellAt(s) =>
      SellKeepsStepsDistinct(b, s, ticker, price);
    case BuyAt(s) =>
      PlanBuysAboveOpenLayers(b.orders, ticker, price, p, s);
      if b.cash >= Notional {
        AppendFreshKeepsStepsDistinct(b.orders, Order(ticker, s, price, Notional / price));
      }
  }

  /** One tab's strategy: its ticker, the shared ledger, its parameters and its last action time. */
  class TickerTab {
    const ticker: string
    const exchange: VirtualExchange
    var targetRate: real
    var dropRate: real
    var maxStep: int
    var lastOrderTime: real

    function Config(): Params
      reads this
    {
      Params(targetRate, dropRate, maxStep)
    }

    /** A tab that has never acted. */
    constructor (ticker: string, exchange: VirtualExchange, p: Params)
      ensures this.ticker == ticker && this.exchange == exchange
      ensures Config() == p && lastOrderTime == 0.0
    {
      this.ticker := ticker;
      this.exchange := exchange;
      targetRate := p.targetRate;
      dropRate := p.dropRate;
      maxStep := p.maxStep;
      lastOrderTime := 0.0;
    }

    /**
     * One iteration of the trading loop, given the price the feed returned (`None` when it had
     * none) and the time `now`. Without a price, or less than `Throttle` after the last action,
     * nothing changes; otherwise the ledger becomes the effect of the planned action, and the
     * action time becomes `now` after a sell or a successful buy.
     */
    method Tick(priceOpt: Option<real>, now: real)
      requires priceOpt.Some? ==> priceOpt.value != 0.0
      modifies this`lastOrderTime, exchange
      ensures priceOpt.None? || now - old(lastOrderTime) < Throttle ==>
                exchange.State() == old(exchange.State()) && lastOrderTime == old(lastOrderTime)
      ensures priceOpt.Some? && now - old(lastOrderTime) >= Throttle ==>
                var e := Effect(old(exchange.State()), Plan(old(exchange.orders), ticker, priceOpt.value, old(Config())),
                                ticker, priceOpt.value);
                exchange.State() == e.1 && lastOrderTime == (if e.0 then now else old(lastOrderTime))
      ensures old(StepsDistinct(exchange.orders)) ==> StepsDistinct(exchange.orders)
    {
      if priceOpt.None? {
        return;
      }
      var currPrice := priceOpt.value;
      ghost var before := exchange.State();
      var canOrder := now - lastOrderTime >= Throttle;
      var tOrders := TickerOrders(exchange.orders, ticker);
      if canOrder && StepsDistinct(before.orders) {
        PlanKeepsStepsDistinct(before, ticker, currPrice, Config());
      }
      if canOrder {
        var sold := TakeProfit(tOrders, currPrice, now);
        canOrder := !sold;
      }
      if canOrder {
        AddLayer(tOrders, currPrice, now);
      }
    }

    /**
     * The sell half of a tick: scans the ticker's rows, highest step first, and sells the layer
     * of the first row whose target is reached, then stops; `sold` tells whether it did.
     */
    method TakeProfit(tOrders: seq<Order>, currPrice: real, now: real) returns (sold: bool)
      requires tOrders == TickerOrders(exchange.orders, ticker)
      modifies this`lastOrderTime, exchange
      ensures sold <==> FirstTakeProfit(tOrders, currPrice, targetRate).Some?
      ensures sold ==> exchange.State() == Sell(old(exchange.State()), FirstTakeProfit(tOrders, currPrice, targetRate).value.step,
                                                ticker, currPrice).1
      ensures lastOrderTime == if sold then now else old(lastOrderTime)
      ensures !sold ==> exchange.State() == old(exchange.State())
    {
      sold := false;
      var i := 0;
      while i < |tOrders|
        invariant 0 <= i <= |tOrders|
        invariant forall j :: 0 <= j < i ==> !TakesProfit(tOrders[j], currPrice, targetRate)
        invariant exchange.State() == old(exchange.State()) && lastOrderTime == old(lastOrderTime)
      {
        var row := tOrders[i];
        if TakesProfit(row, currPrice, targetRate) {
          FirstTakeProfitAt(tOrders, i, currPrice, targetRate);
          var profit := exchange.SellLayer(row.step, ticker, currPrice);
          lastOrderTime := now;
          sold := true;
          break;
        }
        i := i + 1;
      }
      if !sold {
        assert forall o :: o in tOrders ==> !TakesProfit(o, currPrice, targetRate);
      }
    }

    /**
     * The buy half of a tick, once nothing was sold: opens step 1 when the ticker has no order,
     * or the step after the highest one when that is below `maxStep` and the price has dropped
     * to that layer's add-on threshold; the action time moves only when the buy went through.
     */
    method AddLayer(tOrders: seq<Order>, currPrice: real, now: real)
      requires currPrice != 0.0
      requires tOrders == TickerOrders(exchange.orders, ticker)
      requires FirstTakeProfit(tOrders, currPrice, targetRate).None?
      modifies this`lastOrderTime, exchange
      ensures var e := Effect(old(exchange.State()), Plan(old(exchange.orders), ticker, currPrice, old(Config())),
                              ticker, currPrice);
              exchange.State() == e.1 && lastOrderTime == (if e.0 then now else old(lastOrderTime))
    {
      ghost var before := exchange.State();
      ghost var plan := Plan(before.orders, ticker, currPrice, Config());
      if tOrders == [] {
        assert plan == BuyAt(1);
        var ok := exchange.BuyLayer(1, ticker, currPrice, Notional);
        if ok {
          lastOrderTime := now;
        }
      } else {
        var latestStep := MaxStep(tOrders);
        if latestStep < maxStep {
          var buyP := tOrders[FirstIndex(tOrders, WithStep(latestStep)).value].price;
          if DropReached(buyP, currPrice, dropRate) {
            assert plan == BuyAt(latestStep + 1);
            var ok := exchange.BuyLayer(latestStep + 1, ticker, currPrice, Notional);
            if ok {
              lastOrderTime := now;
            }
          } else {
            assert plan == Hold;
          }
        } else {
          assert plan == Hold;
        }
      }
    }
  }
}
