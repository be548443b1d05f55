/**
 * The virtual exchange: a cash balance, the table of open orders (one row per layer bought)
 * and the newest-first history of closed trades, with the fee-adjusted buy and sell rules.
 * Money, prices and amounts are exact reals.
 */
module Ledger {
  import opened Wrappers
  import opened Seqs

  /** The fee rate charged on every notional crossing the ledger, in either direction. */
  const Fee: real := 0.0005

  /** One open layer: the row (ticker, step, price, amount) of the orders table. */
  datatype Order = Order(ticker: string, step: int, price: real, amount: real)

  /** One closed trade: the row (ticker, step, profit) of the history table. */
  datatype Trade = Trade(ticker: string, step: int, profit: real)

  /** The whole ledger state as a value. */
  datatype Book = Book(cash: real, orders: seq<Order>, history: seq<Trade>)

  predicate IsLayer(o: Order, ticker: string, step: int) {
    o.ticker == ticker && o.step == step
  }

  /** The row test "this is the layer (ticker, step)". */
  function LayerOf(ticker: string, step: int): Order -> bool {
    o => IsLayer(o, ticker, step)
  }

  /** The row test "this is not the layer (ticker, step)". */
  function OtherThan(ticker: string, step: int): Order -> bool {
    o => !IsLayer(o, ticker, step)
  }

  /** No open order is the layer (ticker, step). */
  predicate NoLayer(orders: seq<Order>, ticker: string, step: int) {
    forall o :: o in orders ==> !IsLayer(o, ticker, step)
  }

  /** Within every ticker, no two open orders share a step. */
  predicate StepsDistinct(orders: seq<Order>) {
    orders == [] ||
    (NoLayer(orders[1..], orders[0].ticker, orders[0].step) && StepsDistinct(orders[1..]))
  }

  /**
   * Buying a layer: `krwAmount / price` units are bought; the buy goes through exactly when the
   * cash covers the notional (the fee is not part of that test), and then the notional plus the
   * fee leaves the cash and one order row is appended.
   */
  function Buy(b: Book, step: int, ticker: string, price: real, krwAmount: real): (r: (bool, Book))
    requires price != 0.0
    ensures r.0 <==> b.cash >= krwAmount
    ensures r.0 ==> r.1.cash == b.cash - krwAmount * (1.0 + Fee)
    ensures r.0 ==> r.1.orders == b.orders + [Order(ticker, step, price, krwAmount / price)]
    ensures r.0 ==> r.1.history == b.history
    ensures r.0 ==> price * r.1.orders[|b.orders|].amount == krwAmount
    ensures !r.0 ==> r.1 == b
  {
    var amount := krwAmount / price;
    var totalCost := price * amount;
    if b.cash >= totalCost then
      (true, Book(b.cash - totalCost * (1.0 + Fee), b.orders + [Order(ticker, step, price, amount)], b.history))
    else
      (false, b)
  }

  /**
   * Selling a layer: the first open order of (ticker, step) is sold at `price`; the sale less the
   * fee is credited, one trade row goes to the front of the history and every order row of
   * (ticker, step) is dropped. Without such an order nothing happens and there is no profit.
   */
  function Sell(b: Book, step: int, ticker: string, price: real): (r: (Option<real>, Book))
    ensures r.0.None? <==> NoLayer(b.orders, ticker, step)
    ensures r.0.None? ==> r.1 == b
    ensures r.0.Some? ==>
      var k := FirstIndex(b.orders, LayerOf(ticker, step)).value;
      && r.1.cash == b.cash + price * b.orders[k].amount * (1.0 - Fee)
      && r.0.value == (r.1.cash - b.cash) - b.orders[k].price * b.orders[k].amount * (1.0 + Fee)
      && r.1.history == [Trade(ticker, step, r.0.value)] + b.history
    ensures r.0.Some? ==> r.1.orders == Filter(b.orders, OtherThan(ticker, step))
    ensures NoLayer(r.1.orders, ticker, step)
    ensures forall o :: o in r.1.orders <==> o in b.orders && !IsLayer(o, ticker, step)
  {
    match FirstIndex(b.orders, LayerOf(ticker, step))
    case None =>
      assert forall o :: o in b.orders ==> !IsLayer(o, ticker, step) by {
        forall o | o in b.orders ensures !IsLayer(o, ticker, step) {
          var j :| 0 <= j < |b.orders| && b.orders[j] == o;
        }
      }
      (None, b)
    case Some(k) =>
      var order := b.orders[k];
      var buyVal := order.price * order.amount;
      var sellVal := price * order.amount;
      var profit := sellVal * (1.0 - Fee) - buyVal * (1.0 + Fee);
      (Some(profit),
       Book(b.cash + sellVal * (1.0 - Fee),
            Filter(b.orders, OtherThan(ticker, step)),
            [Trade(ticker, step, profit)] + b.history))
  }

  /** The recursive definition of StepsDistinct means: no two rows of one ticker share a step. */
  lemma {:induction false} StepsDistinctPairwise(orders: seq<Order>, i: int, j: int)
    requires StepsDistinct(orders)
    requires 0 <= i < j < |orders| && orders[i].ticker == orders[j].ticker
    ensures orders[i].step != orders[j].step
  {
    if i == 0 {
      assert orders[j] == orders[1..][j - 1];
      assert orders[j] in orders[1..];
    } else {
      assert orders[i] == orders[1..][i - 1] && orders[j] == orders[1..][j - 1];
      StepsDistinctPairwise(orders[1..], i - 1, j - 1);
    }
  }

  /** Conversely, a table where no two rows of one ticker share a step satisfies StepsDistinct. */
  lemma {:induction false} PairwiseStepsDistinct(orders: seq<Order>)
    requires forall i, j :: 0 <= i < j < |orders| && orders[i].ticker == orders[j].ticker ==>
               orders[i].step != orders[j].step
    ensures StepsDistinct(orders)
  {
    if orders != [] {
      var rest := orders[1..];
      forall o | o in rest ensures !IsLayer(o, orders[0].ticker, orders[0].step) {
        var j :| 0 <= j < |rest| && rest[j] == o;
        assert orders[j + 1] == o;
      }
      forall i, j | 0 <= i < j < |rest| && rest[i].ticker == rest[j].ticker
        ensures rest[i].step != rest[j].step
      {
        assert rest[i] == orders[i + 1] && rest[j] == orders[j + 1];
      }
      PairwiseStepsDistinct(rest);
    }
  }

  /** Dropping rows keeps the steps of each ticker distinct. */
  lemma {:induction false} FilterKeepsStepsDistinct(orders: seq<Order>, p: Order -> bool)
    requires StepsDistinct(orders)
    ensures StepsDistinct(Filter(orders, p))
  {
    if orders != [] {
      FilterKeepsStepsDistinct(orders[1..], p);
      var rest := Filter(orders[1..], p);
      var f := Filter(orders, p);
      if p(orders[0]) {
        assert f == [orders[0]] + rest;
        assert f[0] == orders[0] && f[1..] == rest;
        assert NoLayer(rest, orders[0].ticker, orders[0].step);
      } else {
        assert f == rest;
      }
    }
  }

  /** Appending a layer that is not open yet keeps the steps of each ticker distinct. */
  lemma {:induction false} AppendFreshKeepsStepsDistinct(orders: seq<Order>, o: Order)
    requires StepsDistinct(orders)
    requires NoLayer(orders, o.ticker, o.step)
    ensures StepsDistinct(orders + [o])
  {
    if orders == [] {
      assert [o][1..] == [];
    } else {
      assert (orders + [o])[1..] == orders[1..] + [o];
      assert orders[0] in orders;
      AppendFreshKeepsStepsDistinct(orders[1..], o);
    }
  }

  /** A sell keeps the steps of each ticker distinct. */
  lemma SellKeepsStepsDistinct(b: Book, step: int, ticker: string, price: real)
    requires StepsDistinct(b.orders)
    ensures StepsDistinct(Sell(b, step, ticker, price).1.orders)
  {
    if !NoLayer(b.orders, ticker, step) {
      FilterKeepsStepsDistinct(b.orders, OtherThan(ticker, step));
    }
  }

  /** A layer appended after rows none of which is that layer is the first row of it. */
  lemma AppendedLayerIsFirst(orders: seq<Order>, o: Order)
    requires NoLayer(orders, o.ticker, o.step)
    ensures FirstIndex(orders + [o], LayerOf(o.ticker, o.step)) == Some(|orders|)
  {
    assert LayerOf(o.ticker, o.step)((orders + [o])[|orders|]);
  }

  /** Dropping a layer appended after rows none of which is that layer gives back those rows. */
  lemma DropAppendedLayer(orders: seq<Order>, o: Order)
    requires NoLayer(orders, o.ticker, o.step)
    ensures Filter(orders + [o], OtherThan(o.ticker, o.step)) == orders
  {
    FilterAppend(orders, [o], OtherThan(o.ticker, o.step));
    FilterKeepsAll(orders, OtherThan(o.ticker, o.step));
    assert [o][1..] == [];
  }

  /**
   * Buying a notional at some price and selling that same layer at the same price loses exactly
   * the fee twice: the profit and the net change of cash are both `-2 * Fee * krwAmount`, and the
   * orders table is as it was before.
   */
  lemma BuyThenSellRoundTrip(b: Book, step: int, ticker: string, price: real, krwAmount: real)
    requires price != 0.0 && b.cash >= krwAmount
    requires NoLayer(b.orders, ticker, step)
    ensures var bought := Buy(b, step, ticker, price, krwAmount);
            var sold := Sell(bought.1, step, ticker, price);
            && bought.0
            && sold.0 == Some(-2.0 * Fee * krwAmount)
            && sold.1.cash == b.cash - 2.0 * Fee * krwAmount
            && sold.1.orders == b.orders
            && sold.1.history == [Trade(ticker, step, -2.0 * Fee * krwAmount)] + b.history
  {
    var b1 := Buy(b, step, ticker, price, krwAmount).1;
    var o := Order(ticker, step, price, krwAmount / price);
    assert b1.orders == b.orders + [o];
    AppendedLayerIsFirst(b.orders, o);
    DropAppendedLayer(b.orders, o);
    assert b1.orders[|b.orders|] == o;
    var credit := price * o.amount * (1.0 - Fee);
    var cost := o.price * o.amount * (1.0 + Fee);
    assert price * o.amount == krwAmount;
    assert credit == krwAmount * (1.0 - Fee);
    assert cost == krwAmount * (1.0 + Fee);
    var sold := Sell(b1, step, ticker, price);
    assert sold.0.Some? && sold.0.value == credit - cost;
    assert sold.0.value == -2.0 * Fee * krwAmount;
  }

  /** The ledger as the source keeps it: three fields that each operation reassigns. */
  class VirtualExchange {
    var cash: real
    var orders: seq<Order>
    var history: seq<Trade>

    function State(): Book
      reads this
    {
      Book(cash, orders, history)
    }

    /** A fresh ledger holding `initialCash` and no orders or trades. */
    constructor (initialCash: real)
      ensures State() == Book(initialCash, [], [])
    {
      cash := initialCash;
      orders := [];
      history := [];
    }

    /** Buys layer `step` of `ticker` for the notional `krwAmount` if the cash covers it. */
    method BuyLayer(step: int, ticker: string, price: real, krwAmount: real) returns (ok: bool)
      requires price != 0.0
      modifies this
      ensures (ok, State()) == Buy(old(State()), step, ticker, price, krwAmount)
      ensures ok <==> old(cash) >= krwAmount
      ensures ok ==> cash == old(cash) - krwAmount * (1.0 + Fee) && history == old(history)
      ensures ok ==> orders == old(orders) + [Order(ticker, step, price, krwAmount / price)]
      ensures !ok ==> State() == old(State())
    {
      ghost var before := State();
      var amount := krwAmount / price;
      var totalCost := price * amount;
      if cash >= totalCost {
        cash := cash - totalCost * (1.0 + Fee);
        orders := orders + [Order(ticker, step, price, amount)];
        ok := true;
        assert before.cash >= totalCost;
        assert State() == Book(before.cash - totalCost * (1.0 + Fee), before.orders + [Order(ticker, step, price, amount)], before.history);
        assert Buy(before, step, ticker, price, krwAmount).1 == State();
        assert Buy(before, step, ticker, price, krwAmount) == (true, State());
      } else {
        ok := false;
        assert Buy(before, step, ticker, price, krwAmount) == (false, State());
      }
    }

    /** Sells the first open order of layer (ticker, step) at `price`; `None` if there is none. */
    method SellLayer(step: int, ticker: string, price: real) returns (profit: Option<real>)
      modifies this
      ensures (profit, State()) == Sell(old(State()), step, ticker, price)
      ensures profit.None? <==> NoLayer(old(orders), ticker, step)
      ensures profit.None? ==> State() == old(State())
      ensures profit.Some? ==> history == [Trade(ticker, step, profit.value)] + old(history)
    {
      ghost var before := State();
      var target := FirstIndex(orders, LayerOf(ticker, step));
      if target.Some? {
        var order := orders[target.value];
        var buyVal := order.price * order.amount;
        var sellVal := price * order.amount;
        var p := sellVal * (1.0 - Fee) - buyVal * (1.0 + Fee);
        cash := cash + sellVal * (1.0 - Fee);
        history := [Trade(ticker, step, p)] + history;
        orders := Filter(orders, OtherThan(ticker, step));
        profit := Some(p);
        ghost var r := Sell(before, step, ticker, price);
        assert r.0.Some? && r.0.value == p;
        assert r.1.cash == cash && r.1.orders == orders && r.1.history == history;
      } else {
        profit := None;
        assert Sell(before, step, ticker, price) == (profit, State());
      }
    }
  }
}
