# Virtual layered-trading ledger and per-ticker tick rule

This project models the core of a layered ("grid" / averaging-down) trading simulator. It covers three parts.

- **The virtual exchange** (`VirtualExchange`). It holds a cash balance, a fixed fee of 0.0005, a table of open orders and a newest-first history of closed trades. Each order row is (ticker, step, price, amount). Each history row is (ticker, step, profit).
  - `buy_layer` opens a layer when the cash covers the notional. It then deducts the notional plus the fee and appends an order row.
  - `sell_layer` sells the first open order of a (ticker, step). It credits the sale less the fee, puts a trade row first in the history and drops every order row of that (ticker, step).
- **One tick of a tab's trading loop** (`TickerTab.trade_loop`). A tab acts only if 3.0 time units have passed since its last action.
  - It first looks for a sale: it scans the ticker's orders, highest step first, and sells the first layer whose take-profit target is reached.
  - If nothing was sold, it looks for a buy. With no orders for the ticker, it opens step 1. Otherwise it opens the step after the highest one, but only if that highest step is below `max_step` and the price has dropped to the add-on threshold.
  - Every buy has a notional of 6000.
- **The tab registry** (`MainApp.add_ticker_tab`, `MainApp.update_tab_settings`). A ticker gets at most one tab. When the settings fields do not parse, a new tab gets the defaults (0.005, -0.01, 30). A settings update changes all three parameters or none of them.

Money, prices, amounts and times are exact `real`s.

Files and modules:

- `wrappers.dfy` (`Wrappers`): `Option`.
- `seqs.dfy` (`Seqs`): the row filter and the first-match lookup, written once for any element type.
- `ledger.dfy` (`Ledger`):
  - the row types and the ledger state `Book`;
  - `Buy` and `Sell` as functions on `Book`;
  - the class `VirtualExchange`, whose `BuyLayer` and `SellLayer` reassign its `cash`, `orders` and `history` fields and are proved equal to `Buy` and `Sell`;
  - the round-trip lemma and the step-distinctness lemmas.
- `strategy.dfy` (`Strategy`):
  - `Plan`, the action a tick attempts, and `Effect`, what that action does to the ledger;
  - the class `TickerTab`, whose `Tick` runs one iteration against the shared exchange and is proved to produce `Effect` of `Plan`;
  - the lemmas about `Plan`.
- `registry.dfy` (`Registry`): the class `MainApp` with its map from ticker to tab.
- `worked_cases.dfy` (`WorkedCases`): concrete instances of the rules.

Some things the code does differently from what a reader might expect:

- **Cash can go negative.** The buy guard compares the cash with the notional alone (test.py:47), while the deduction includes the fee (test.py:48). So a buy can leave the cash at `-Fee * notional`. The model follows the code and does not claim that cash stays non-negative.
- **Opening a step that is already open is not refused.** `BuyLayer` appends whatever step it is given, as `buy_layer` does. Only the tick rule keeps steps distinct. `PlanKeepsStepsDistinct` proves this, and `Tick` carries it as a postcondition.
- **The first entry ignores `max_step`.** Step 1 is opened even when `max_step` is 0 or negative (test.py:157-159). `FirstEntryIgnoresMaxStep` states this. We cannot tell whether this was intended, so it is recorded here and not as a finding.
- **Sorting.** The tick sorts the ticker's rows by step, highest first (test.py:141). The model uses a stable insertion sort. The sort used at that line (pandas' default) is not stable, so rows of equal step could come out in another order. The outcome does not depend on that order:
  - the sold step is the highest step whose target is reached, whatever the order among equal steps (`PlanSellsHighestTakeProfit`);
  - in every ledger reached by ticks from an empty or step-distinct table, no two rows of one ticker share a step (`Tick` preserves `StepsDistinct`), so the row read at test.py:165 is the only row of its step.

## Model

| member | source | states |
|---|---|---|
| `Seqs.Filter` | test.py:59 | the result has exactly the rows of the input that pass the test, and is no longer than the input |
| `Seqs.FilterAppend` | test.py:71 | filtering a concatenation is the concatenation of the filtered parts, so the kept rows stay in order |
| `Seqs.FilterKeepsAll` | test.py:71 | a filter every row passes returns the table unchanged |
| `Seqs.FirstIndex` | test.py:59-61 | the index found is of a matching row with no matching row before it; `None` only when no row matches |
| `Ledger.Buy` | test.py:44-56 | with a nonzero price the bought amount times the price is the notional; the buy succeeds iff cash >= notional; then cash falls by notional*(1+fee), exactly the order (ticker, step, price, notional/price) is appended, and the history is unchanged; otherwise nothing changes |
| `Ledger.Sell` | test.py:58-74 | no profit and no change iff no order is the layer (ticker, step); otherwise, with the first such order, cash rises by price*amount*(1-fee), profit is that credit minus entry*amount*(1+fee), one trade (ticker, step, profit) goes in front of the old history, and the orders left are the old table filtered to the rows that are not that layer, in their old order and multiplicity |
| `Ledger.VirtualExchange.constructor` | test.py:17-21 | a new exchange holds the given cash and no orders or trades |
| `Ledger.VirtualExchange.BuyLayer` | test.py:44-56 | the returned flag and the new (cash, orders, history) are those of `Buy` on the old state |
| `Ledger.VirtualExchange.SellLayer` | test.py:58-74 | the returned profit and the new state are those of `Sell` on the old state |
| `Ledger.StepsDistinctPairwise` | test.py:169 | under the step-distinctness invariant, two rows of one ticker never share a step |
| `Ledger.PairwiseStepsDistinct` | test.py:169 | conversely, a table where no two rows of one ticker share a step satisfies the step-distinctness invariant, so the invariant says exactly that |
| `Ledger.FilterKeepsStepsDistinct` | test.py:71 | dropping rows keeps steps distinct within each ticker |
| `Ledger.AppendFreshKeepsStepsDistinct` | test.py:53 | appending a layer that is not yet open keeps steps distinct within each ticker |
| `Ledger.SellKeepsStepsDistinct` | test.py:58-74 | a sell keeps steps distinct within each ticker |
| `Ledger.AppendedLayerIsFirst` | test.py:53-61 | after appending a layer that had no row, the sell's lookup finds the appended row |
| `Ledger.DropAppendedLayer` | test.py:53-71 | dropping a layer that was appended to a table without it gives back the old table |
| `Ledger.BuyThenSellRoundTrip` | test.py:44-73 | buying a notional N at price p where that layer is not open, then selling it at p: the buy succeeds, profit is -2*fee*N, cash ends 2*fee*N lower, the orders are as before, and the history gains exactly that trade in front |
| `Strategy.Insert` | test.py:141 | inserting into rows sorted by descending step keeps them sorted and adds exactly that row to the multiset |
| `Strategy.SortByStepDesc` | test.py:141 | the result is sorted by descending step and is a permutation of the input |
| `Strategy.TickerOrders` | test.py:141 | the rows are sorted by descending step and are, with multiplicity, exactly the open orders of the ticker |
| `Strategy.FirstTakeProfit` | test.py:145-147 | the row found is in the table and has reached its target; `None` iff no row has |
| `Strategy.MaxStep` | test.py:163 | the result is the step of some row and no row has a higher step |
| `Strategy.EffectIsOneAction` | test.py:144-171 | a tick's effect is one of: nothing; one row appended to the orders with the history unchanged; or one trade prepended to the history with only rows removed from the orders; holding changes nothing and is not an action |
| `Strategy.FirstTakeProfitIsHighest` | test.py:141-147 | on rows sorted by descending step, no row whose target is reached has a higher step than the one found |
| `Strategy.FirstTakeProfitAt` | test.py:145-153 | a scan that passes rows whose target is not reached stops at the first one whose target is |
| `Strategy.PlanSellsHighestTakeProfit` | test.py:141-153 | a tick sells iff some open order of the ticker has reached its target, and then it sells the highest such step |
| `Strategy.PlanBuysAboveOpenLayers` | test.py:156-171 | a buy happens only when no layer of the ticker has reached its target; the new step is above every open step of the ticker; it is 1 when the ticker has no order; otherwise it is at most `maxStep` and follows an open layer whose drop threshold the price has reached |
| `Strategy.PlanAddsLayerOnDrop` | test.py:162-169 | conversely, when no layer of the ticker has reached its target, the highest open step is below `maxStep` and the price has reached the add-on threshold of the layers of that step, the tick buys the next step |
| `Strategy.PlanAddsLayerOnDropDistinct` | test.py:162-169 | on a step-distinct table, the drop threshold of the single highest layer (with no target reached and the highest step below `maxStep`) is enough for the tick to buy the next step |
| `Strategy.PlanKeepsStepsDistinct` | test.py:141-171 | the effect of a tick keeps steps distinct within each ticker |
| `Strategy.TickerTab.constructor` | test.py:77-86 | a new tab has the given ticker, exchange and parameters, and its last action time is 0 |
| `Strategy.TickerTab.Tick` | test.py:136-171 | with no price, or less than 3.0 after the last action, nothing changes; otherwise the exchange becomes the effect of the planned action, and the last action time becomes `now` exactly after a sell or a successful buy; step distinctness is preserved |
| `Strategy.TickerTab.TakeProfit` | test.py:144-153 | the loop sells iff some row's target is reached; it then sells the layer of the first such row, sets the last action time to `now` and stops; otherwise nothing changes |
| `Strategy.TickerTab.AddLayer` | test.py:156-171 | once nothing was sold, the exchange becomes the effect of the planned buy or hold, and the last action time moves to `now` only when the buy went through |
| `Registry.MainApp.constructor` | test.py:205-206 | a new application has a fresh exchange with 1,000,000 cash and no tabs |
| `Registry.MainApp.AddTickerTab` | test.py:258-266 | a ticker that already has a tab changes nothing; otherwise exactly one fresh tab is added under it, the other tabs are unchanged, and its parameters are the parsed ones or, if any field fails, all three defaults (0.005, -0.01, 30) |
| `Registry.MainApp.UpdateTabSettings` | test.py:271-280 | no selection or a field that fails to parse changes nothing; otherwise the selected tab takes all three parsed parameters, every other tab keeps its own, and no last action time changes |
| `WorkedCases.RoundTripAtOneHundred` | test.py:44-73 | from 1,000,000 cash, buying 6000 at 100 leaves 993,997 and one order of 60 units; selling at 100 gives 999,994 and a profit of -6 |
| `WorkedCases.AddOnTrigger` | test.py:163-169 | with a drop rate of -1% and step 1 bought at 100, a price of 99 buys step 2 and a price of 99.5 does nothing |
| `WorkedCases.TakeProfitTrigger` | test.py:144-149 | with a target rate of 0.5% and step 1 bought at 100, a price of 100.5 sells step 1 and a price of 100.4 does nothing |
| `WorkedCases.FirstEntryIgnoresMaxStep` | test.py:157-159 | a ticker with no open order always plans step 1, whatever `maxStep` is |

## Left out

- Persistence is not modelled: `save_data`, `load_data`, `save_config` and `load_initial_tabs` (test.py:24-42, 282-295) are file and library I/O. A new exchange starts empty instead of loading saved state, and the model has no save/load round trip.
- The price feed `pyupbit.get_current_price` (test.py:136) is a network call. It is the `priceOpt` input of `Tick`. `Tick`, `BuyLayer` and `Buy` require a nonzero price. A zero price makes `buy_layer` divide by zero (test.py:45), and the catch-all handler swallows the error; that path is not modelled.
- The clock `time.time()` is the `now` input of `Tick`. After an action the source reads the clock a second time (test.py:151, 161, 171); the model uses the same `now` for that. The timestamp strings of the order and history rows are not modelled.
- Threads and the run loop are not modelled. This covers the daemon thread per tab, the `running` flag and `toggle_trading`, the `while` loop, `time.sleep(1)`, and the unsynchronised sharing of one exchange between tabs. Only one tick is modelled. The `continue` at test.py:137 skips the sleep and makes a busy loop; that is also outside the model.
- The user interface is not modelled: `setup_ui`, `update_ui`, `add_log`, `on_tab_changed`, the labels, buttons and log lines.
- The catch-all exception handler in the loop (test.py:174-175) is not modelled. So is the one in `update_tab_settings` around the label and config saves after the assignment.
- Prices and cash are IEEE floats in the source and exact reals here. In particular, `price * (krw_amount / price)` equals the notional only in exact arithmetic.
- `MainApp.AddTickerTab` takes the ticker already upper-cased and stripped (test.py:259); that string normalisation is not modelled. The three settings fields are given as what they parsed to, an `Option` each.
- `MainApp.UpdateTabSettings` receives the selected tab as its ticker, which must be one of the registered tabs. The notebook selection (test.py:272-274) is not modelled.
- Strategy.SortByStepDesc: a stable insertion sort. The sort at test.py:141 (pandas' default) is not stable, so when two rows of one ticker share a step the model fixes an order the source does not promise. The sold step and the highest step do not depend on that order. Which of the tied rows gives the add-on entry price at test.py:165 does depend on it, and that choice is not modelled. Ticks never create such a tie (see Sorting above).
- Steps are `int` throughout, so the `int(...)` casts of steps and of `max_step` are identities in the model.
