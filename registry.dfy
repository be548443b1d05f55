/**
 * The application's registry of tabs: one strategy tab per ticker, all trading against one
 * shared exchange, created from the settings fields and updated from them in place.
 */
module Registry {
  import opened Wrappers
  import opened Ledger
  import opened Strategy

  /** The cash of a new exchange. */
  const InitialCash: real := 1000000.0

  /** The parameters a tab gets when the settings fields do not parse. */
  const DefaultParams: Params := Params(0.005, -0.01, 30)

  /**
   * The parameters read from the settings fields, given as what each field parsed to: the two
   * rates are typed in percent and the whole tuple fails when any one field fails.
   */
  function ParseParams(targetPercent: Option<real>, dropPercent: Option<real>, maxStep: Option<int>): Option<Params> {
    match (targetPercent, dropPercent, maxStep)
    case (Some(t), Some(d), Some(m)) => Some(Params(t / 100.0, d / 100.0, m))
    case _ => None
  }

  class MainApp {
    const exchange: VirtualExchange
    var tabs: map<string, TickerTab>

    /** Every tab is filed under its own ticker and trades on the shared exchange. */
    ghost predicate Valid()
      reads this
    {
      forall t :: t in tabs ==> tabs[t].ticker == t && tabs[t].exchange == exchange
    }

    /** The parameters of every tab, by ticker. */
    ghost function Configs(): map<string, Params>
      reads this, tabs.Values
    {
      map t | t in tabs :: tabs[t].Config()
    }

    /** A fresh application: a new exchange holding the initial cash, and no tabs. */
    constructor ()
      ensures Valid() && tabs == map[]
      ensures fresh(exchange) && exchange.State() == Book(InitialCash, [], [])
    {
      exchange := new VirtualExchange(InitialCash);
      tabs := map[];
    }

    /**
     * Adds a tab for `ticker` unless it already has one. The new tab takes the parsed settings,
     * or all three defaults when any field fails to parse, and has never acted.
     */
    method AddTickerTab(ticker: string, targetPercent: Option<real>, dropPercent: Option<real>, maxStep: Option<int>)
      requires Valid()
      modifies this
      ensures Valid()
      ensures ticker in old(tabs) ==> tabs == old(tabs)
      ensures ticker !in old(tabs) ==>
                && tabs.Keys == old(tabs).Keys + {ticker}
                && (forall t :: t in old(tabs) ==> tabs[t] == old(tabs)[t])
                && fresh(tabs[ticker])
                && tabs[ticker].lastOrderTime == 0.0
      ensures Configs() == if ticker in old(tabs) then old(Configs())
                           else old(Configs())[ticker := ParseParams(targetPercent, dropPercent, maxStep).GetOr(DefaultParams)]
    {
      if ticker in tabs {
        return;
      }
      var p := ParseParams(targetPercent, dropPercent, maxStep).GetOr(DefaultParams);
      var tab := new TickerTab(ticker, exchange, p);
      tabs := tabs[ticker := tab];
    }

    /**
     * Applies the settings fields to the selected tab (`None` when no tab is selected): all three
     * parameters when every field parses, none of them otherwise. Nothing else changes.
     */
    method UpdateTabSettings(selected: Option<string>, targetPercent: Option<real>, dropPercent: Option<real>,
                             maxStep: Option<int>)
      requires Valid()
      requires selected.Some? ==> selected.value in tabs
      modifies if selected.Some? then {tabs[selected.value]} else {}
      ensures Valid() && tabs == old(tabs)
      ensures Configs() == if selected.Some? && ParseParams(targetPercent, dropPercent, maxStep).Some?
                           then old(Configs())[selected.value := ParseParams(targetPercent, dropPercent, maxStep).value]
                           else old(Configs())
      ensures forall t :: t in tabs ==> tabs[t].lastOrderTime == old(tabs[t].lastOrderTime)
    {
      if selected.None? {
        return;
      }
      var tab := tabs[selected.value];
      match ParseParams(targetPercent, dropPercent, maxStep)
      case Some(p) =>
        tab.targetRate, tab.dropRate, tab.maxStep := p.targetRate, p.dropRate, p.maxStep;
      case None =>
    }
  }
}
