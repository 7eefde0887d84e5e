/**
 * `get_statistics` of the current data-access layer: overall counts and P&L,
 * the same summary per instrument type, and the portfolio breakdown by scope.
 *
 * The specification functions describe each figure by the trades it ranges
 * over; the methods below run the accumulator loops and are proved to produce
 * exactly those figures.
 */
module Statistics {
  import opened Wrappers
  import opened Models
  import opened Seqs
  import opened Accounting

  /** One summary block (`total_trades` ... `winrate`). */
  datatype ScopeStats = ScopeStats(
    totalTrades: nat,
    closedTrades: nat,
    openTrades: int,
    totalPnl: Cents,
    winningTrades: nat,
    losingTrades: nat,
    winrate: real)

  /**
   * One row of the portfolio breakdown. `title` holds the row's `"label"`
   * entry; `label` is a reserved word in Dafny.
   */
  datatype PortfolioRow = PortfolioRow(title: string, pnl: Cents, equity: Cents, trades: nat)

  datatype Report = Report(overall: ScopeStats, stock: ScopeStats, option: ScopeStats, portfolio: seq<PortfolioRow>)

  const AllTradersLabel: string := "All Traders"
  const SelfLabel: string := "Self (unassigned)"

  predicate IsClosed(t: Trade) { t.exitPrice.Some? }

  predicate IsOpen(t: Trade) { t.exitPrice.None? }

  predicate IsEntered(t: Trade) { t.entered }

  /** Not entered by the owner: a paper outcome or a trader's own idea. */
  predicate IsPaper(t: Trade) { !t.entered }

  /** The owner's own capital: entered, and not a trader's idea that was copied. */
  predicate CountsForOwner(t: Trade) { t.entered && !IsSourceTrade(t) }

  predicate IsWin(t: Trade) { var p := CalculatePnl(t); p.Some? && p.value > 0 }

  predicate IsLoss(t: Trade) { var p := CalculatePnl(t); p.Some? && p.value < 0 }

  predicate IsStock(t: Trade) { t.instrumentType == Stock }

  predicate IsOption(t: Trade) { t.instrumentType == OptionContract }

  predicate IsSelf(t: Trade) { t.traderId.None? }

  predicate IsAssigned(t: Trade) { t.traderId.Some? }

  /** The closed trades that are the owner's own: what P&L, wins and losses range over. */
  function Realized(ts: seq<Trade>): seq<Trade>
  {
    Filter(Filter(ts, IsClosed), CountsForOwner)
  }

  /** Winning trades as a percentage of `denominator`; 0 when there is nothing to divide by. */
  function WinRate(wins: nat, denominator: nat): (r: real)
    ensures denominator == 0 ==> r == 0.0
    ensures wins <= denominator ==> 0.0 <= r <= 100.0
    ensures 0 < wins <= denominator ==> 0.0 < r
  {
    if denominator == 0 then 0.0
    else
      var ratio := (wins as real) / (denominator as real);
      assert wins <= denominator ==> ratio <= 1.0;
      ratio * 100.0
  }

  /** A summary block over `scope` whose win rate divides by `denominator`. */
  function Summary(scope: seq<Trade>, denominator: nat): ScopeStats
  {
    var closed := Filter(scope, IsClosed);
    var realized := Filter(closed, CountsForOwner);
    var winning := |Filter(realized, IsWin)|;
    ScopeStats(|scope|, |closed|, |scope| - |closed|, TotalPnl(realized),
               winning, |Filter(realized, IsLoss)|, WinRate(winning, denominator))
  }

  /** The top-level block: the win rate divides by the owner's closed trades. */
  function OverallStats(ts: seq<Trade>): ScopeStats
  {
    Summary(ts, |Realized(ts)|)
  }

  /** `build_stats`: the win rate divides by every entered closed trade, source trades included. */
  function ScopeStatsOf(scope: seq<Trade>): ScopeStats
  {
    Summary(scope, |Filter(Filter(scope, IsClosed), IsEntered)|)
  }

  function Row(title: string, scope: seq<Trade>, balance: Cents): PortfolioRow
  {
    PortfolioRow(title, TotalPnl(scope), balance + TotalPnl(scope), |scope|)
  }

  /** The trades of `scope` that belong to the trader with id `traderId`. */
  function OfTrader(scope: seq<Trade>, traderId: int): seq<Trade>
  {
    Filter(scope, (t: Trade) => t.traderId == Some(traderId))
  }

  /** The closed paper trades of the trader with id `traderId`. */
  function TraderTrades(ts: seq<Trade>, traderId: int): seq<Trade>
  {
    OfTrader(Filter(Filter(ts, IsClosed), IsPaper), traderId)
  }

  /** One row per trader, in the order the traders are given. */
  function TraderRows(ts: seq<Trade>, balance: Cents, traders: seq<Trader>): seq<PortfolioRow>
  {
    if traders == [] then []
    else
      var last := traders[|traders| - 1];
      TraderRows(ts, balance, traders[..|traders| - 1]) + [Row(last.name, TraderTrades(ts, last.id), balance)]
  }

  lemma TraderRowsSnoc(ts: seq<Trade>, balance: Cents, traders: seq<Trader>, trader: Trader)
    ensures TraderRows(ts, balance, traders + [trader])
         == TraderRows(ts, balance, traders) + [Row(trader.name, TraderTrades(ts, trader.id), balance)]
  {
    assert (traders + [trader])[..|traders|] == traders;
  }

  function Breakdown(ts: seq<Trade>, balance: Cents, traders: seq<Trader>): seq<PortfolioRow>
  {
    var realized := Realized(ts);
    [Row(AllTradersLabel, realized, balance), Row(SelfLabel, Filter(realized, IsSelf), balance)]
      + TraderRows(ts, balance, traders)
  }

  /** The whole report `get_statistics` returns, before rounding the win rates. */
  function StatisticsOf(ts: seq<Trade>, balance: Cents, traders: seq<Trader>): Report
  {
    Report(OverallStats(ts), ScopeStatsOf(Filter(ts, IsStock)), ScopeStatsOf(Filter(ts, IsOption)),
           Breakdown(ts, balance, traders))
  }

  // ---------------------------------------------------------------------------
  // The accumulator loops

  /** What one more owner trade adds to the total, the wins and the losses. */
  lemma RealizedStep(r: seq<Trade>, t: Trade)
    ensures TotalPnl(r + [t]) == TotalPnl(r) + PnlOrZero(t)
    ensures |Filter(r + [t], IsWin)| == |Filter(r, IsWin)| + (if IsWin(t) then 1 else 0)
    ensures |Filter(r + [t], IsLoss)| == |Filter(r, IsLoss)| + (if IsLoss(t) then 1 else 0)
  {
    TotalPnlSnoc(r, t);
    FilterSnoc(r, t, IsWin);
    FilterSnoc(r, t, IsLoss);
  }

  /**
   * The body shared by the statistics loops once a trade is counted: a
   * non-zero P&L is added to the total and to the win or the loss count.
   */
  method Tally(totalPnl: Cents, winning: nat, losing: nat, t: Trade)
    returns (totalPnl': Cents, winning': nat, losing': nat)
    ensures totalPnl' == totalPnl + PnlOrZero(t)
    ensures winning' == winning + (if IsWin(t) then 1 else 0)
    ensures losing' == losing + (if IsLoss(t) then 1 else 0)
  {
    totalPnl', winning', losing' := totalPnl, winning, losing;
    var pnl := CalculatePnl(t);
    if pnl.Some? && pnl.value != 0 {
      totalPnl' := totalPnl' + pnl.value;
      if pnl.value > 0 {
        winning' := winning' + 1;
      } else if pnl.value < 0 {
        losing' := losing' + 1;
      }
    }
  }

  /**
   * The loop over `closed` shared by `get_statistics` and `build_stats`: it
   * skips trades that were not entered and source trades, and tallies the rest.
   */
  method AccumulateRealized(closed: seq<Trade>) returns (totalPnl: Cents, winning: nat, losing: nat)
    ensures totalPnl == TotalPnl(Filter(closed, CountsForOwner))
    ensures winning == |Filter(Filter(closed, CountsForOwner), IsWin)|
    ensures losing == |Filter(Filter(closed, CountsForOwner), IsLoss)|
  {
    totalPnl, winning, losing := 0, 0, 0;
    ghost var realized: seq<Trade> := [];
    var i := 0;
    while i < |closed|
      invariant 0 <= i <= |closed|
      invariant realized == Filter(closed[..i], CountsForOwner)
      invariant totalPnl == TotalPnl(realized)
      invariant winning == |Filter(realized, IsWin)|
      invariant losing == |Filter(realized, IsLoss)|
    {
      var t := closed[i];
      assert closed[..i + 1] == closed[..i] + [t];
      FilterSnoc(closed[..i], t, CountsForOwner);
      RealizedStep(realized, t);
      i := i + 1;
      if !t.entered {
        continue;
      }
      if IsSourceTrade(t) {
        continue;
      }
      realized := realized + [t];
      totalPnl, winning, losing := Tally(totalPnl, winning, losing, t);
    }
    assert closed[..|closed|] == closed;
  }

  /** `build_stats(scope_trades)`. */
  method BuildStats(scope: seq<Trade>) returns (s: ScopeStats)
    ensures s == ScopeStatsOf(scope)
  {
    var closed := Filter(scope, IsClosed);
    var totalPnl, winning, losing := AccumulateRealized(closed);
    var enteredClosed := Filter(closed, IsEntered);
    var winrate := WinRate(winning, |enteredClosed|);
    s := ScopeStats(|scope|, |closed|, |scope| - |closed|, totalPnl, winning, losing, winrate);
  }

  /** `sum_pnl(scope_trades)`: the sum of every non-zero P&L. */
  method SumPnl(scope: seq<Trade>) returns (total: Cents)
    ensures total == TotalPnl(scope)
  {
    total := 0;
    for i := 0 to |scope|
      invariant total == TotalPnl(scope[..i])
    {
      var t := scope[i];
      assert scope[..i + 1] == scope[..i] + [t];
      TotalPnlSnoc(scope[..i], t);
      var pnl := CalculatePnl(t);
      if pnl.Some? && pnl.value != 0 {
        total := total + pnl.value;
      }
    }
    assert scope[..|scope|] == scope;
  }

  /**
   * The `portfolio_breakdown` list of `get_statistics`: "All Traders" over the
   * owner's closed trades, "Self (unassigned)" over those without a trader,
   * then one row per trader over that trader's closed paper trades.
   */
  method PortfolioBreakdown(trades: seq<Trade>, balance: Cents, traders: seq<Trader>)
    returns (portfolio: seq<PortfolioRow>)
    ensures portfolio == Breakdown(trades, balance, traders)
  {
    var closed := Filter(trades, IsClosed);
    var enteredClosed := Filter(closed, CountsForOwner);
    var paperClosed := Filter(closed, IsPaper);

    portfolio := [];
    var allPnl := SumPnl(enteredClosed);
    ghost var allRow := Row(AllTradersLabel, Realized(trades), balance);
    assert PortfolioRow(AllTradersLabel, allPnl, balance + allPnl, |enteredClosed|) == allRow;
    portfolio := portfolio + [PortfolioRow(AllTradersLabel, allPnl, balance + allPnl, |enteredClosed|)];

    var selfTrades := Filter(enteredClosed, IsSelf);
    var selfPnl := SumPnl(selfTrades);
    ghost var selfRow := Row(SelfLabel, Filter(Realized(trades), IsSelf), balance);
    assert PortfolioRow(SelfLabel, selfPnl, balance + selfPnl, |selfTrades|) == selfRow;
    portfolio := portfolio + [PortfolioRow(SelfLabel, selfPnl, balance + selfPnl, |selfTrades|)];

    ghost var head := portfolio;
    assert head == [allRow, selfRow];
    assert traders[..0] == [];
    for k := 0 to |traders|
      invariant portfolio == head + TraderRows(trades, balance, traders[..k])
    {
      var trader := traders[k];
      var traderTrades := OfTrader(paperClosed, trader.id);
      var traderPnl := SumPnl(traderTrades);
      ghost var row := PortfolioRow(trader.name, traderPnl, balance + traderPnl, |traderTrades|);
      assert row == Row(trader.name, TraderTrades(trades, trader.id), balance);
      assert traders[..k + 1] == traders[..k] + [trader];
      TraderRowsSnoc(trades, balance, traders[..k], trader);
      ghost var done := TraderRows(trades, balance, traders[..k]);
      assert (head + done) + [row] == head + (done + [row]);
      portfolio := portfolio + [PortfolioRow(trader.name, traderPnl, balance + traderPnl, |traderTrades|)];
    }
    assert traders[..|traders|] == traders;
  }

  /**
   * `get_statistics` over the given trades, the account balance and the
   * traders (in the name order the trader query returns them).
   */
  method GetStatistics(trades: seq<Trade>, balance: Cents, traders: seq<Trader>) returns (report: Report)
    ensures report == StatisticsOf(trades, balance, traders)
  {
    var closed := Filter(trades, IsClosed);
    var totalPnl, winning, losing := AccumulateRealized(closed);
    var enteredClosed := Filter(closed, CountsForOwner);
    var winrate := WinRate(winning, |enteredClosed|);
    var overall := ScopeStats(|trades|, |closed|, |trades| - |closed|, totalPnl, winning, losing, winrate);
    var stockStats := BuildStats(Filter(trades, IsStock));
    var optionStats := BuildStats(Filter(trades, IsOption));
    var portfolio := PortfolioBreakdown(trades, balance, traders);
    report := Report(overall, stockStats, optionStats, portfolio);
  }
}
