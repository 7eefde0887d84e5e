/**
 * What the statistics report promises, stated over the specification
 * functions that `Statistics.GetStatistics` is proved to compute.
 */
module StatisticsProperties {
  import opened Wrappers
  import opened Models
  import opened Seqs
  import opened Accounting
  import opened Statistics

  /** Concatenating trade lists concatenates their owner-closed trades. */
  lemma RealizedConcat(a: seq<Trade>, b: seq<Trade>)
    ensures Realized(a + b) == Realized(a) + Realized(b)
  {
    FilterConcat(a, b, IsClosed);
    FilterConcat(Filter(a, IsClosed), Filter(b, IsClosed), CountsForOwner);
  }

  /** Selecting by any further predicate commutes with selecting the owner's closed trades. */
  lemma RealizedCommutes(ts: seq<Trade>, f: Trade -> bool)
    ensures Realized(Filter(ts, f)) == Filter(Realized(ts), f)
  {
    FilterCommute(ts, f, IsClosed);
    FilterCommute(Filter(ts, IsClosed), f, CountsForOwner);
  }

  /** `open_trades` is the number of trades without an exit price. */
  lemma OpenTradesHaveNoExit(ts: seq<Trade>)
    ensures OverallStats(ts).openTrades == |Filter(ts, IsOpen)|
    ensures OverallStats(ts).openTrades >= 0
  {
    FilterComplement(ts, IsClosed, IsOpen);
  }

  /**
   * Wins and losses together never exceed the owner's closed trades, so the
   * win rate lies between 0 and 100; it is 0 when there are none.
   */
  lemma WinRateInRange(ts: seq<Trade>)
    ensures OverallStats(ts).winningTrades + OverallStats(ts).losingTrades <= |Realized(ts)|
    ensures 0.0 <= OverallStats(ts).winrate <= 100.0
    ensures |Realized(ts)| == 0 ==> OverallStats(ts).winrate == 0.0
  {
    FilterDisjoint(Realized(ts), IsWin, IsLoss);
  }

  /**
   * In a per-instrument block the win rate divides by every entered closed
   * trade, source trades included, while wins count only the owner's trades:
   * the denominator exceeds the owner's closed trades by exactly the entered
   * closed source trades, and the rate still lies between 0 and 100.
   */
  lemma ScopeWinRateCountsSourceTrades(scope: seq<Trade>)
    ensures var entered := Filter(Filter(scope, IsClosed), IsEntered);
      && |entered| == |Realized(scope)| + |Filter(entered, IsSourceTrade)|
      && ScopeStatsOf(scope).winningTrades + ScopeStatsOf(scope).losingTrades <= |entered|
      && 0.0 <= ScopeStatsOf(scope).winrate <= 100.0
      && (|entered| == 0 ==> ScopeStatsOf(scope).winrate == 0.0)
  {
    var closed := Filter(scope, IsClosed);
    var entered := Filter(closed, IsEntered);
    var notSource := (t: Trade) => !IsSourceTrade(t);
    FilterAnd(closed, IsEntered, notSource, CountsForOwner);
    FilterComplement(entered, notSource, IsSourceTrade);
    FilterDisjoint(Realized(scope), IsWin, IsLoss);
  }

  /**
   * A trade that was not entered, or that is a source trade, adds nothing to
   * the total P&L, the wins, the losses, the win rate or the "All Traders"
   * and "Self" rows, wherever it stands in the list.
   */
  lemma IgnoredTradeChangesNothing(ts: seq<Trade>, k: nat, t: Trade, balance: Cents, traders: seq<Trader>)
    requires k <= |ts|
    requires !t.entered || IsSourceTrade(t)
    ensures var with := ts[..k] + [t] + ts[k..];
      && OverallStats(with).totalPnl == OverallStats(ts).totalPnl
      && OverallStats(with).winningTrades == OverallStats(ts).winningTrades
      && OverallStats(with).losingTrades == OverallStats(ts).losingTrades
      && OverallStats(with).winrate == OverallStats(ts).winrate
      && Breakdown(with, balance, traders)[..2] == Breakdown(ts, balance, traders)[..2]
  {
    var with := ts[..k] + [t] + ts[k..];
    assert ts == ts[..k] + ts[k..];
    RealizedConcat(ts[..k] + [t], ts[k..]);
    RealizedConcat(ts[..k], [t]);
    RealizedConcat(ts[..k], ts[k..]);
    assert [t][..0] == [];
    assert Realized([t]) == [];
    assert Realized(with) == Realized(ts);
  }

  /**
   * A zero P&L counts as neither a win nor a loss: an owner's closed trade that
   * broke even leaves the total, the wins and the losses as they were, and only
   * adds to the win-rate denominator.
   */
  lemma BreakEvenIsNeitherWinNorLoss(ts: seq<Trade>, t: Trade)
    requires t.entered && !IsSourceTrade(t) && CalculatePnl(t) == Some(0)
    ensures OverallStats(ts + [t]).totalPnl == OverallStats(ts).totalPnl
    ensures OverallStats(ts + [t]).winningTrades == OverallStats(ts).winningTrades
    ensures OverallStats(ts + [t]).losingTrades == OverallStats(ts).losingTrades
    ensures |Realized(ts + [t])| == |Realized(ts)| + 1
  {
    RealizedConcat(ts, [t]);
    assert [t][..0] == [];
    assert Realized([t]) == [t];
    var r := Realized(ts);
    TotalPnlSnoc(r, t);
    FilterSnoc(r, t, IsWin);
    FilterSnoc(r, t, IsLoss);
  }

  /**
   * The stock and the option blocks split the overall figures: their trade
   * counts, closed and open counts, total P&L, wins and losses add up to the
   * top-level ones.
   */
  lemma InstrumentBlocksAddUp(ts: seq<Trade>, balance: Cents, traders: seq<Trader>)
    ensures var r := StatisticsOf(ts, balance, traders);
      && r.stock.totalTrades + r.option.totalTrades == r.overall.totalTrades
      && r.stock.closedTrades + r.option.closedTrades == r.overall.closedTrades
      && r.stock.openTrades + r.option.openTrades == r.overall.openTrades
      && r.stock.totalPnl + r.option.totalPnl == r.overall.totalPnl
      && r.stock.winningTrades + r.option.winningTrades == r.overall.winningTrades
      && r.stock.losingTrades + r.option.losingTrades == r.overall.losingTrades
  {
    var closed := Filter(ts, IsClosed);
    var realized := Realized(ts);
    FilterComplement(ts, IsStock, IsOption);
    FilterCommute(ts, IsStock, IsClosed);
    FilterCommute(ts, IsOption, IsClosed);
    FilterComplement(closed, IsStock, IsOption);
    RealizedCommutes(ts, IsStock);
    RealizedCommutes(ts, IsOption);
    TotalPnlSplit(realized, IsStock, IsOption);
    FilterCommute(realized, IsStock, IsWin);
    FilterCommute(realized, IsOption, IsWin);
    FilterComplement(Filter(realized, IsWin), IsStock, IsOption);
    FilterCommute(realized, IsStock, IsLoss);
    FilterCommute(realized, IsOption, IsLoss);
    FilterComplement(Filter(realized, IsLoss), IsStock, IsOption);
  }

  /** The trader rows follow the traders one for one. */
  lemma {:induction false} TraderRowsAt(ts: seq<Trade>, balance: Cents, traders: seq<Trader>, k: nat)
    requires k < |traders|
    ensures |TraderRows(ts, balance, traders)| == |traders|
    ensures TraderRows(ts, balance, traders)[k] == Row(traders[k].name, TraderTrades(ts, traders[k].id), balance)
  {
    var init := traders[..|traders| - 1];
    if k < |traders| - 1 {
      TraderRowsAt(ts, balance, init, k);
    } else if init != [] {
      TraderRowsAt(ts, balance, init, 0);
    }
  }

  /**
   * The breakdown holds "All Traders", then "Self (unassigned)", then one row
   * per trader in the given order. "All Traders" carries the top-level total
   * P&L over the win-rate denominator's trades; each trader row covers that
   * trader's closed trades that were not entered; every row's equity is the
   * balance plus its P&L.
   */
  lemma PortfolioRows(ts: seq<Trade>, balance: Cents, traders: seq<Trader>)
    ensures var rows := Breakdown(ts, balance, traders);
      && |rows| == 2 + |traders|
      && rows[0].title == AllTradersLabel
      && rows[0].pnl == OverallStats(ts).totalPnl
      && rows[0].trades == |Realized(ts)|
      && rows[1].title == SelfLabel
      && rows[1].pnl == TotalPnl(Filter(Realized(ts), IsSelf))
      && (forall k :: 0 <= k < |traders| ==>
            && rows[2 + k].title == traders[k].name
            && rows[2 + k].pnl == TotalPnl(TraderTrades(ts, traders[k].id)))
      && (forall j :: 0 <= j < |rows| ==> rows[j].equity == balance + rows[j].pnl)
  {
    var rows := Breakdown(ts, balance, traders);
    var head := [Row(AllTradersLabel, Realized(ts), balance), Row(SelfLabel, Filter(Realized(ts), IsSelf), balance)];
    assert rows == head + TraderRows(ts, balance, traders);
    if traders == [] {
      assert |TraderRows(ts, balance, traders)| == 0;
    } else {
      TraderRowsAt(ts, balance, traders, 0);
    }
    forall k | 0 <= k < |traders|
      ensures rows[2 + k] == Row(traders[k].name, TraderTrades(ts, traders[k].id), balance)
    {
      TraderRowsAt(ts, balance, traders, k);
    }
    forall j | 0 <= j < |rows|
      ensures rows[j].equity == balance + rows[j].pnl
    {
      if j >= 2 {
        TraderRowsAt(ts, balance, traders, j - 2);
      }
    }
  }

  /**
   * "All Traders" is "Self (unassigned)" plus the owner's closed trades that
   * carry a trader: both its P&L and its trade count split that way.
   */
  lemma AllTradersIsSelfPlusAssigned(ts: seq<Trade>, balance: Cents, traders: seq<Trader>)
    ensures var rows := Breakdown(ts, balance, traders);
      && rows[0].pnl == rows[1].pnl + TotalPnl(Filter(Realized(ts), IsAssigned))
      && rows[0].trades == rows[1].trades + |Filter(Realized(ts), IsAssigned)|
  {
    TotalPnlSplit(Realized(ts), IsSelf, IsAssigned);
    FilterComplement(Realized(ts), IsSelf, IsAssigned);
  }

  /**
   * The asymmetry of the breakdown: entering a closed, non-source trade moves
   * the "All Traders" P&L by that trade's P&L but leaves every trader row as it
   * was, since trader rows only cover trades that were not entered.
   */
  lemma EnteredTradeSkipsTraderRows(ts: seq<Trade>, t: Trade, balance: Cents, traders: seq<Trader>)
    requires t.entered
    ensures TraderRows(ts + [t], balance, traders) == TraderRows(ts, balance, traders)
    ensures t.exitPrice.Some? && !IsSourceTrade(t) ==>
      Breakdown(ts + [t], balance, traders)[0].pnl == Breakdown(ts, balance, traders)[0].pnl + PnlOrZero(t)
  {
    forall id: int
      ensures TraderTrades(ts + [t], id) == TraderTrades(ts, id)
    {
      FilterSnoc(ts, t, IsClosed);
      FilterSnoc(Filter(ts, IsClosed), t, IsPaper);
    }
    TraderRowsUnchanged(ts, ts + [t], balance, traders);
    RealizedConcat(ts, [t]);
    assert [t][..0] == [];
    TotalPnlSnoc(Realized(ts), t);
  }

  /** The trader rows of two trade lists agree when every trader's closed paper trades do. */
  lemma {:induction false} TraderRowsUnchanged(ts: seq<Trade>, us: seq<Trade>, balance: Cents, traders: seq<Trader>)
    requires forall id: int :: TraderTrades(us, id) == TraderTrades(ts, id)
    ensures TraderRows(us, balance, traders) == TraderRows(ts, balance, traders)
  {
    if traders != [] {
      TraderRowsUnchanged(ts, us, balance, traders[..|traders| - 1]);
    }
  }
}
