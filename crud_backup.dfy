/**
 * The older data-access layer kept beside the current one. It differs in
 * four places: a created trade gets no close time, an update forces CLOSED
 * but never touches the close time, a new account has no price-provider
 * preference, and the statistics count every closed trade, whoever owns it
 * and whether or not it was entered. Its `calculate_pnl` and `delete_trade`
 * are the current ones (`Accounting.CalculatePnl`, `Crud.DeleteTrade`).
 */
module CrudBackup {
  import opened Wrappers
  import opened Models
  import opened Seqs
  import opened Schemas
  import opened Db
  import opened Accounting
  import opened Statistics

  /** `create_trade`: stores exactly the supplied fields; no close time is recorded. */
  method CreateTrade(db: Database, b: TradeCreate, now: Timestamp) returns (t: Trade)
    requires db.Valid()
    modifies db`trades, db`nextId
    ensures db.Valid()
    ensures t.id == old(db.nextId) && t.id !in old(db.trades)
    ensures db.trades == old(db.trades)[t.id := t]
    ensures Dump(t) == b && t.createdAt == now && t.closedAt == None
    ensures old(db.ClosedAtConsistent()) ==> db.ClosedAtConsistent()
  {
    t := Construct(db.nextId, now, b);
    db.trades := db.trades[t.id := t];
    db.nextId := db.nextId + 1;
  }

  /**
   * `update_trade`: replaces every writable field and forces CLOSED when an
   * exit price is present; the close time stays whatever it was, even when the
   * exit price is cleared. An unknown id changes nothing.
   */
  method UpdateTrade(db: Database, id: int, b: TradeUpdate) returns (r: Option<Trade>)
    requires db.Valid()
    modifies db`trades
    ensures db.Valid()
    ensures id !in old(db.trades) ==> r == None && db.trades == old(db.trades)
    ensures id in old(db.trades) ==> r.Some? && db.trades == old(db.trades)[id := r.value]
    ensures r.Some? ==>
      var before, t := old(db.trades)[id], r.value;
      && t.id == id && t.createdAt == before.createdAt && t.closedAt == before.closedAt
      && Dump(t) == b.(status := t.status)
      && t.status == (if b.exitPrice.Some? then Closed else b.status)
  {
    if id !in db.trades {
      return None;
    }
    var row := Apply(db.trades[id], b);
    if row.exitPrice.Some? && row.status != Closed {
      row := row.(status := Closed);
    }
    db.trades := db.trades[id := row];
    r := Some(row);
  }

  /** `get_account`: the existing account, or a new one with a balance of 10000.00. */
  method GetAccount(db: Database, now: Timestamp) returns (a: Account)
    modifies db`account
    ensures db.account == Some(a)
    ensures old(db.account).Some? ==> a == old(db.account).value
    ensures old(db.account).None? ==> a == Account(DefaultBalance, None, now)
  {
    if db.account.Some? {
      a := db.account.value;
    } else {
      a := Account(DefaultBalance, None, now);
      db.account := Some(a);
    }
  }

  /** `update_account`: overwrites the balance only. */
  method UpdateAccount(db: Database, balance: Cents, now: Timestamp) returns (a: Account)
    modifies db`account
    ensures db.account == Some(a)
    ensures a.balance == balance && a.updatedAt == now
    ensures old(db.account).Some? ==> a.stockPriceProvider == old(db.account).value.stockPriceProvider
    ensures old(db.account).None? ==> a.stockPriceProvider == None
  {
    a := GetAccount(db, now);
    a := a.(balance := balance, updatedAt := now);
    db.account := Some(a);
  }

  /** The older report: every closed trade counts, and the win rate divides by all of them. */
  function BackupStatsOf(ts: seq<Trade>): ScopeStats
  {
    var closed := Filter(ts, IsClosed);
    var winning := |Filter(closed, IsWin)|;
    ScopeStats(|ts|, |closed|, |ts| - |closed|, TotalPnl(closed), winning,
               |Filter(closed, IsLoss)|, WinRate(winning, |closed|))
  }

  /** `get_statistics` of the older layer. */
  method GetStatistics(trades: seq<Trade>) returns (s: ScopeStats)
    ensures s == BackupStatsOf(trades)
  {
    var closed := Filter(trades, IsClosed);
    var totalPnl: Cents := 0;
    var winning, losing := 0, 0;
    for i := 0 to |closed|
      invariant totalPnl == TotalPnl(closed[..i])
      invariant winning == |Filter(closed[..i], IsWin)|
      invariant losing == |Filter(closed[..i], IsLoss)|
    {
      var t := closed[i];
      assert closed[..i + 1] == closed[..i] + [t];
      TotalPnlSnoc(closed[..i], t);
      FilterSnoc(closed[..i], t, IsWin);
      FilterSnoc(closed[..i], t, IsLoss);
      totalPnl, winning, losing := Tally(totalPnl, winning, losing, t);
    }
    assert closed[..|closed|] == closed;
    var winrate := WinRate(winning, |closed|);
    s := ScopeStats(|trades|, |closed|, |trades| - |closed|, totalPnl, winning, losing, winrate);
  }

  /**
   * Wins and losses together never exceed the closed trades; the win rate lies
   * between 0 and 100 and is 0 when nothing is closed; the open count is the
   * number of trades without an exit price.
   */
  lemma BackupStatsBounds(ts: seq<Trade>)
    ensures BackupStatsOf(ts).winningTrades + BackupStatsOf(ts).losingTrades <= BackupStatsOf(ts).closedTrades
    ensures 0.0 <= BackupStatsOf(ts).winrate <= 100.0
    ensures BackupStatsOf(ts).closedTrades == 0 ==> BackupStatsOf(ts).winrate == 0.0
    ensures BackupStatsOf(ts).openTrades == |Filter(ts, IsOpen)|
  {
    FilterDisjoint(Filter(ts, IsClosed), IsWin, IsLoss);
    FilterComplement(ts, IsClosed, IsOpen);
  }

  /**
   * When every trade was entered and none is a source trade, the older report
   * and the top-level block of the current one agree on every figure.
   */
  lemma BackupAgreesWhenEveryTradeIsOwned(ts: seq<Trade>)
    requires forall t :: t in ts ==> CountsForOwner(t)
    ensures BackupStatsOf(ts) == OverallStats(ts)
  {
    var closed := Filter(ts, IsClosed);
    forall t | t in closed
      ensures CountsForOwner(t)
    {
      FilterMembers(ts, IsClosed, t);
    }
    FilterAll(closed, CountsForOwner);
  }
}
