/**
 * The web routes of the journal that change or summarise trades: turning the
 * trade form into a `TradeBase`, the create, update, quick-close and delete
 * routes, the trade list with its running total, the account page's open P&L
 * and equity, and the JSON listing. Page rendering is not modelled; a route's
 * outcome is a redirect target or "not found".
 */
module App {
  import opened Wrappers
  import opened Models
  import opened Text
  import opened Seqs
  import opened Schemas
  import opened Db
  import opened Accounting
  import opened Statistics
  import Crud

  /**
   * A submitted optional form field: absent (`None`), present but empty (`""`),
   * or a non-empty value, parsed to the field's type.
   */
  datatype FormValue<T> = Missing | Blank | Filled(value: T)

  /** The fields of the add/edit trade form, already parsed to the journal's types. */
  datatype TradeForm = TradeForm(
    status: TradeStatus,
    tradingStyle: TradingStyle,
    instrumentType: InstrumentType,
    ticker: string,
    direction: Direction,
    optionType: FormValue<OptionType>,
    expirationDate: FormValue<string>,
    strike: FormValue<Cents>,
    entryPrice: Cents,
    exitPrice: FormValue<Cents>,
    quantity: int,
    fees: Cents,
    notes: Option<string>)

  datatype Response = Redirect(location: string) | NotFound

  const TradesPage := "/trades"

  /** `x if x else None`: an empty or missing field becomes null. */
  function OrNone<T>(v: FormValue<T>): (r: Option<T>)
    ensures r.Some? <==> v.Filled?
    ensures r.Some? ==> r.value == v.value
  {
    if v.Filled? then Some(v.value) else None
  }

  /**
   * The `TradeCreate`/`TradeUpdate` built from the form. The ticker is upper-cased;
   * empty optional fields become null; the form has no `entered`, trader,
   * stop-loss or take-profit field, so those take their defaults.
   */
  function FormToTradeBase(f: TradeForm): (b: TradeBase)
    ensures IsUpperCased(b.ticker) && |b.ticker| == |f.ticker| && Lower(b.ticker) == Lower(f.ticker)
    ensures b.optionType.Some? <==> f.optionType.Filled?
    ensures b.strike.Some? <==> f.strike.Filled?
    ensures b.exitPrice.Some? <==> f.exitPrice.Filled?
    ensures b.exitPrice.Some? ==> b.exitPrice.value == f.exitPrice.value
    ensures b.expirationDate.Some? <==> f.expirationDate.Filled?
    ensures !b.entered && b.traderId.None? && b.sl.None? && b.tp.None?
    ensures b.status == f.status && b.direction == f.direction && b.entryPrice == f.entryPrice
    ensures b.quantity == f.quantity && b.fees == f.fees && b.notes == f.notes
  {
    NewTradeBase(f.tradingStyle, f.instrumentType, Upper(f.ticker), f.entryPrice).(
      status := f.status,
      direction := f.direction,
      optionType := OrNone(f.optionType),
      expirationDate := OrNone(f.expirationDate),
      strike := OrNone(f.strike),
      exitPrice := OrNone(f.exitPrice),
      quantity := f.quantity,
      fees := f.fees,
      notes := f.notes)
  }

  /** `POST /trades/create`: stores the form as a new trade and redirects to the list. */
  method CreateTradeRoute(db: Database, form: TradeForm, now: Timestamp) returns (resp: Response)
    requires db.Valid()
    modifies db`trades, db`nextId
    ensures db.Valid()
    ensures resp == Redirect(TradesPage)
    ensures old(db.nextId) !in old(db.trades)
    ensures db.trades.Keys == old(db.trades).Keys + {old(db.nextId)}
    ensures forall id :: id in old(db.trades) ==> db.trades[id] == old(db.trades)[id]
    ensures Dump(db.trades[old(db.nextId)]) == FormToTradeBase(form)
    ensures db.trades[old(db.nextId)].id == old(db.nextId) && db.trades[old(db.nextId)].createdAt == now
    ensures db.trades[old(db.nextId)].closedAt == if form.exitPrice.Filled? then Some(now) else None
    ensures old(db.ClosedAtConsistent()) ==> db.ClosedAtConsistent()
  {
    var _ := Crud.CreateTrade(db, FormToTradeBase(form), now);
    resp := Redirect(TradesPage);
  }

  /**
   * `POST /trades/{id}/update`: rewrites the trade from the form and redirects,
   * whether or not the id exists. Because the form carries no `entered` or
   * trader field, saving the edit form marks the trade as not entered and
   * unassigns it.
   */
  method UpdateTradeRoute(db: Database, id: int, form: TradeForm, now: Timestamp) returns (resp: Response)
    requires db.Valid()
    modifies db`trades
    ensures db.Valid()
    ensures resp == Redirect(TradesPage)
    ensures id !in old(db.trades) ==> db.trades == old(db.trades)
    ensures id in old(db.trades) ==>
      && db.trades.Keys == old(db.trades).Keys
      && (forall other :: other in db.trades && other != id ==> db.trades[other] == old(db.trades)[other])
      && !db.trades[id].entered && db.trades[id].traderId.None?
      && Dump(db.trades[id]) == FormToTradeBase(form).(status := db.trades[id].status)
      && db.trades[id].id == id && db.trades[id].createdAt == old(db.trades)[id].createdAt
      && (form.exitPrice.Filled? ==> db.trades[id].status == Closed)
      && (!form.exitPrice.Filled? ==> db.trades[id].status == form.status && db.trades[id].closedAt == None)
      && (form.exitPrice.Filled? && old(db.trades)[id].exitPrice.None? && old(db.trades)[id].closedAt.None?
          ==> db.trades[id].closedAt == Some(now))
      && (form.exitPrice.Filled? && !(old(db.trades)[id].exitPrice.None? && old(db.trades)[id].closedAt.None?)
          ==> db.trades[id].closedAt == old(db.trades)[id].closedAt)
    ensures old(db.ClosedAtConsistent()) ==> db.ClosedAtConsistent()
  {
    var _ := Crud.UpdateTrade(db, id, FormToTradeBase(form), now);
    resp := Redirect(TradesPage);
  }

  /**
   * `POST /trades/{id}/close`: sets the exit price and the CLOSED status of an
   * existing trade and nothing else (the close time is not recorded here);
   * an unknown id is "not found".
   */
  method CloseTrade(db: Database, id: int, exitPrice: Cents) returns (resp: Response)
    requires db.Valid()
    modifies db`trades
    ensures db.Valid()
    ensures resp == NotFound <==> id !in old(db.trades)
    ensures id !in old(db.trades) ==> db.trades == old(db.trades)
    ensures id in old(db.trades) ==>
      && resp == Redirect(TradesPage)
      && db.trades == old(db.trades)[id := old(db.trades)[id].(exitPrice := Some(exitPrice), status := Closed)]
    ensures old(db.ClosedAtConsistent()) ==> db.ClosedAtConsistent()
  {
    if id !in db.trades {
      return NotFound;
    }
    var row := db.trades[id];
    row := row.(exitPrice := Some(exitPrice));
    row := row.(status := Closed);
    db.trades := db.trades[id := row];
    resp := Redirect(TradesPage);
  }

  /** `POST /trades/{id}/delete`: "not found" exactly when there was nothing to delete. */
  method DeleteTradeRoute(db: Database, id: int) returns (resp: Response)
    requires db.Valid()
    modifies db`trades
    ensures db.Valid()
    ensures resp == NotFound <==> id !in old(db.trades)
    ensures resp != NotFound ==> resp == Redirect(TradesPage)
    ensures db.trades == old(db.trades) - {id}
    ensures old(db.ClosedAtConsistent()) ==> db.ClosedAtConsistent()
  {
    var success := Crud.DeleteTrade(db, id);
    if !success {
      return NotFound;
    }
    resp := Redirect(TradesPage);
  }

  /** A trade listed together with its P&L (null while it has no exit price). */
  datatype ListedTrade = ListedTrade(trade: Trade, pnl: Option<Cents>)

  /**
   * `GET /trades`: pairs every trade with its P&L and sums the P&L of those
   * that have one.
   */
  method ListTrades(trades: seq<Trade>) returns (rows: seq<ListedTrade>, totalPnl: Cents)
    ensures |rows| == |trades|
    ensures forall i :: 0 <= i < |rows| ==> rows[i].trade == trades[i] && rows[i].pnl == CalculatePnl(trades[i])
    ensures totalPnl == TotalPnl(trades)
  {
    rows := [];
    totalPnl := 0;
    for i := 0 to |trades|
      invariant |rows| == i
      invariant forall j :: 0 <= j < i ==> rows[j].trade == trades[j] && rows[j].pnl == CalculatePnl(trades[j])
      invariant totalPnl == TotalPnl(trades[..i])
    {
      var t := trades[i];
      assert trades[..i + 1] == trades[..i] + [t];
      TotalPnlSnoc(trades[..i], t);
      var pnl := CalculatePnl(t);
      rows := rows + [ListedTrade(t, pnl)];
      if pnl.Some? && pnl.value != 0 {
        totalPnl := totalPnl + pnl.value;
      }
    }
    assert trades[..|trades|] == trades;
  }

  /** Trades without an exit price add nothing to a total. */
  lemma {:induction false} TotalPnlWithoutExits(ts: seq<Trade>)
    requires forall t :: t in ts ==> t.exitPrice.None?
    ensures TotalPnl(ts) == 0
  {
    if ts != [] {
      var ts', x := ts[..|ts| - 1], ts[|ts| - 1];
      assert x in ts;
      forall t | t in ts'
        ensures t.exitPrice.None?
      {
        assert t in ts;
      }
      TotalPnlWithoutExits(ts');
    }
  }

  /** The closed trades the statistics page leaves out: paper trades and source trades. */
  predicate LeftOutOfStatistics(t: Trade) { !CountsForOwner(t) }

  /**
   * The running total of the trade list is the statistics page's total P&L plus
   * the P&L of the closed paper and source trades, which only the list counts.
   */
  lemma ListTotalVersusStatistics(ts: seq<Trade>)
    ensures TotalPnl(ts) == OverallStats(ts).totalPnl + TotalPnl(Filter(Filter(ts, IsClosed), LeftOutOfStatistics))
  {
    TotalPnlSplit(ts, IsClosed, IsOpen);
    forall t | t in Filter(ts, IsOpen)
      ensures t.exitPrice.None?
    {
      FilterMembers(ts, IsOpen, t);
    }
    TotalPnlWithoutExits(Filter(ts, IsOpen));
    TotalPnlSplit(Filter(ts, IsClosed), CountsForOwner, LeftOutOfStatistics);
  }

  /**
   * The trades the account page counts as open P&L: not CLOSED although they
   * carry a non-zero exit price.
   */
  predicate CountsAsOpenPnl(t: Trade)
  {
    t.status != Closed && t.exitPrice.Some? && t.exitPrice.value != 0
  }

  /** `GET /account`: the open P&L and the equity (balance plus open P&L). */
  method AccountPage(account: Account, trades: seq<Trade>) returns (openPnl: Cents, equity: Cents)
    ensures openPnl == TotalPnl(Filter(trades, CountsAsOpenPnl))
    ensures equity == account.balance + openPnl
  {
    openPnl := 0;
    for i := 0 to |trades|
      invariant openPnl == TotalPnl(Filter(trades[..i], CountsAsOpenPnl))
    {
      var t := trades[i];
      assert trades[..i + 1] == trades[..i] + [t];
      FilterSnoc(trades[..i], t, CountsAsOpenPnl);
      if t.status != Closed && t.exitPrice.Some? && t.exitPrice.value != 0 {
        TotalPnlSnoc(Filter(trades[..i], CountsAsOpenPnl), t);
        var pnl := CalculatePnl(t);
        if pnl.Some? && pnl.value != 0 {
          openPnl := openPnl + pnl.value;
        }
      }
    }
    assert trades[..|trades|] == trades;
    equity := account.balance + openPnl;
  }

  /**
   * Trades whose status follows their exit price contribute no open P&L, so the
   * equity shown is then the plain balance. Updates through the data-access
   * layer and the quick-close route leave a trade with an exit price CLOSED;
   * creating a trade does not (`Crud.CreateTrade`, `CrudBackup.CreateTrade` and
   * `CreateTradeRoute` store the submitted status alongside an exit price), and
   * such a trade is the only way the open P&L becomes non-zero.
   */
  lemma OpenPnlVanishesWhenStatusFollowsExit(trades: seq<Trade>)
    requires forall t :: t in trades && t.exitPrice.Some? ==> t.status == Closed
    ensures TotalPnl(Filter(trades, CountsAsOpenPnl)) == 0
  {
    FilterNone(trades, CountsAsOpenPnl);
  }

  /** One `TradeResponse` of `GET /api/trades`: the row's fields, id, creation time and P&L. */
  function ApiTrade(t: Trade): (r: TradeResponse)
    ensures Apply(t, r.base) == t
    ensures r.id == t.id && r.createdAt == t.createdAt
    ensures r.pnl.None? <==> t.exitPrice.None?
  {
    ApplyDumpIsIdentity(t);
    TradeResponse(Dump(t), t.id, t.createdAt, CalculatePnl(t))
  }

  /** `GET /api/trades`: one response per trade, in order. */
  function ApiListTrades(trades: seq<Trade>): (r: seq<TradeResponse>)
    ensures |r| == |trades|
    ensures forall i :: 0 <= i < |r| ==> r[i].id == trades[i].id && Apply(trades[i], r[i].base) == trades[i]
  {
    seq(|trades|, i requires 0 <= i < |trades| => ApiTrade(trades[i]))
  }
}
