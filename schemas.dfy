/**
 * The request/response shapes of the trade API: the writable field set
 * `TradeBase` (which `TradeCreate` and `TradeUpdate` reuse without adding
 * anything) and `TradeResponse`.
 */
module Schemas {
  import opened Wrappers
  import opened Models

  /** Every field a client may write; `id`, `createdAt` and `closedAt` are not among them. */
  datatype TradeBase = TradeBase(
    status: TradeStatus,
    tradingStyle: TradingStyle,
    instrumentType: InstrumentType,
    ticker: string,
    direction: Direction,
    entered: bool,
    traderId: Option<int>,
    optionType: Option<OptionType>,
    expirationDate: Option<string>,
    strike: Option<Cents>,
    entryPrice: Cents,
    exitPrice: Option<Cents>,
    sl: Option<Cents>,
    tp: Option<Cents>,
    quantity: int,
    fees: Cents,
    notes: Option<string>)

  type TradeCreate = TradeBase

  type TradeUpdate = TradeBase

  /** A trade as the API returns it: its writable fields, its identity and its P&L. */
  datatype TradeResponse = TradeResponse(base: TradeBase, id: int, createdAt: Timestamp, pnl: Option<Cents>)

  /**
   * A `TradeBase` built from its four required fields; every other field takes
   * its declared default: status idea, direction long, not entered, no trader,
   * quantity 1, fees 0 and nothing else set.
   */
  function NewTradeBase(tradingStyle: TradingStyle, instrumentType: InstrumentType, ticker: string, entryPrice: Cents): (b: TradeBase)
    ensures b.tradingStyle == tradingStyle && b.instrumentType == instrumentType
    ensures b.ticker == ticker && b.entryPrice == entryPrice
    ensures b.status == Idea && b.direction == Long && !b.entered && b.traderId.None?
    ensures b.quantity == 1 && b.fees == 0
    ensures b.optionType.None? && b.expirationDate.None? && b.strike.None? && b.exitPrice.None?
    ensures b.sl.None? && b.tp.None? && b.notes.None?
  {
    TradeBase(Idea, tradingStyle, instrumentType, ticker, Long, false, None,
              None, None, None, entryPrice, None, None, None, 1, 0, None)
  }

  /**
   * The writable fields of a trade row, as `TradeResponse(**trade.__dict__)`
   * reads them off the row.
   */
  function Dump(t: Trade): TradeBase
  {
    TradeBase(t.status, t.tradingStyle, t.instrumentType, t.ticker, t.direction, t.entered, t.traderId,
              t.optionType, t.expirationDate, t.strike, t.entryPrice, t.exitPrice, t.sl, t.tp,
              t.quantity, t.fees, t.notes)
  }

  /**
   * `Trade(**b.model_dump())` with the identity the store hands out: the row
   * carries exactly the supplied fields and no close time yet.
   */
  function Construct(id: int, createdAt: Timestamp, b: TradeBase): (t: Trade)
    ensures Dump(t) == b
    ensures t.id == id && t.createdAt == createdAt && t.closedAt == None
  {
    Trade(id, createdAt, b.status, b.tradingStyle, b.instrumentType, b.ticker, b.direction, b.entered,
          b.traderId, b.optionType, b.expirationDate, b.strike, b.entryPrice, b.exitPrice, b.sl, b.tp,
          b.quantity, b.fees, b.notes, None)
  }

  /**
   * `setattr(t, key, value)` for every item of `b.model_dump()`: the row ends
   * up with exactly the supplied writable fields and keeps its identity, its
   * creation time and its close time.
   */
  function Apply(t: Trade, b: TradeBase): (r: Trade)
    ensures Dump(r) == b
    ensures r.id == t.id && r.createdAt == t.createdAt && r.closedAt == t.closedAt
  {
    t.(status := b.status, tradingStyle := b.tradingStyle, instrumentType := b.instrumentType,
       ticker := b.ticker, direction := b.direction, entered := b.entered, traderId := b.traderId,
       optionType := b.optionType, expirationDate := b.expirationDate, strike := b.strike,
       entryPrice := b.entryPrice, exitPrice := b.exitPrice, sl := b.sl, tp := b.tp,
       quantity := b.quantity, fees := b.fees, notes := b.notes)
  }

  /** Applying a row's own fields changes nothing: `Dump` and `Apply` are inverse. */
  lemma ApplyDumpIsIdentity(t: Trade)
    ensures Apply(t, Dump(t)) == t
  {
  }
}
