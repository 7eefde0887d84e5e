/**
 * The persisted entities of the journal: the enumerations, a trade row, the
 * account singleton and a trader.
 *
 * Prices, strikes, fees and the balance are fixed-point decimals with two
 * places; they are held here as whole numbers of hundredths (cents).
 * Timestamps are opaque instants supplied by the caller.
 */
module Models {
  import opened Wrappers

  /** A decimal amount with two fractional digits, counted in hundredths. */
  type Cents = int

  type Timestamp = int

  datatype TradeStatus = Idea | Entered | Closed

  datatype TradingStyle = Swing | Daytrading

  /** `OPTION` is spelt OptionContract here, to keep it apart from `Option`. */
  datatype InstrumentType = OptionContract | Stock

  datatype Direction = Long | Short

  datatype OptionType = Call | Put

  /**
   * One trade row. `status` never is null; `exitPrice`, `strike`, `sl`, `tp`,
   * `notes`, `traderId` and `closedAt` are nullable. `entered` says whether the
   * owner actually took the position, independently of `status`.
   */
  datatype Trade = Trade(
    id: int,
    createdAt: Timestamp,
    status: TradeStatus,
    tradingStyle: TradingStyle,
    instrumentType: InstrumentType,
    ticker: string,
    direction: Direction,
    entered: bool,
    traderId: Option<int>,
    optionType: Option<OptionType>,
    expirationDate: Option<string>,
    strike: Option<Cents>,
    entryPrice: Cents,
    exitPrice: Option<Cents>,
    sl: Option<Cents>,
    tp: Option<Cents>,
    quantity: int,
    fees: Cents,
    notes: Option<string>,
    closedAt: Option<Timestamp>)

  /** The account singleton: the baseline capital and the price-source preference. */
  datatype Account = Account(balance: Cents, stockPriceProvider: Option<string>, updatedAt: Timestamp)

  /** A named bucket whose ideas can be watched and copied. */
  datatype Trader = Trader(id: int, name: string)

  /** The balance a freshly created account starts with: 10000.00. */
  const DefaultBalance: Cents := 1000000

  /** A recorded close time always belongs to a trade that has an exit price. */
  predicate ClosedAtNeedsExit(t: Trade)
  {
    t.closedAt.Some? ==> t.exitPrice.Some?
  }
}
