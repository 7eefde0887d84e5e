# Trader diary: a verified model of the trade-accounting core

The trader diary is a small web journal for stock and option trades. A trade
moves through the statuses IDEA, ENTERED and CLOSED. It has an entry price
and, once it is closed, an exit price. A trade can be marked as actually
entered by the owner, and it can be assigned to a named trader whose ideas
the owner watches. The journal computes each trade's profit and loss (P&L)
and keeps an account balance. It shows statistics: totals, wins, losses and
win rate, overall and per instrument, plus a "portfolio breakdown" with
one row for all traders, one for the owner's unassigned trades and one per
trader.

This project models that core in Dafny and proves properties of it.

- `models.dfy` (`Models`) holds the entities. A trade row and the account
  are values. Money is counted in whole hundredths (cents), because every
  stored amount has two decimal places.
- `schemas.dfy` (`Schemas`) holds the writable field set `TradeBase`. It
  also defines the two ways that field set meets a row:
  - `Construct` builds a new row from it.
  - `Apply` overwrites a row's fields with it.
- `database.dfy` (`Db`) stands for the database session. It is a class whose
  fields (the trade table as a map from id to row, the optional account row,
  the next id) are changed in place by the data-access methods.
- `accounting.dfy` (`Accounting`) holds the P&L formula and the note-marker
  classifiers `is_source_trade`/`is_copy_trade`. It also defines `TotalPnl`,
  the running sum that every loop in the system accumulates.
- `crud.dfy` (`Crud`) is the current data-access layer. It creates, updates
  and deletes trades, reads the account (creating it on first use) and
  updates it.
- `statistics.dfy` (`Statistics`) holds the statistics report:
  - specification functions (`StatisticsOf` and its parts);
  - the accumulator loops of `get_statistics`, `build_stats` and
    `sum_pnl`, written as methods and proved equal to those functions.
- `statistics_properties.dfy` (`StatisticsProperties`) proves what the
  report means: bounds, how the blocks add up, which trades are ignored,
  and how the portfolio rows relate.
- `crud_backup.dfy` (`CrudBackup`) is the older data-access layer kept
  beside the current one, with its simpler statistics. Its `calculate_pnl`
  (app/crud_backup.py:51-73) and `delete_trade` (app/crud_backup.py:43-49) are
  the same code as the current ones, so they are modelled once, by
  `Accounting.CalculatePnl` and `Crud.DeleteTrade`.
- `app.dfy` (`App`) covers the web routes that change or summarise trades:
  - the form-to-schema conversion;
  - the create, update, quick-close and delete routes;
  - the trade list with its running total;
  - the account page's open P&L and equity;
  - the JSON trade listing.
- `text.dfy` (`Text`) and `seqs.dfy` (`Seqs`) provide ASCII case mapping,
  substring search and an order-preserving list filter with its lemmas.
  `wrappers.dfy` provides `Option`.

The current time is a parameter wherever the source reads the clock.
Database queries are modelled as sequences of rows handed to the operation.

The model follows the code as written; in particular:
- `create_trade` stores the status it is given, even together with an exit
  price (app/crud.py:45).
- `update_trade` forces CLOSED when an exit price is present, but clearing the
  exit price leaves the submitted status as it is (app/crud.py:63-64).
- The quick-close route sets the exit price and the CLOSED status but records
  no close time (app/main.py:177-179).
- The account page's "open P&L" sums the P&L of trades that are not CLOSED
  but already have a non-zero exit price (app/main.py:199-204).
- `app/models.py` declares no `entered`, `trader_id`, `sl`, `tp` or
  `closed_at` column, no trader table and no price-provider column, yet
  `app/crud.py` and `app/schemas.py` use all of them. The model's trade row
  and account hold the union of the fields the code reads and writes.

## Model

| member | source | states |
|---|---|---|
| Accounting.CalculatePnl | app/crud.py:82-104 | the P&L is undefined exactly when the trade has no exit price |
| Accounting.PnlFormula | app/crud.py:82-104 | with an exit price, the P&L is sign x (exit - entry) x quantity x multiplier - fees, with sign -1 for short and multiplier 100 for options |
| Accounting.LongStockPnl | app/crud.py:87-104 | a long stock trade earns (exit - entry) x quantity - fees |
| Accounting.ShortMirrorsLong | app/crud.py:90-92 | before fees, the short P&L is the negation of the long one |
| Accounting.OptionScalesStock | app/crud.py:94-100 | before fees, an option earns 100 times the same stock trade |
| Accounting.FeesSubtract | app/crud.py:102 | fees reduce the P&L one for one in every direction and instrument |
| Accounting.PnlExamples | app/crud.py:82-104 | 100.00 -> 110.00 on 10 shares with 5.00 fees gives 95.00 long and -105.00 short; 2.00 -> 3.50 on two option contracts with 1.00 fees gives 299.00 |
| Accounting.IsSourceTrade | app/crud.py:106-109 | true iff the notes exist and their lower-cased text contains "source trade #"; absent or empty notes give false |
| Accounting.IsCopyTrade | app/crud.py:111-114 | true iff the notes exist and their lower-cased text contains "copy of trade #"; absent or empty notes give false |
| Accounting.MarkersIgnoreCase | app/crud.py:106-114 | upper-casing the notes changes neither classification |
| Accounting.MarkersAreIndependent | app/crud.py:106-114 | one note can be both a source and a copy marker; "trade #" alone is neither |
| Accounting.TotalPnlConcat | app/crud.py:198-204 | the running P&L total of two lists concatenated is the sum of their totals |
| Accounting.TotalPnlSplit | app/crud.py:198-204 | splitting a list by a predicate and its negation splits its P&L total |
| Schemas.NewTradeBase | app/schemas.py:6-23 | a schema built from its four required fields has status idea, direction long, not entered, no trader, quantity 1, fees 0 and every optional field null |
| Schemas.Construct | app/crud.py:45 | the new row's writable fields are exactly the schema dump; it has the given id and creation time and no close time |
| Schemas.Apply | app/crud.py:59-60 | after the setattr loop the row's writable fields equal the schema; id, creation time and close time are kept |
| Text.Lower | app/crud.py:109 | `str.lower()`: same length, and each character mapped by ASCII lower-casing |
| Text.Upper | app/main.py:61 | upper-casing keeps the length, leaves no lower-case letter, changes no other character and keeps the lower-cased text |
| Text.Contains | app/crud.py:109 | substring search: true iff the pattern occurs at some position |
| Seqs.Filter | app/crud.py:139 | a list comprehension `[t for t in s if f(t)]` is never longer than its input |
| Seqs.FilterMembers | app/crud.py:158-159 | an element is in the comprehension exactly when it is in the input and satisfies the condition |
| Seqs.FilterSnoc | app/crud.py:163 | the comprehension keeps input order: appending an element appends it to the result exactly when it satisfies the condition |
| Crud.CreateTrade | app/crud.py:44-53 | one new row under a fresh id with exactly the supplied fields and status; close time = creation time iff an exit price was given; a close time needs an exit price in every row before and after |
| Crud.UpdateTrade | app/crud.py:55-72 | unknown id: no change and no result. Otherwise the fields are the supplied ones, and the status is CLOSED if an exit price is present, else as supplied. The close time is set to now only when the first exit price arrives on a row without one; it is cleared with the exit price; otherwise it is kept. Other rows are unchanged |
| Crud.DeleteTrade | app/crud.py:74-80 | reports whether the id existed; afterwards exactly that id is gone |
| Crud.GetAccount | app/crud.py:116-124 | the existing account unchanged, or a new one with balance 10000.00 and the "auto" price provider |
| Crud.UpdateAccount | app/crud.py:126-131 | the account (created first if needed) gets the new balance; the provider is kept |
| Statistics.WinRate | app/crud.py:158-160 | 0 with no denominator; between 0 and 100 when wins do not exceed it; positive with at least one win |
| Statistics.Tally | app/crud.py:150-156 | a counted trade adds its P&L (zero when undefined) to the total, and one to the wins if positive or to the losses if negative |
| Statistics.AccumulateRealized | app/crud.py:141-156 | the loop skipping paper and source trades yields the P&L total, wins and losses of the owner's closed trades |
| Statistics.BuildStats | app/crud.py:162-192 | the per-instrument block equals its specification, with the win rate over every entered closed trade |
| Statistics.SumPnl | app/crud.py:198-204 | the loop's total equals the running P&L total of the list |
| Statistics.PortfolioBreakdown | app/crud.py:206-232 | the rows equal "All Traders", "Self (unassigned)" and one row per trader as specified |
| Statistics.GetStatistics | app/crud.py:133-247 | the whole report equals its specification `StatisticsOf` |
| StatisticsProperties.RealizedConcat | app/crud.py:145-158 | the owner's closed trades of two lists concatenated are the concatenation of theirs |
| StatisticsProperties.RealizedCommutes | app/crud.py:194-195 | selecting an instrument commutes with selecting the owner's closed trades |
| StatisticsProperties.OpenTradesHaveNoExit | app/crud.py:236-237 | open_trades is the number of trades without an exit price |
| StatisticsProperties.WinRateInRange | app/crud.py:145-160 | wins plus losses never exceed the owner's closed trades; the win rate lies in [0, 100] and is 0 when there are none |
| StatisticsProperties.ScopeWinRateCountsSourceTrades | app/crud.py:162-181 | a per-instrument denominator exceeds the owner's closed trades by exactly the entered closed source trades; its win rate stays in [0, 100] |
| StatisticsProperties.IgnoredTradeChangesNothing | app/crud.py:145-149 | a paper or source trade inserted anywhere changes neither the total P&L, wins, losses, win rate nor the "All Traders" and "Self" rows |
| StatisticsProperties.BreakEvenIsNeitherWinNorLoss | app/crud.py:150-156 | an owner's trade with zero P&L changes neither total, wins nor losses, only the denominator |
| StatisticsProperties.InstrumentBlocksAddUp | app/crud.py:194-195 | stock and option blocks add up to the overall trade, closed, open, P&L, win and loss figures |
| StatisticsProperties.TraderRowsAt | app/crud.py:224-232 | one trader row per trader, in order, over that trader's closed paper trades |
| StatisticsProperties.PortfolioRows | app/crud.py:206-232 | the breakdown is "All Traders", "Self (unassigned)", then the traders. "All Traders" carries the overall P&L. Every row's equity is balance plus P&L |
| StatisticsProperties.AllTradersIsSelfPlusAssigned | app/crud.py:206-222 | "All Traders" P&L and count are "Self" plus the owner's assigned closed trades |
| StatisticsProperties.EnteredTradeSkipsTraderRows | app/crud.py:224-232 | adding an entered trade leaves every trader row unchanged, while a closed non-source one moves "All Traders" by its P&L |
| StatisticsProperties.TraderRowsUnchanged | app/crud.py:224-232 | any two trade lists in which every trader has the same closed paper trades give the same trader rows |
| CrudBackup.CreateTrade | app/crud_backup.py:22-27 | one new row under a fresh id with exactly the supplied fields and no close time |
| CrudBackup.UpdateTrade | app/crud_backup.py:29-41 | unknown id: no change. Otherwise the fields are the supplied ones, the status is CLOSED when an exit price is present, and the close time is never touched |
| CrudBackup.GetAccount | app/crud_backup.py:75-83 | the existing account, or a new one with balance 10000.00 and no provider |
| CrudBackup.UpdateAccount | app/crud_backup.py:85-90 | the account gets the new balance |
| CrudBackup.GetStatistics | app/crud_backup.py:92-122 | the older report: every closed trade counts and the win rate divides by all of them |
| CrudBackup.BackupStatsBounds | app/crud_backup.py:97-117 | wins plus losses are at most the closed trades; the win rate is in [0, 100], 0 with nothing closed; open = trades without an exit price |
| CrudBackup.BackupAgreesWhenEveryTradeIsOwned | app/crud_backup.py:92-122 | with only entered non-source trades the older report equals the current top-level block |
| App.OrNone | app/main.py:63-67 | `x if x else None` for option type, expiration date, strike and exit price: a missing or empty value becomes null, a filled one is kept |
| App.FormToTradeBase | app/main.py:57-71 | the ticker is upper-cased; empty optional fields become null; entered, trader, stop-loss and take-profit take their defaults; the other fields are copied |
| App.CreateTradeRoute | app/main.py:38-74 | exactly one new row under the next id, created now, carrying the normalised form's fields; its close time is now iff an exit price was filled in, else none; other rows unchanged; redirect to the list |
| App.UpdateTradeRoute | app/main.py:128-164 | redirects even for an unknown id, which changes nothing. Otherwise the row's writable fields are the normalised form (upper-cased ticker, empty fields null, not entered, unassigned, no stop-loss or take-profit) except the status. The status is CLOSED with an exit price and as submitted without one. The close time is cleared without an exit price, set to now on the first exit price, and otherwise kept. Other rows are unchanged |
| App.CloseTrade | app/main.py:166-181 | unknown id: not found, no change; otherwise only the exit price and CLOSED status change |
| App.DeleteTradeRoute | app/main.py:183-190 | not found exactly when the id did not exist; afterwards it is gone; a close time still needs an exit price in every row |
| App.ListTrades | app/main.py:87-98 | one row per trade with its P&L, and the total equals the running P&L total |
| App.ListTotalVersusStatistics | app/main.py:87-98 | the list total is the statistics total plus the P&L of closed paper and source trades |
| App.TotalPnlWithoutExits | app/main.py:97-98 | trades without an exit price add nothing to the list total |
| App.AccountPage | app/main.py:198-206 | open P&L sums the not-CLOSED trades with a non-zero exit price; equity = balance + open P&L |
| App.OpenPnlVanishesWhenStatusFollowsExit | app/main.py:199-206 | when every trade with an exit price is CLOSED, the open P&L is 0 |
| App.ApiTrade | app/main.py:240-245 | the response's fields, written back onto the row, give the row again; id and creation time match; P&L is null iff there is no exit price |
| App.ApiListTrades | app/main.py:237-245 | one response per trade, in order, each a faithful copy of its row |

## Left out

- The SQL queries are not modelled: `get_trades` with its status/ticker/trader filters, ordering and the limit of 100 rows, and `get_trade`. Each operation receives the rows it reads; the id lookup is a map lookup.
- Trader management (`get_traders`, `create_trader`, `delete_trader`) is not modelled. The statistics take the trader list as a parameter, already in the name order the query returns.
- Page rendering, the HTML templates, `format_decimal`, the edit-form and home pages, static files and HTTP status codes are not modelled; a route returns a redirect target or "not found".
- Decimal parsing of form fields (and its failure on malformed input) is not modelled; the form arrives parsed. Status and enum strings outside the enumerations (which the schema's plain `str` would let through to the database) are not modelled.
- Statistics.WinRate: the ratio is exact; rounding to two decimals (`round(winrate, 2)`) and floating-point division are not modelled.
- Amounts finer than a hundredth, and the Numeric(10,2)/(12,2) magnitude bounds, are not modelled; amounts are unbounded whole hundredths.
- Seqs.Filter: its own contract states only the length bound. Membership and order are stated by the lemmas `Seqs.FilterMembers` and `Seqs.FilterSnoc`, because a quantified membership clause on the function makes the statistics loop proofs too expensive for the solver.
- Text.Upper and Text.Lower: case mapping covers ASCII letters only; non-ASCII case folding by `str.upper`/`str.lower` is not modelled.
- The clock (`datetime.utcnow`, the database's `now()`) is a parameter. Crud.UpdateAccount always refreshes `updatedAt`, whereas the database refreshes it only when a changed row is written.
- The account's numeric id and the `GET /api/account` and `POST /account/update` routes are not modelled beyond `UpdateAccount`. Reading the account inside `get_statistics` is the caller's step: the balance is a parameter.
- Schemas.Apply sets all writable fields at once; the order of the setattr loop is not observable and is not modelled.
- Copying a trader's idea into the owner's book and entering or un-entering a trade are not modelled; only the note markers they leave are.
- `app/config.py`, `app/static/script.js` and `app/crud_new.py` are not part of this model.
- Database transactions, commits, refreshes and concurrent sessions are not modelled; each operation is atomic.
