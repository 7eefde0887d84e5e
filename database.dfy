/**
 * The storage behind the journal, reduced to what the accounting code sees:
 * the trade rows by primary key, the account singleton (absent until first
 * use) and the next key the trade sequence hands out.
 */
module Db {
  import opened Wrappers
  import opened Models

  class Database {
    var trades: map<int, Trade>
    var account: Option<Account>
    var nextId: int

    /** Every row is stored under its own id, and every id was handed out already. */
    ghost predicate Valid()
      reads this
    {
      forall id :: id in trades ==> trades[id].id == id && id < nextId
    }

    /** No stored trade has a close time without an exit price. */
    ghost predicate ClosedAtConsistent()
      reads this
    {
      forall id :: id in trades ==> ClosedAtNeedsExit(trades[id])
    }

    constructor ()
      ensures Valid() && ClosedAtConsistent()
      ensures trades == map[] && account == None && nextId == 1
    {
      trades := map[];
      account := None;
      nextId := 1;
    }
  }
}
