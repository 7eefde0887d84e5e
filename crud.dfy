/**
 * The state-changing operations of the current data-access layer: creating,
 * updating and deleting trades, and reading or changing the account.
 * The current time is a parameter.
 */
module Crud {
  import opened Wrappers
  import opened Models
  import opened Schemas
  import opened Db

  /**
   * `create_trade`: stores a new row holding exactly the supplied fields (the
   * status is kept as given, not derived from the exit price). A trade created
   * with an exit price is closed at its creation time.
   */
  method CreateTrade(db: Database, b: TradeCreate, now: Timestamp) returns (t: Trade)
    requires db.Valid()
    modifies db`trades, db`nextId
    ensures db.Valid()
    ensures t.id == old(db.nextId) && t.id !in old(db.trades)
    ensures db.trades == old(db.trades)[t.id := t]
    ensures Dump(t) == b && t.status == b.status && t.createdAt == now
    ensures t.closedAt == if b.exitPrice.Some? then Some(now) else None
    ensures ClosedAtNeedsExit(t)
    ensures old(db.ClosedAtConsistent()) ==> db.ClosedAtConsistent()
  {
    var row := Construct(db.nextId, now, b);
    db.trades := db.trades[row.id := row];
    db.nextId := db.nextId + 1;
    if row.exitPrice.Some? && row.closedAt.None? {
      row := row.(closedAt := Some(row.createdAt));
      db.trades := db.trades[row.id := row];
    }
    t := row;
  }

  /**
   * `update_trade`: replaces every writable field of an existing row. A row
   * that has an exit price afterwards is CLOSED; one that has none has no
   * close time. The close time is set to `now` only when the update brings the
   * first exit price to a row that had no close time; clearing the exit price
   * leaves the supplied status as it is. An unknown id changes nothing.
   */
  method UpdateTrade(db: Database, id: int, b: TradeUpdate, now: Timestamp) returns (r: Option<Trade>)
    requires db.Valid()
    modifies db`trades
    ensures db.Valid()
    ensures id !in old(db.trades) ==> r == None && db.trades == old(db.trades)
    ensures id in old(db.trades) ==> r.Some? && db.trades == old(db.trades)[id := r.value]
    ensures r.Some? ==>
      var before, t := old(db.trades)[id], r.value;
      && t.id == id && t.createdAt == before.createdAt
      && Dump(t) == b.(status := t.status)
      && (b.exitPrice.Some? ==> t.status == Closed)
      && (b.exitPrice.None? ==> t.status == b.status && t.closedAt == None)
      && (b.exitPrice.Some? && before.exitPrice.None? && before.closedAt.None? ==> t.closedAt == Some(now))
      && (b.exitPrice.Some? && !(before.exitPrice.None? && before.closedAt.None?) ==> t.closedAt == before.closedAt)
    ensures r.Some? ==> ClosedAtNeedsExit(r.value)
    ensures old(db.ClosedAtConsistent()) ==> db.ClosedAtConsistent()
  {
    if id !in db.trades {
      return None;
    }
    var row := db.trades[id];
    var hadExitPrice := row.exitPrice.Some?;
    row := Apply(row, b);
    if row.exitPrice.Some? && row.status != Closed {
      row := row.(status := Closed);
    }
    if !hadExitPrice && row.exitPrice.Some? && row.closedAt.None? {
      row := row.(closedAt := Some(now));
    }
    if row.exitPrice.None? && row.closedAt.Some? {
      row := row.(closedAt := None);
    }
    db.trades := db.trades[id := row];
    r := Some(row);
  }

  /** `delete_trade`: reports whether the id existed; afterwards it does not. */
  method DeleteTrade(db: Database, id: int) returns (deleted: bool)
    requires db.Valid()
    modifies db`trades
    ensures db.Valid()
    ensures deleted <==> id in old(db.trades)
    ensures db.trades == old(db.trades) - {id}
    ensures old(db.ClosedAtConsistent()) ==> db.ClosedAtConsistent()
  {
    deleted := id in db.trades;
    if deleted {
      db.trades := db.trades - {id};
    }
  }

  /**
   * `get_account`: the existing account, untouched, or a new one with a balance
   * of 10000.00 and the automatic stock price provider.
   */
  method GetAccount(db: Database, now: Timestamp) returns (a: Account)
    modifies db`account
    ensures db.account == Some(a)
    ensures old(db.account).Some? ==> a == old(db.account).value
    ensures old(db.account).None? ==> a == Account(DefaultBalance, Some("auto"), now)
  {
    if db.account.Some? {
      a := db.account.value;
    } else {
      a := Account(DefaultBalance, Some("auto"), now);
      db.account := Some(a);
    }
  }

  /** `update_account`: overwrites the balance and nothing else the caller set. */
  method UpdateAccount(db: Database, balance: Cents, now: Timestamp) returns (a: Account)
    modifies db`account
    ensures db.account == Some(a)
    ensures a.balance == balance && a.updatedAt == now
    ensures old(db.account).Some? ==> a.stockPriceProvider == old(db.account).value.stockPriceProvider
    ensures old(db.account).None? ==> a.stockPriceProvider == Some("auto")
  {
    a := GetAccount(db, now);
    a := a.(balance := balance, updatedAt := now);
    db.account := Some(a);
  }
}
