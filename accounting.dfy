/**
 * The pure accounting rules of the journal: the P&L of one trade, the two
 * note-marker classifiers, and the sum of P&L over a list of trades.
 */
module Accounting {
  import opened Wrappers
  import opened Text
  import opened Models
  import opened Seqs

  /** One option contract covers 100 shares. */
  const ContractMultiplier: int := 100

  /** Note text that marks a trader's idea already copied into the owner's book. */
  const SourceMarker: string := "source trade #"

  /** Note text that marks the owner's copy of a trader's idea. */
  const CopyMarker: string := "copy of trade #"

  /**
   * The P&L of a trade: undefined while it has no exit price; otherwise the
   * price move, negated for a short position, times the quantity (and the
   * contract multiplier for options), minus the fees.
   */
  function CalculatePnl(t: Trade): (r: Option<Cents>)
    ensures r.None? <==> t.exitPrice.None?
  {
    if t.exitPrice.None? then
      None
    else
      var priceDiff := t.exitPrice.value - t.entryPrice;
      var signedDiff := if t.direction == Short then -priceDiff else priceDiff;
      var gross := if t.instrumentType == OptionContract
                   then signedDiff * t.quantity * ContractMultiplier
                   else signedDiff * t.quantity;
      Some(gross - t.fees)
  }

  /** +1 for a long position, -1 for a short one. */
  function DirectionSign(d: Direction): int
  {
    if d == Short then -1 else 1
  }

  /** The number of shares one unit of quantity stands for. */
  function UnitsPerQuantity(i: InstrumentType): int
  {
    if i == OptionContract then ContractMultiplier else 1
  }

  /**
   * The closed form of the P&L: sign x (exit - entry) x quantity x multiplier - fees,
   * where the sign is -1 for a short and the multiplier 100 for an option.
   */
  lemma PnlFormula(t: Trade)
    requires t.exitPrice.Some?
    ensures CalculatePnl(t) == Some(DirectionSign(t.direction) * (t.exitPrice.value - t.entryPrice)
                                    * t.quantity * UnitsPerQuantity(t.instrumentType) - t.fees)
  {
    var d := t.exitPrice.value - t.entryPrice;
    var s := DirectionSign(t.direction);
    assert (if t.direction == Short then -d else d) == s * d;
  }

  /** A long stock trade earns the price move times the quantity, less fees. */
  lemma LongStockPnl(t: Trade)
    requires t.exitPrice.Some? && t.direction == Long && t.instrumentType == Stock
    ensures CalculatePnl(t) == Some((t.exitPrice.value - t.entryPrice) * t.quantity - t.fees)
  {
  }

  /** Before fees, a short position earns exactly the negation of the long one. */
  lemma ShortMirrorsLong(t: Trade)
    requires t.exitPrice.Some?
    ensures CalculatePnl(t.(direction := Short)).value + t.fees
         == -(CalculatePnl(t.(direction := Long)).value + t.fees)
  {
    var d := t.exitPrice.value - t.entryPrice;
    assert (-d) * t.quantity == -(d * t.quantity);
    assert (-d) * t.quantity * ContractMultiplier == -(d * t.quantity * ContractMultiplier);
  }

  /** Before fees, an option earns 100 times what the same stock trade earns. */
  lemma OptionScalesStock(t: Trade)
    requires t.exitPrice.Some?
    ensures CalculatePnl(t.(instrumentType := OptionContract)).value + t.fees
         == ContractMultiplier * (CalculatePnl(t.(instrumentType := Stock)).value + t.fees)
  {
  }

  /** Fees always subtract, whatever the direction and the sign of the gross amount. */
  lemma FeesSubtract(t: Trade, fees: Cents)
    requires t.exitPrice.Some?
    ensures CalculatePnl(t.(fees := fees)).value == CalculatePnl(t.(fees := 0)).value - fees
  {
  }

  /** The worked examples: 100 -> 110, 10 shares, fees 5 gives 95 long and -105 short;
      a 2.00 -> 3.50 option, 2 contracts, fees 1 gives 299.00. */
  lemma PnlExamples(t: Trade)
    requires t.entryPrice == 10000 && t.exitPrice == Some(11000) && t.quantity == 10 && t.fees == 500
    requires t.instrumentType == Stock
    ensures CalculatePnl(t.(direction := Long)) == Some(9500)
    ensures CalculatePnl(t.(direction := Short)) == Some(-10500)
    ensures CalculatePnl(t.(direction := Long, instrumentType := OptionContract, entryPrice := 200,
                            exitPrice := Some(350), quantity := 2, fees := 100)) == Some(29900)
  {
  }

  /**
   * `is_source_trade`: the lower-cased notes contain "source trade #".
   * Absent or empty notes never match.
   */
  function IsSourceTrade(t: Trade): (b: bool)
    ensures b <==> t.notes.Some? && exists i :: OccursAt(Lower(t.notes.value), SourceMarker, i)
    ensures t.notes == None || t.notes == Some("") ==> !b
  {
    if t.notes.None? || t.notes.value == "" then false
    else Contains(Lower(t.notes.value), SourceMarker)
  }

  /**
   * `is_copy_trade`: the lower-cased notes contain "copy of trade #".
   * Absent or empty notes never match.
   */
  function IsCopyTrade(t: Trade): (b: bool)
    ensures b <==> t.notes.Some? && exists i :: OccursAt(Lower(t.notes.value), CopyMarker, i)
    ensures t.notes == None || t.notes == Some("") ==> !b
  {
    if t.notes.None? || t.notes.value == "" then false
    else Contains(Lower(t.notes.value), CopyMarker)
  }

  /** Both markers are matched regardless of the case the notes are written in. */
  lemma MarkersIgnoreCase(t: Trade, notes: string)
    ensures IsSourceTrade(t.(notes := Some(Upper(notes)))) == IsSourceTrade(t.(notes := Some(notes)))
    ensures IsCopyTrade(t.(notes := Some(Upper(notes)))) == IsCopyTrade(t.(notes := Some(notes)))
  {
  }

  lemma MarkersAreLowerCase()
    ensures Lower(SourceMarker) == SourceMarker
    ensures Lower(CopyMarker) == CopyMarker
  {
  }

  /** The two classifiers are independent: one note can carry both markers, or neither. */
  lemma MarkersAreIndependent(t: Trade)
    ensures IsSourceTrade(t.(notes := Some(SourceMarker + CopyMarker)))
    ensures IsCopyTrade(t.(notes := Some(SourceMarker + CopyMarker)))
    ensures !IsSourceTrade(t.(notes := Some("trade #")))
    ensures !IsCopyTrade(t.(notes := Some("trade #")))
  {
    var both := SourceMarker + CopyMarker;
    MarkersAreLowerCase();
    LowerConcat(SourceMarker, CopyMarker);
    assert both[..|SourceMarker|] == SourceMarker;
    assert OccursAt(both, SourceMarker, 0);
    assert both[|SourceMarker|..|SourceMarker| + |CopyMarker|] == CopyMarker;
    assert OccursAt(both, CopyMarker, |SourceMarker|);
  }

  /** A trade's P&L when it has one, and zero otherwise. */
  function PnlOrZero(t: Trade): Cents
  {
    match CalculatePnl(t)
    case Some(p) => p
    case None => 0
  }

  /**
   * The sum of every defined, non-zero P&L over `ts` (adding a zero or skipping
   * it comes to the same), accumulated from zero.
   */
  function TotalPnl(ts: seq<Trade>): Cents
  {
    if ts == [] then 0 else TotalPnl(ts[..|ts| - 1]) + PnlOrZero(ts[|ts| - 1])
  }

  lemma TotalPnlSnoc(ts: seq<Trade>, t: Trade)
    ensures TotalPnl(ts + [t]) == TotalPnl(ts) + PnlOrZero(t)
  {
    assert (ts + [t])[..|ts|] == ts;
  }

  lemma {:induction false} TotalPnlConcat(a: seq<Trade>, b: seq<Trade>)
    ensures TotalPnl(a + b) == TotalPnl(a) + TotalPnl(b)
    decreases |b|
  {
    if b == [] {
      assert a + b == a;
    } else {
      var b', x := b[..|b| - 1], b[|b| - 1];
      assert b == b' + [x];
      assert a + b == (a + b') + [x];
      TotalPnlSnoc(a + b', x);
      TotalPnlSnoc(b', x);
      TotalPnlConcat(a, b');
    }
  }

  /** Splitting a list by a predicate and its negation splits its total P&L. */
  lemma {:induction false} TotalPnlSplit(ts: seq<Trade>, f: Trade -> bool, g: Trade -> bool)
    requires forall t :: g(t) == !f(t)
    ensures TotalPnl(Filter(ts, f)) + TotalPnl(Filter(ts, g)) == TotalPnl(ts)
  {
    if ts != [] {
      var ts', x := ts[..|ts| - 1], ts[|ts| - 1];
      assert ts == ts' + [x];
      TotalPnlSplit(ts', f, g);
      FilterSnoc(ts', x, f);
      FilterSnoc(ts', x, g);
      TotalPnlSnoc(Filter(ts', f), x);
      TotalPnlSnoc(Filter(ts', g), x);
    }
  }
}
