/** The adjusted-cost-base engine: orders the transactions by time and folds
    them, one per-symbol cost pool at a time, into a ledger of before/after
    snapshots, realizing a gain or loss on each sale and denying losses that
    the superficial-loss rule catches. */
module AcbLedger {
  import opened Types
  import opened StableSort

  /** A share count of smaller magnitude is treated as zero. */
  const ZeroTolerance: real := 0.000001
  /** One day in milliseconds; day arithmetic is a fixed offset here. */
  const DayMs: int := 86_400_000
  /** Half-width, in days, of the superficial-loss window. */
  const WindowDays: int := 30

  /** The per-symbol accumulator: shares held, their cost base in the home
      currency and their cost in the native currency. */
  datatype Pool = Pool(shares: real, acb: real, nativeCost: real)

  const EmptyPool: Pool := Pool(0.0, 0.0, 0.0)

  /** A pool the engine may store: exactly empty, or holding a share count
      of magnitude at least `ZeroTolerance`. */
  predicate Normal(p: Pool) {
    p == EmptyPool || Abs(p.shares) >= ZeroTolerance
  }

  // ---------------------------------------------------------------------
  // Amounts derived from one transaction
  // ---------------------------------------------------------------------

  /** Home-currency cost of buying: price and commission, both converted. */
  function TotalCost(tx: RawTransaction): real {
    tx.quantity * tx.price * tx.fxRate + tx.commission * tx.fxRate
  }

  /** Home-currency proceeds of selling, net of commission. */
  function Proceeds(tx: RawTransaction): real {
    tx.quantity * tx.price * tx.fxRate - tx.commission * tx.fxRate
  }

  /** Native-currency cost of buying. */
  function NativeCostChange(tx: RawTransaction): real {
    tx.quantity * tx.price + tx.commission
  }

  /** The share of the cost base a sale releases. */
  function Released(before: Pool, tx: RawTransaction): real
    requires before.shares > 0.0
  {
    (tx.quantity / before.shares) * before.acb
  }

  /** The share of the native cost a sale releases. */
  function ReleasedNative(before: Pool, tx: RawTransaction): real
    requires before.shares > 0.0
  {
    (tx.quantity / before.shares) * before.nativeCost
  }

  /** Realized gain (negative: loss) of a sale before any superficial-loss
      adjustment. */
  function SaleGain(before: Pool, tx: RawTransaction): real
    requires before.shares > 0.0
  {
    Proceeds(tx) - Released(before, tx)
  }

  // ---------------------------------------------------------------------
  // Ordering and the superficial-loss window
  // ---------------------------------------------------------------------

  function ByTime(tx: RawTransaction): int {
    tx.dateTime
  }

  /** The processing order: stable ascending sort by timestamp. */
  function SortByTime(transactions: seq<RawTransaction>): seq<RawTransaction> {
    SortBy(transactions, ByTime)
  }

  /** `t` lies within `WindowDays` days of `saleTime`, both ends included. */
  predicate InWindow(t: int, saleTime: int) {
    saleTime - WindowDays * DayMs <= t <= saleTime + WindowDays * DayMs
  }

  /** `other` is a purchase of the sold symbol inside the sale's window. */
  predicate Reacquires(other: RawTransaction, sale: RawTransaction) {
    other.symbol == sale.symbol && other.kind == Buy && InWindow(other.dateTime, sale.dateTime)
  }

  /** Whether any transaction of `all`, earlier or later than the sale,
      reacquires the sold symbol inside the window. */
  function HasReacquisition(all: seq<RawTransaction>, sale: RawTransaction): (found: bool)
    ensures found <==> exists o :: o in all && Reacquires(o, sale)
  {
    if |all| == 0 then false
    else
      assert forall o :: o in all <==> o == all[0] || o in all[1..];
      Reacquires(all[0], sale) || HasReacquisition(all[1..], sale)
  }

  // ---------------------------------------------------------------------
  // One transaction
  // ---------------------------------------------------------------------

  /** The pool, realized amount and flag a transaction produces before the
      zero normalization. */
  datatype Step = Step(after: Pool, realized: real, superficial: bool)

  function Transition(before: Pool, tx: RawTransaction, all: seq<RawTransaction>): Step {
    match tx.kind
    case Buy =>
      Step(Pool(before.shares + tx.quantity, before.acb + TotalCost(tx),
                before.nativeCost + NativeCostChange(tx)), 0.0, false)
    case Sell =>
      if before.shares > 0.0 then
        var gain := SaleGain(before, tx);
        var left := Pool(before.shares - tx.quantity, before.acb - Released(before, tx),
                         before.nativeCost - ReleasedNative(before, tx));
        if gain < 0.0 && HasReacquisition(all, tx) && left.shares > 0.0 then
          Step(left.(acb := left.acb + Abs(gain)), 0.0, true)
        else
          Step(left, gain, false)
      else
        Step(before, 0.0, false)
    case Split =>
      Step(Pool(before.shares + tx.quantity, before.acb, before.nativeCost), 0.0, false)
  }

  /** Resets a pool whose share count is effectively zero. The result is the
      unique normal pool that is either `p` itself or empty. */
  function Normalize(p: Pool): (q: Pool)
    ensures Normal(q)
    ensures q == p || q == EmptyPool
    ensures Normal(p) ==> q == p
  {
    if Abs(p.shares) < ZeroTolerance then EmptyPool else p
  }

  /** Cost base per share of a pool; zero unless shares are positive. */
  function PerShare(p: Pool): real {
    if p.shares > 0.0 then p.acb / p.shares else 0.0
  }

  function PoolBefore(e: LedgerEntry): Pool {
    Pool(e.sharesBefore, e.acbBefore, e.nativeCostBefore)
  }

  function PoolAfter(e: LedgerEntry): Pool {
    Pool(e.sharesAfter, e.acbAfter, e.nativeCostAfter)
  }

  /** The ledger entry of `tx` applied to the pool `before`. */
  function Entry(before: Pool, tx: RawTransaction, all: seq<RawTransaction>): (e: LedgerEntry)
    ensures e.tx == tx && PoolBefore(e) == before
    ensures Normal(PoolAfter(e))
  {
    var step := Transition(before, tx, all);
    var after := Normalize(step.after);
    LedgerEntry(tx, before.acb, after.acb, before.shares, after.shares, PerShare(after),
                before.nativeCost, after.nativeCost, step.realized, step.superficial, None)
  }

  // ---------------------------------------------------------------------
  // The fold
  // ---------------------------------------------------------------------

  /** The engine's state: the pool of every symbol seen so far, and the
      entries emitted so far. */
  datatype FoldState = FoldState(positions: map<string, Pool>, ledger: seq<LedgerEntry>)

  /** The pool of `symbol`, an absent symbol starting from the empty pool. */
  function PoolOf(positions: map<string, Pool>, symbol: string): Pool {
    if symbol in positions then positions[symbol] else EmptyPool
  }

  /** The state after processing `txs` in order; `all` is the complete input
      that the superficial-loss rule consults. */
  function Fold(txs: seq<RawTransaction>, all: seq<RawTransaction>): FoldState {
    if |txs| == 0 then FoldState(map[], [])
    else
      var st := Fold(txs[..|txs| - 1], all);
      var tx := txs[|txs| - 1];
      var e := Entry(PoolOf(st.positions, tx.symbol), tx, all);
      FoldState(st.positions[tx.symbol := PoolAfter(e)], st.ledger + [e])
  }

  /** The ledger `calculateACB` returns for `transactions`. */
  function Ledger(transactions: seq<RawTransaction>): seq<LedgerEntry> {
    var sorted := SortByTime(transactions);
    Fold(sorted, sorted).ledger
  }

  /** The transactions the entries of a ledger were made from. */
  function Txs(ledger: seq<LedgerEntry>): seq<RawTransaction> {
    seq(|ledger|, i requires 0 <= i < |ledger| => ledger[i].tx)
  }

  /** The pool after the last entry of `symbol` in `ledger`, or the empty
      pool when `symbol` has no entry. */
  function LastPool(ledger: seq<LedgerEntry>, symbol: string): Pool {
    if |ledger| == 0 then EmptyPool
    else if ledger[|ledger| - 1].tx.symbol == symbol then PoolAfter(ledger[|ledger| - 1])
    else LastPool(ledger[..|ledger| - 1], symbol)
  }

  /** The body of the per-transaction pass: from the pool of the
      transaction's symbol, computes its entry (acbLogic.ts, lines 16-92). */
  method ProcessTransaction(pos: Pool, tx: RawTransaction, sorted: seq<RawTransaction>)
    returns (entry: LedgerEntry)
    ensures entry == Entry(pos, tx, sorted)
  {
    ghost var step := Transition(pos, tx, sorted);
    var sharesBefore, acbBefore, nativeCostBefore := pos.shares, pos.acb, pos.nativeCost;

    var acbAfter, sharesAfter, nativeCostAfter := acbBefore, sharesBefore, nativeCostBefore;
    var realizedGainLoss := 0.0;
    var isSuperficial := false;

    var totalCost := tx.quantity * tx.price * tx.fxRate + tx.commission * tx.fxRate;
    var proceeds := tx.quantity * tx.price * tx.fxRate - tx.commission * tx.fxRate;
    var nativeCostChange := tx.quantity * tx.price + tx.commission;

    match tx.kind {
      case Buy =>
        sharesAfter := sharesAfter + tx.quantity;
        acbAfter := acbAfter + totalCost;
        nativeCostAfter := nativeCostAfter + nativeCostChange;
        assert Step(Pool(sharesAfter, acbAfter, nativeCostAfter), realizedGainLoss, isSuperficial) == step;
      case Sell =>
        if sharesBefore > 0.0 {
          var ratio := tx.quantity / sharesBefore;
          var costOfSoldShares := ratio * acbBefore;
          var nativeCostOfSoldShares := ratio * nativeCostBefore;
          realizedGainLoss := proceeds - costOfSoldShares;
          sharesAfter := sharesAfter - tx.quantity;
          acbAfter := acbAfter - costOfSoldShares;
          nativeCostAfter := nativeCostAfter - nativeCostOfSoldShares;
          ReleasedByRatio(pos, tx, ratio);
          if realizedGainLoss < 0.0 {
            var hasReacquisition := HasReacquisition(sorted, tx);
            if hasReacquisition && sharesAfter > 0.0 {
              isSuperficial := true;
              acbAfter := acbAfter + Abs(realizedGainLoss);
              realizedGainLoss := 0.0;
            }
          }
        }
        assert Step(Pool(sharesAfter, acbAfter, nativeCostAfter), realizedGainLoss, isSuperficial) == step;
      case Split =>
        sharesAfter := sharesBefore + tx.quantity;
        acbAfter := acbBefore;
        nativeCostAfter := nativeCostBefore;
        assert Step(Pool(sharesAfter, acbAfter, nativeCostAfter), realizedGainLoss, isSuperficial) == step;
    }

    assert Pool(sharesAfter, acbAfter, nativeCostAfter) == step.after;
    if Abs(sharesAfter) < ZeroTolerance {
      sharesAfter, acbAfter, nativeCostAfter := 0.0, 0.0, 0.0;
    }
    assert Pool(sharesAfter, acbAfter, nativeCostAfter) == Normalize(step.after);

    entry := LedgerEntry(tx, acbBefore, acbAfter, sharesBefore, sharesAfter,
                         if sharesAfter > 0.0 then acbAfter / sharesAfter else 0.0,
                         nativeCostBefore, nativeCostAfter,
                         realizedGainLoss, isSuperficial, None);
  }

  lemma ReleasedByRatio(pos: Pool, tx: RawTransaction, ratio: real)
    requires pos.shares > 0.0 && ratio == tx.quantity / pos.shares
    ensures ratio * pos.acb == Released(pos, tx)
    ensures ratio * pos.nativeCost == ReleasedNative(pos, tx)
    ensures tx.quantity * tx.price * tx.fxRate - tx.commission * tx.fxRate - ratio * pos.acb == SaleGain(pos, tx)
  {
  }

  /** The pass over the sorted transactions: keeps a pool per symbol,
      updates the pool of each transaction's symbol and appends an entry. */
  method ProcessSorted(sorted: seq<RawTransaction>) returns (ledger: seq<LedgerEntry>)
    ensures ledger == Fold(sorted, sorted).ledger
  {
    var positions: map<string, Pool> := map[];
    ledger := [];
    var i := 0;
    while i < |sorted|
      invariant 0 <= i <= |sorted|
      invariant FoldState(positions, ledger) == Fold(sorted[..i], sorted)
    {
      var tx := sorted[i];
      // A symbol met for the first time starts from an empty pool; the source
      // stores that pool in the map first, but the write below replaces it.
      var pos := if tx.symbol in positions then positions[tx.symbol] else Pool(0.0, 0.0, 0.0);
      var entry := ProcessTransaction(pos, tx, sorted);
      FoldAdvance(sorted, sorted, i, positions, ledger, entry);
      positions := positions[tx.symbol := Pool(entry.sharesAfter, entry.acbAfter, entry.nativeCostAfter)];
      ledger := ledger + [entry];
      i := i + 1;
    }
    assert sorted[..|sorted|] == sorted;
  }

  /** Computes the ledger: a stable sort by time, then the pass. */
  method CalculateACB(transactions: seq<RawTransaction>) returns (ledger: seq<LedgerEntry>)
    ensures ledger == Ledger(transactions)
    ensures |ledger| == |transactions|
    ensures Txs(ledger) == SortByTime(transactions)
  {
    var sorted := SortByTime(transactions);
    ledger := ProcessSorted(sorted);
    FoldEntries(sorted, sorted);
  }

  // ---------------------------------------------------------------------
  // Properties of the fold
  // ---------------------------------------------------------------------

  /** The fold consumes its input one transaction at a time. */
  lemma FoldStep(txs: seq<RawTransaction>, tx: RawTransaction, all: seq<RawTransaction>)
    ensures var st := Fold(txs, all);
            var e := Entry(PoolOf(st.positions, tx.symbol), tx, all);
            Fold(txs + [tx], all) == FoldState(st.positions[tx.symbol := PoolAfter(e)], st.ledger + [e])
  {
    assert (txs + [tx])[..|txs|] == txs;
  }

  /** The loop step of the pass: appending the next transaction's entry to
      the state after a prefix gives the state after the longer prefix. */
  lemma FoldAdvance(txs: seq<RawTransaction>, all: seq<RawTransaction>, i: int,
                    positions: map<string, Pool>, ledger: seq<LedgerEntry>, entry: LedgerEntry)
    requires 0 <= i < |txs|
    requires FoldState(positions, ledger) == Fold(txs[..i], all)
    requires entry == Entry(PoolOf(positions, txs[i].symbol), txs[i], all)
    ensures FoldState(positions[txs[i].symbol := PoolAfter(entry)], ledger + [entry]) == Fold(txs[..i + 1], all)
  {
    FoldStep(txs[..i], txs[i], all);
    assert txs[..i + 1] == txs[..i] + [txs[i]];
  }

  /** One entry per processed transaction, in processing order, each entry
      being the transition of its own transaction from its own before-pool. */
  lemma {:induction false} FoldEntries(txs: seq<RawTransaction>, all: seq<RawTransaction>)
    ensures |Fold(txs, all).ledger| == |txs|
    ensures Txs(Fold(txs, all).ledger) == txs
    ensures forall i :: 0 <= i < |txs| ==>
              Fold(txs, all).ledger[i] == Entry(PoolBefore(Fold(txs, all).ledger[i]), txs[i], all)
  {
    if |txs| > 0 {
      var n := |txs| - 1;
      FoldEntries(txs[..n], all);
      var prev := Fold(txs[..n], all).ledger;
      var l := Fold(txs, all).ledger;
      assert l == prev + [Entry(PoolOf(Fold(txs[..n], all).positions, txs[n].symbol), txs[n], all)];
      forall i | 0 <= i < |txs| ensures l[i] == Entry(PoolBefore(l[i]), txs[i], all) && l[i].tx == txs[i] {
        if i < n {
          assert l[i] == prev[i] && txs[..n][i] == txs[i];
        }
      }
    }
  }

  /** Processing a transaction leaves the pool of every other symbol as it was. */
  lemma StepIsolation(txs: seq<RawTransaction>, tx: RawTransaction, all: seq<RawTransaction>, other: string)
    requires other != tx.symbol
    ensures PoolOf(Fold(txs + [tx], all).positions, other) == PoolOf(Fold(txs, all).positions, other)
  {
    FoldStep(txs, tx, all);
  }

  /** The stored map holds exactly the symbols seen so far, each with the
      pool its last entry left. */
  lemma {:induction false} FoldPositions(txs: seq<RawTransaction>, all: seq<RawTransaction>)
    ensures forall s :: PoolOf(Fold(txs, all).positions, s) == LastPool(Fold(txs, all).ledger, s)
    ensures forall s :: s in Fold(txs, all).positions <==> s in Symbols(txs)
  {
    if |txs| > 0 {
      var n := |txs| - 1;
      FoldPositions(txs[..n], all);
      FoldStep(txs[..n], txs[n], all);
      assert txs == txs[..n] + [txs[n]];
      var l := Fold(txs, all).ledger;
      assert l[..|l| - 1] == Fold(txs[..n], all).ledger;
    }
  }

  /** The symbols occurring in `txs`. */
  function Symbols(txs: seq<RawTransaction>): set<string> {
    set i | 0 <= i < |txs| :: txs[i].symbol
  }

  /** Chaining: each entry starts from the pool the previous entry of its
      symbol left, and a symbol's first entry starts from the empty pool. */
  lemma {:induction false} FoldChaining(txs: seq<RawTransaction>, all: seq<RawTransaction>)
    ensures |Fold(txs, all).ledger| == |txs|
    ensures forall i :: 0 <= i < |txs| ==>
              PoolBefore(Fold(txs, all).ledger[i]) == LastPool(Fold(txs, all).ledger[..i], txs[i].symbol)
  {
    if |txs| > 0 {
      var n := |txs| - 1;
      FoldChaining(txs[..n], all);
      FoldPositions(txs[..n], all);
      var st := Fold(txs[..n], all);
      var prev := st.ledger;
      var l := Fold(txs, all).ledger;
      assert l == prev + [Entry(PoolOf(st.positions, txs[n].symbol), txs[n], all)];
      forall i | 0 <= i < |txs|
        ensures PoolBefore(l[i]) == LastPool(l[..i], txs[i].symbol)
      {
        if i < n {
          assert l[..i] == prev[..i] && l[i] == prev[i] && txs[..n][i] == txs[i];
        } else {
          assert l[..i] == prev;
        }
      }
    }
  }

  /** A last pool is one of the ledger's after-pools, or the empty pool. */
  lemma {:induction false} LastPoolNormal(ledger: seq<LedgerEntry>, symbol: string)
    requires forall i :: 0 <= i < |ledger| ==> Normal(PoolAfter(ledger[i]))
    ensures Normal(LastPool(ledger, symbol))
  {
    if |ledger| > 0 && ledger[|ledger| - 1].tx.symbol != symbol {
      LastPoolNormal(ledger[..|ledger| - 1], symbol);
    }
  }

  /** Every before- and after-pool of every entry is normal: exactly empty,
      or holding at least `ZeroTolerance` shares in magnitude. */
  lemma FoldPoolsNormal(txs: seq<RawTransaction>, all: seq<RawTransaction>)
    ensures |Fold(txs, all).ledger| == |txs|
    ensures forall i :: 0 <= i < |txs| ==>
              Normal(PoolBefore(Fold(txs, all).ledger[i])) && Normal(PoolAfter(Fold(txs, all).ledger[i]))
  {
    FoldEntries(txs, all);
    FoldChaining(txs, all);
    var l := Fold(txs, all).ledger;
    forall i | 0 <= i < |txs| ensures Normal(PoolAfter(l[i])) {
      assert l[i] == Entry(PoolBefore(l[i]), txs[i], all);
    }
    forall i | 0 <= i < |txs| ensures Normal(PoolBefore(l[i])) {
      LastPoolNormal(l[..i], txs[i].symbol);
    }
  }
}
