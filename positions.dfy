/** The position aggregator: one summary per symbol, read off that
    symbol's last ledger entry, keeping only symbols still held. */
module Positions {
  import opened Types
  import opened AcbLedger

  /** The summary a ledger entry gives for its symbol. */
  function Summarize(e: LedgerEntry): PositionSummary {
    PositionSummary(e.tx.symbol, e.sharesAfter, e.acbAfter, e.nativeCostAfter, e.tx.currency,
                    e.acbPerShare, e.tx.fxRate != 1.0, e.tx.fxRate)
  }

  /** Entry `i` is the last entry of `symbol` in `ledger`. */
  predicate IsLast(ledger: seq<LedgerEntry>, i: int, symbol: string) {
    && 0 <= i < |ledger| && ledger[i].tx.symbol == symbol
    && forall j :: i < j < |ledger| ==> ledger[j].tx.symbol != symbol
  }

  /** Some entry of `ledger` is for `symbol`. */
  predicate Mentions(ledger: seq<LedgerEntry>, symbol: string) {
    exists i :: 0 <= i < |ledger| && ledger[i].tx.symbol == symbol
  }

  /** The symbols of `ledger` in order of first appearance, each once: the
      key order of the record the aggregator fills. */
  function SymbolsInOrder(ledger: seq<LedgerEntry>): (syms: seq<string>)
    ensures forall s :: s in syms <==> Mentions(ledger, s)
    ensures forall j, k :: 0 <= j < k < |syms| ==> syms[j] != syms[k]
  {
    if |ledger| == 0 then []
    else
      var prev := SymbolsInOrder(ledger[..|ledger| - 1]);
      var s := ledger[|ledger| - 1].tx.symbol;
      assert forall i :: 0 <= i < |ledger| - 1 ==> ledger[..|ledger| - 1][i] == ledger[i];
      if s in prev then prev else prev + [s]
  }

  /** Dropping a last entry of another symbol keeps what is known of `symbol`. */
  lemma DropOtherLast(ledger: seq<LedgerEntry>, symbol: string)
    requires |ledger| > 0 && ledger[|ledger| - 1].tx.symbol != symbol
    ensures Mentions(ledger, symbol) <==> Mentions(ledger[..|ledger| - 1], symbol)
    ensures forall i :: IsLast(ledger[..|ledger| - 1], i, symbol) ==>
              IsLast(ledger, i, symbol) && ledger[..|ledger| - 1][i] == ledger[i]
  {
    assert forall i :: 0 <= i < |ledger| - 1 ==> ledger[..|ledger| - 1][i] == ledger[i];
  }

  /** The summary of the last entry of `symbol`, if it has one. */
  function LatestSummary(ledger: seq<LedgerEntry>, symbol: string): (r: Option<PositionSummary>)
    ensures r.Some? <==> Mentions(ledger, symbol)
    ensures r.Some? ==> exists i :: IsLast(ledger, i, symbol) && r.value == Summarize(ledger[i])
  {
    if |ledger| == 0 then None
    else if ledger[|ledger| - 1].tx.symbol == symbol then
      assert IsLast(ledger, |ledger| - 1, symbol);
      Some(Summarize(ledger[|ledger| - 1]))
    else
      DropOtherLast(ledger, symbol);
      LatestSummary(ledger[..|ledger| - 1], symbol)
  }

  /** The summaries whose share count is strictly positive, in order. */
  function KeepOpen(ps: seq<PositionSummary>): (r: seq<PositionSummary>)
    ensures forall p :: p in r <==> p in ps && p.totalShares > 0.0
    ensures (forall j, k :: 0 <= j < k < |ps| ==> ps[j].symbol != ps[k].symbol) ==>
              forall j, k :: 0 <= j < k < |r| ==> r[j].symbol != r[k].symbol
  {
    if |ps| == 0 then []
    else
      var rest := KeepOpen(ps[1..]);
      assert forall p :: p in ps <==> p == ps[0] || p in ps[1..];
      if ps[0].totalShares > 0.0 then
        assert (forall j, k :: 0 <= j < k < |ps| ==> ps[j].symbol != ps[k].symbol) ==>
                 forall p :: p in rest ==> p.symbol != ps[0].symbol by {
          if forall j, k :: 0 <= j < k < |ps| ==> ps[j].symbol != ps[k].symbol {
            forall p | p in rest ensures p.symbol != ps[0].symbol {
              var k :| 0 <= k < |ps[1..]| && ps[1..][k] == p;
              assert ps[k + 1] == p;
            }
          }
        }
        [ps[0]] + rest
      else rest
  }

  /** The latest summary of every symbol, in order of first appearance:
      the values of the record the aggregator fills. */
  function LatestSummaries(ledger: seq<LedgerEntry>): (r: seq<PositionSummary>)
    ensures |r| == |SymbolsInOrder(ledger)|
    ensures forall k :: 0 <= k < |r| ==>
              && r[k].symbol == SymbolsInOrder(ledger)[k]
              && exists i :: IsLast(ledger, i, r[k].symbol) && r[k] == Summarize(ledger[i])
  {
    var syms := SymbolsInOrder(ledger);
    seq(|syms|, k requires 0 <= k < |syms| => LatestSummary(ledger, syms[k]).value)
  }

  /** What `getPositionsSummary` returns for `ledger`. */
  function OpenPositions(ledger: seq<LedgerEntry>): seq<PositionSummary> {
    KeepOpen(LatestSummaries(ledger))
  }

  /** Extending the ledger by entry `i` appends its symbol if it is new. */
  lemma SymbolsInOrderStep(ledger: seq<LedgerEntry>, i: int)
    requires 0 <= i < |ledger|
    ensures var s := ledger[i].tx.symbol;
            var prev := SymbolsInOrder(ledger[..i]);
            SymbolsInOrder(ledger[..i + 1]) == if s in prev then prev else prev + [s]
  {
    assert ledger[..i + 1][..i] == ledger[..i];
  }

  /** Extending the ledger by entry `i` makes it the latest of its symbol
      and changes nothing for the others. */
  lemma LatestSummaryStep(ledger: seq<LedgerEntry>, i: int, symbol: string)
    requires 0 <= i < |ledger|
    ensures LatestSummary(ledger[..i + 1], symbol) ==
              if ledger[i].tx.symbol == symbol then Some(Summarize(ledger[i])) else LatestSummary(ledger[..i], symbol)
  {
    assert ledger[..i + 1][..i] == ledger[..i];
  }

  /** Keeps the latest summary per symbol in a record, then returns the
      record's values whose share count is positive. */
  method GetPositionsSummary(ledger: seq<LedgerEntry>) returns (positions: seq<PositionSummary>)
    ensures positions == OpenPositions(ledger)
  {
    var summaries: map<string, PositionSummary> := map[];
    var order: seq<string> := [];
    for i := 0 to |ledger|
      invariant order == SymbolsInOrder(ledger[..i])
      invariant forall s :: s in summaries <==> s in order
      invariant forall s :: s in summaries ==> Some(summaries[s]) == LatestSummary(ledger[..i], s)
    {
      var entry := ledger[i];
      if entry.tx.symbol !in summaries {
        order := order + [entry.tx.symbol];
      }
      summaries := summaries[entry.tx.symbol := PositionSummary(
        entry.tx.symbol, entry.sharesAfter, entry.acbAfter, entry.nativeCostAfter, entry.tx.currency,
        entry.acbPerShare, entry.tx.fxRate != 1.0, entry.tx.fxRate)];
      SymbolsInOrderStep(ledger, i);
      forall s | s in summaries ensures Some(summaries[s]) == LatestSummary(ledger[..i + 1], s) {
        LatestSummaryStep(ledger, i, s);
      }
    }
    assert ledger[..|ledger|] == ledger;
    var values := seq(|order|, k requires 0 <= k < |order| => assert order[k] in order; summaries[order[k]]);
    assert values == LatestSummaries(ledger);
    positions := KeepOpen(values);
  }

  // ---------------------------------------------------------------------
  // Properties
  // ---------------------------------------------------------------------

  /** Every summary returned holds a positive share count and is the
      summary of its symbol's last entry: the last fx rate, and the foreign
      flag set exactly when that rate differs from 1. */
  lemma PositionsAreLatestOpen(ledger: seq<LedgerEntry>)
    ensures forall p :: p in OpenPositions(ledger) ==>
              && p.totalShares > 0.0
              && exists i :: IsLast(ledger, i, p.symbol) && p == Summarize(ledger[i])
                             && p.lastFxRate == ledger[i].tx.fxRate
                             && (p.isForeign <==> ledger[i].tx.fxRate != 1.0)
  {
    var values := LatestSummaries(ledger);
    forall p | p in OpenPositions(ledger)
      ensures exists i :: IsLast(ledger, i, p.symbol) && p == Summarize(ledger[i])
    {
      var k :| 0 <= k < |values| && values[k] == p;
    }
  }

  /** The last entry of a symbol is unique. */
  lemma LastIsUnique(ledger: seq<LedgerEntry>, i: int, j: int, symbol: string)
    requires IsLast(ledger, i, symbol) && IsLast(ledger, j, symbol)
    ensures i == j
  {
  }

  /** A symbol whose last entry holds a positive share count is summarized. */
  lemma PositionsCoverHeldSymbols(ledger: seq<LedgerEntry>)
    ensures forall i :: 0 <= i < |ledger| && IsLast(ledger, i, ledger[i].tx.symbol) && ledger[i].sharesAfter > 0.0 ==>
              Summarize(ledger[i]) in OpenPositions(ledger)
  {
    var syms := SymbolsInOrder(ledger);
    var values := LatestSummaries(ledger);
    forall i | 0 <= i < |ledger| && IsLast(ledger, i, ledger[i].tx.symbol) && ledger[i].sharesAfter > 0.0
      ensures Summarize(ledger[i]) in OpenPositions(ledger)
    {
      var s := ledger[i].tx.symbol;
      assert Mentions(ledger, s);
      var k :| 0 <= k < |syms| && syms[k] == s;
      var j :| IsLast(ledger, j, s) && values[k] == Summarize(ledger[j]);
      LastIsUnique(ledger, i, j, s);
      assert values[k] in values;
    }
  }

  /** No symbol is summarized twice. */
  lemma PositionsDistinct(ledger: seq<LedgerEntry>)
    ensures forall j, k :: 0 <= j < k < |OpenPositions(ledger)| ==>
              OpenPositions(ledger)[j].symbol != OpenPositions(ledger)[k].symbol
  {
    var values := LatestSummaries(ledger);
    assert forall j, k :: 0 <= j < k < |values| ==> values[j].symbol != values[k].symbol;
  }

  /** The latest summary of a symbol reports the pool its last entry left. */
  lemma {:induction false} LatestSummaryIsLastPool(ledger: seq<LedgerEntry>, symbol: string)
    ensures match LatestSummary(ledger, symbol)
            case None => LastPool(ledger, symbol) == EmptyPool
            case Some(p) => LastPool(ledger, symbol) == Pool(p.totalShares, p.totalACB, p.totalNativeCost)
  {
    if |ledger| > 0 && ledger[|ledger| - 1].tx.symbol != symbol {
      LatestSummaryIsLastPool(ledger[..|ledger| - 1], symbol);
    }
  }

  /** On the ledger of `transactions`, the summaries report exactly the
      pools the engine ends with: a symbol is summarized if and only if its
      final pool holds a positive share count, and then with that pool. */
  lemma PositionsMatchFinalPools(transactions: seq<RawTransaction>)
    ensures var sorted := SortByTime(transactions);
            var pools := Fold(sorted, sorted).positions;
            && (forall p :: p in OpenPositions(Ledger(transactions)) ==>
                  PoolOf(pools, p.symbol) == Pool(p.totalShares, p.totalACB, p.totalNativeCost))
            && (forall s :: PoolOf(pools, s).shares > 0.0 <==>
                  exists p :: p in OpenPositions(Ledger(transactions)) && p.symbol == s)
  {
    var sorted := SortByTime(transactions);
    var pools := Fold(sorted, sorted).positions;
    var l := Ledger(transactions);
    FoldPositions(sorted, sorted);
    PositionsAreLatestOpen(l);
    PositionsCoverHeldSymbols(l);
    forall p | p in OpenPositions(l)
      ensures PoolOf(pools, p.symbol) == Pool(p.totalShares, p.totalACB, p.totalNativeCost)
    {
      var i :| IsLast(l, i, p.symbol) && p == Summarize(l[i]);
      LatestSummaryIsLastPool(l, p.symbol);
    }
    forall s | PoolOf(pools, s).shares > 0.0
      ensures exists p :: p in OpenPositions(l) && p.symbol == s
    {
      LatestSummaryIsLastPool(l, s);
      var p := LatestSummary(l, s).value;
      var i :| IsLast(l, i, s) && p == Summarize(l[i]);
      assert Summarize(l[i]) in OpenPositions(l);
    }
  }
}
