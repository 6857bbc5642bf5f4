/** What the ledger engine promises: the ledger follows the input, pools
    chain per symbol, every transition does what its kind says, the
    superficial-loss rule fires exactly when its conditions hold, and the
    corner cases the code lets through behave as stated here. */
module AcbProperties {
  import opened Types
  import opened StableSort
  import opened AcbLedger

  // ---------------------------------------------------------------------
  // The ledger as a whole
  // ---------------------------------------------------------------------

  /** One entry per input transaction; the entries carry the input
      transactions unchanged, ordered by ascending timestamp, with
      transactions of equal timestamp kept in input order. */
  lemma LedgerFollowsInput(transactions: seq<RawTransaction>)
    ensures |Ledger(transactions)| == |transactions|
    ensures multiset(Txs(Ledger(transactions))) == multiset(transactions)
    ensures forall i, j :: 0 <= i < j < |Ledger(transactions)| ==>
              Ledger(transactions)[i].tx.dateTime <= Ledger(transactions)[j].tx.dateTime
    ensures forall t :: WithKey(Txs(Ledger(transactions)), ByTime, t) == WithKey(transactions, ByTime, t)
  {
    var sorted := SortByTime(transactions);
    FoldEntries(sorted, sorted);
    assert Txs(Ledger(transactions)) == sorted;
    forall t ensures WithKey(sorted, ByTime, t) == WithKey(transactions, ByTime, t) {
      SortByIsStable(transactions, ByTime, t);
    }
    forall i, j | 0 <= i < j < |sorted| ensures Ledger(transactions)[i].tx.dateTime <= Ledger(transactions)[j].tx.dateTime {
      assert ByTime(sorted[i]) <= ByTime(sorted[j]);
    }
  }

  /** Every entry is its own transaction applied to its before-pool, the
      rule consulting the whole sorted input. */
  lemma LedgerSteps(transactions: seq<RawTransaction>)
    ensures |Ledger(transactions)| == |transactions|
    ensures forall i :: 0 <= i < |Ledger(transactions)| ==>
              Ledger(transactions)[i] ==
                Entry(PoolBefore(Ledger(transactions)[i]), Ledger(transactions)[i].tx, SortByTime(transactions))
  {
    var sorted := SortByTime(transactions);
    FoldEntries(sorted, sorted);
    forall i | 0 <= i < |sorted|
      ensures Ledger(transactions)[i].tx == sorted[i]
    {
      assert Txs(Ledger(transactions))[i] == sorted[i];
    }
  }

  /** Per-symbol chaining: an entry's before-pool is the after-pool of the
      previous entry of the same symbol, and the empty pool for the first. */
  lemma LedgerChaining(transactions: seq<RawTransaction>)
    ensures forall i :: 0 <= i < |Ledger(transactions)| ==>
              PoolBefore(Ledger(transactions)[i]) ==
                LastPool(Ledger(transactions)[..i], Ledger(transactions)[i].tx.symbol)
  {
    var sorted := SortByTime(transactions);
    FoldChaining(sorted, sorted);
    LedgerSteps(transactions);
    FoldEntries(sorted, sorted);
    forall i | 0 <= i < |sorted|
      ensures Ledger(transactions)[i].tx == sorted[i]
    {
      assert Txs(Ledger(transactions))[i] == sorted[i];
    }
  }

  /** Every pool in the ledger is exactly empty or holds at least
      `ZeroTolerance` shares in magnitude, and the per-share cost is the
      cost base divided by a positive share count, else zero. */
  lemma LedgerPoolsNormal(transactions: seq<RawTransaction>)
    ensures forall i :: 0 <= i < |Ledger(transactions)| ==>
              var e := Ledger(transactions)[i];
              Normal(PoolBefore(e)) && Normal(PoolAfter(e)) && Consistent(e)
  {
    var sorted := SortByTime(transactions);
    var l := Fold(sorted, sorted).ledger;
    assert Ledger(transactions) == l;
    assert forall i :: 0 <= i < |l| ==> Normal(PoolBefore(l[i])) && Normal(PoolAfter(l[i])) by {
      FoldPoolsNormal(sorted, sorted);
    }
    assert |l| == |sorted| && forall i :: 0 <= i < |l| ==> l[i] == Entry(PoolBefore(l[i]), sorted[i], sorted) by {
      FoldEntries(sorted, sorted);
    }
    forall i | 0 <= i < |l| ensures Consistent(l[i]) {
      EntryShape(PoolBefore(l[i]), sorted[i], sorted);
    }
  }

  /** The entry's pool is empty whenever it holds no shares, and its cost
      per share is the cost spread over a positive holding, zero otherwise. */
  predicate Consistent(e: LedgerEntry) {
    && (e.sharesAfter == 0.0 ==> e.acbAfter == 0.0 && e.nativeCostAfter == 0.0)
    && (e.sharesAfter > 0.0 ==> e.acbPerShare * e.sharesAfter == e.acbAfter)
    && (e.sharesAfter <= 0.0 ==> e.acbPerShare == 0.0)
  }

  lemma EntryShape(before: Pool, tx: RawTransaction, all: seq<RawTransaction>)
    ensures Consistent(Entry(before, tx, all))
  {
    var after := Normalize(Transition(before, tx, all).after);
    assert after.shares > 0.0 ==> (after.acb / after.shares) * after.shares == after.acb;
  }

  // ---------------------------------------------------------------------
  // One transaction
  // ---------------------------------------------------------------------

  /** A buy adds its quantity, its converted cost and its native cost; a
      split adds its signed quantity and keeps both costs; neither realizes
      anything nor is flagged. The entry's pool is that pool normalized. */
  lemma BuyAndSplitTransitions(before: Pool, tx: RawTransaction, all: seq<RawTransaction>)
    requires tx.kind != Sell
    ensures var step := Transition(before, tx, all);
            && step.after.shares == before.shares + tx.quantity
            && (tx.kind == Buy ==>
                  && step.after.acb == before.acb + tx.quantity * tx.price * tx.fxRate + tx.commission * tx.fxRate
                  && step.after.nativeCost == before.nativeCost + tx.quantity * tx.price + tx.commission)
            && (tx.kind == Split ==> step.after.acb == before.acb && step.after.nativeCost == before.nativeCost)
            && PoolAfter(Entry(before, tx, all)) == Normalize(step.after)
    ensures Entry(before, tx, all).realizedGainLoss == 0.0 && !Entry(before, tx, all).isSuperficial
  {
  }

  /** A sale from a pool without positive shares changes nothing. */
  lemma SellWithoutSharesIsNoOp(before: Pool, tx: RawTransaction, all: seq<RawTransaction>)
    requires tx.kind == Sell && before.shares <= 0.0 && Normal(before)
    ensures PoolAfter(Entry(before, tx, all)) == before
    ensures Entry(before, tx, all).realizedGainLoss == 0.0 && !Entry(before, tx, all).isSuperficial
  {
  }

  /** `(q / s) * s == q` for a positive `s`. */
  lemma RatioTimesShares(q: real, s: real)
    requires s > 0.0
    ensures (q / s) * s == q
  {
  }

  /** A sale from positive shares releases the proportional part of both
      costs: it removes `quantity` shares and leaves the per-share cost (home
      and native) unchanged unless the loss is denied; an undenied sale realizes
      the proceeds less the released cost. A denied loss is realized as
      zero and added back to the cost base; the native cost is never adjusted. */
  lemma SaleAccounting(before: Pool, tx: RawTransaction, all: seq<RawTransaction>)
    requires tx.kind == Sell && before.shares > 0.0
    ensures var step := Transition(before, tx, all);
            && step.after.shares == before.shares - tx.quantity
            && step.after.nativeCost == before.nativeCost - ReleasedNative(before, tx)
            && step.after.nativeCost * before.shares == before.nativeCost * step.after.shares
            && (!step.superficial ==>
                  && step.realized == SaleGain(before, tx)
                  && step.after.acb == before.acb - Released(before, tx)
                  && step.after.acb * before.shares == before.acb * step.after.shares)
            && (step.superficial ==>
                  && step.realized == 0.0
                  && step.after.acb == before.acb - Released(before, tx) + Abs(SaleGain(before, tx)))
  {
    var s, q := before.shares, tx.quantity;
    var r := q / s;
    RatioTimesShares(q, s);
    calc {
      (before.acb - r * before.acb) * s;
      before.acb * s - (r * s) * before.acb;
      before.acb * s - q * before.acb;
      before.acb * (s - q);
    }
    calc {
      (before.nativeCost - r * before.nativeCost) * s;
      before.nativeCost * s - (r * s) * before.nativeCost;
      before.nativeCost * (s - q);
    }
  }

  /** The superficial-loss rule: a sale is flagged exactly when it realizes
      a loss, some purchase of the same symbol lies in the window, and shares
      remain (before normalization). A flagged sale realizes zero and its
      loss is added back to the cost base; without a purchase in the window
      the loss is realized unchanged. */
  lemma SuperficialLossRule(before: Pool, tx: RawTransaction, all: seq<RawTransaction>)
    ensures Entry(before, tx, all).isSuperficial <==>
              && tx.kind == Sell && before.shares > 0.0 && SaleGain(before, tx) < 0.0
              && HasReacquisition(all, tx) && before.shares - tx.quantity > 0.0
    ensures Entry(before, tx, all).isSuperficial ==>
              && Entry(before, tx, all).realizedGainLoss == 0.0
              && (before.shares - tx.quantity >= ZeroTolerance ==>
                    && Entry(before, tx, all).acbAfter ==
                         before.acb - Released(before, tx) + Abs(SaleGain(before, tx))
                    && Entry(before, tx, all).nativeCostAfter ==
                         before.nativeCost - ReleasedNative(before, tx))
    ensures tx.kind == Sell && before.shares > 0.0 && !HasReacquisition(all, tx) ==>
              && Entry(before, tx, all).realizedGainLoss == SaleGain(before, tx)
              && !Entry(before, tx, all).isSuperficial
  {
  }

  /** Selling exactly the held shares empties the pool, realizes the
      proceeds less the whole cost base, and is never flagged. */
  lemma FullDisposalEmptiesPool(before: Pool, tx: RawTransaction, all: seq<RawTransaction>)
    requires tx.kind == Sell && before.shares > 0.0 && tx.quantity == before.shares
    ensures PoolAfter(Entry(before, tx, all)) == EmptyPool
    ensures Entry(before, tx, all).realizedGainLoss == Proceeds(tx) - before.acb
    ensures !Entry(before, tx, all).isSuperficial && Entry(before, tx, all).acbPerShare == 0.0
  {
    RatioTimesShares(tx.quantity, before.shares);
  }

  /** A sale leaving a positive share count below `ZeroTolerance` that
      would be denied is flagged and realizes zero, yet the pool is then
      emptied: the denied loss is neither realized nor carried forward. */
  lemma DustSaleDropsDeniedLoss(before: Pool, tx: RawTransaction, all: seq<RawTransaction>)
    requires tx.kind == Sell && before.shares > 0.0 && SaleGain(before, tx) < 0.0
    requires HasReacquisition(all, tx)
    requires 0.0 < before.shares - tx.quantity < ZeroTolerance
    ensures Entry(before, tx, all).isSuperficial
    ensures Entry(before, tx, all).realizedGainLoss == 0.0
    ensures PoolAfter(Entry(before, tx, all)) == EmptyPool
  {
  }

  /** Selling more than the held shares is not refused: the share count
      goes negative, a positive cost base turns negative, and the per-share
      cost reads zero. */
  lemma OversellGoesNegative(before: Pool, tx: RawTransaction, all: seq<RawTransaction>)
    requires tx.kind == Sell && before.shares > 0.0 && before.acb > 0.0
    requires tx.quantity >= before.shares + ZeroTolerance
    ensures Entry(before, tx, all).sharesAfter == before.shares - tx.quantity < 0.0
    ensures Entry(before, tx, all).acbAfter < 0.0
    ensures Entry(before, tx, all).acbPerShare == 0.0 && !Entry(before, tx, all).isSuperficial
  {
    var r := tx.quantity / before.shares;
    RatioTimesShares(tx.quantity, before.shares);
    assert r > 1.0;
    assert r * before.acb > before.acb;
  }

  // ---------------------------------------------------------------------
  // The rule over the whole ledger
  // ---------------------------------------------------------------------

  /** The superficial-loss condition, with the purchase looked for among
      the input transactions in any order. */
  predicate DeniedLoss(before: Pool, sale: RawTransaction, transactions: seq<RawTransaction>) {
    && sale.kind == Sell && before.shares > 0.0 && SaleGain(before, sale) < 0.0
    && before.shares - sale.quantity > 0.0
    && exists o :: o in transactions && Reacquires(o, sale)
  }

  /** Searching the sorted input finds a purchase exactly when the input
      holds one: the search does not depend on the order. */
  lemma ReacquisitionIgnoresOrder(transactions: seq<RawTransaction>, sale: RawTransaction)
    ensures HasReacquisition(SortByTime(transactions), sale) <==>
              exists o :: o in transactions && Reacquires(o, sale)
  {
    var sorted := SortByTime(transactions);
    forall o ensures o in sorted <==> o in transactions {
      assert o in sorted <==> o in multiset(sorted);
      assert o in transactions <==> o in multiset(transactions);
    }
  }

  /** Over the ledger: an entry is flagged exactly when its sale meets the
      superficial-loss condition against the input; only sales are ever
      flagged, a flagged entry realizes zero, and an unflagged sale from
      positive shares realizes its full gain or loss. */
  lemma LedgerSuperficialLosses(transactions: seq<RawTransaction>)
    ensures forall i :: 0 <= i < |Ledger(transactions)| ==>
              var e := Ledger(transactions)[i];
              && (e.isSuperficial <==> DeniedLoss(PoolBefore(e), e.tx, transactions))
              && (e.isSuperficial ==> e.tx.kind == Sell && e.realizedGainLoss == 0.0)
              && (e.tx.kind == Sell && e.sharesBefore > 0.0 && !e.isSuperficial ==>
                    e.realizedGainLoss == SaleGain(PoolBefore(e), e.tx))
              && (e.tx.kind != Sell ==> e.realizedGainLoss == 0.0)
  {
    LedgerSteps(transactions);
    var l := Ledger(transactions);
    forall i | 0 <= i < |l|
      ensures l[i].isSuperficial <==> DeniedLoss(PoolBefore(l[i]), l[i].tx, transactions)
    {
      SuperficialLossRule(PoolBefore(l[i]), l[i].tx, SortByTime(transactions));
      ReacquisitionIgnoresOrder(transactions, l[i].tx);
    }
  }

  /** Over the ledger: a sale from a pool without positive shares leaves
      the pool unchanged and realizes nothing. */
  lemma LedgerSellWithoutShares(transactions: seq<RawTransaction>)
    ensures forall i :: 0 <= i < |Ledger(transactions)| ==>
              var e := Ledger(transactions)[i];
              e.tx.kind == Sell && e.sharesBefore <= 0.0 ==>
                PoolAfter(e) == PoolBefore(e) && e.realizedGainLoss == 0.0
  {
    LedgerSteps(transactions);
    LedgerPoolsNormal(transactions);
    var l := Ledger(transactions);
    forall i | 0 <= i < |l| && l[i].tx.kind == Sell && l[i].sharesBefore <= 0.0
      ensures PoolAfter(l[i]) == PoolBefore(l[i]) && l[i].realizedGainLoss == 0.0
    {
      SellWithoutSharesIsNoOp(PoolBefore(l[i]), l[i].tx, SortByTime(transactions));
    }
  }

  // ---------------------------------------------------------------------
  // Weighted average cost of purchases
  // ---------------------------------------------------------------------

  function SumQuantity(txs: seq<RawTransaction>): real {
    if |txs| == 0 then 0.0 else SumQuantity(txs[..|txs| - 1]) + txs[|txs| - 1].quantity
  }

  function SumTotalCost(txs: seq<RawTransaction>): real {
    if |txs| == 0 then 0.0 else SumTotalCost(txs[..|txs| - 1]) + TotalCost(txs[|txs| - 1])
  }

  function SumNativeCost(txs: seq<RawTransaction>): real {
    if |txs| == 0 then 0.0 else SumNativeCost(txs[..|txs| - 1]) + NativeCostChange(txs[|txs| - 1])
  }

  /** The transactions of `symbol` in `txs`, in order. */
  function Of(txs: seq<RawTransaction>, symbol: string): seq<RawTransaction> {
    if |txs| == 0 then []
    else Of(txs[..|txs| - 1], symbol) + (if txs[|txs| - 1].symbol == symbol then [txs[|txs| - 1]] else [])
  }

  /** Every transaction of `symbol` in `txs` is a purchase of a non-negative
      quantity, the first one of at least `ZeroTolerance` shares; other
      symbols may trade in between. */
  predicate PurchasesOf(txs: seq<RawTransaction>, symbol: string) {
    var own := Of(txs, symbol);
    && (forall i :: 0 <= i < |own| ==> own[i].kind == Buy && own[i].quantity >= 0.0)
    && (|own| > 0 ==> own[0].quantity >= ZeroTolerance)
  }

  lemma {:induction false} PurchasePoolIsSum(txs: seq<RawTransaction>, all: seq<RawTransaction>, symbol: string)
    requires PurchasesOf(txs, symbol)
    ensures var own := Of(txs, symbol);
            && PoolOf(Fold(txs, all).positions, symbol) ==
                 Pool(SumQuantity(own), SumTotalCost(own), SumNativeCost(own))
            && (|own| > 0 ==> SumQuantity(own) >= ZeroTolerance)
  {
    if |txs| > 0 {
      var n := |txs| - 1;
      var tx := txs[n];
      var prev := Of(txs[..n], symbol);
      assert txs[..n] + [tx] == txs;
      assert PurchasesOf(txs[..n], symbol) by {
        assert forall i :: 0 <= i < |prev| ==> prev[i] == Of(txs, symbol)[i];
      }
      PurchasePoolIsSum(txs[..n], all, symbol);
      FoldStep(txs[..n], tx, all);
      if tx.symbol == symbol {
        assert Of(txs, symbol) == prev + [tx];
        assert tx.kind == Buy && tx.quantity >= 0.0 && (|prev| == 0 ==> tx.quantity >= ZeroTolerance) by {
          assert Of(txs, symbol)[|prev|] == tx;
          assert |prev| == 0 ==> Of(txs, symbol)[0] == tx;
        }
        PurchaseStep(prev, tx, all);
      } else {
        assert Of(txs, symbol) == prev;
      }
    }
  }

  /** One more purchase adds its quantity and costs to the sums. */
  lemma PurchaseStep(own: seq<RawTransaction>, tx: RawTransaction, all: seq<RawTransaction>)
    requires tx.kind == Buy && tx.quantity >= 0.0
    requires |own| > 0 ==> SumQuantity(own) >= ZeroTolerance
    requires |own| == 0 ==> tx.quantity >= ZeroTolerance
    ensures var before := if |own| == 0 then EmptyPool else Pool(SumQuantity(own), SumTotalCost(own), SumNativeCost(own));
            PoolAfter(Entry(before, tx, all)) ==
              Pool(SumQuantity(own + [tx]), SumTotalCost(own + [tx]), SumNativeCost(own + [tx]))
    ensures SumQuantity(own + [tx]) >= ZeroTolerance
  {
    assert (own + [tx])[..|own|] == own;
  }

  /** The pool a ledger leaves for `symbol` is the after-pool of that
      symbol's last entry. */
  lemma {:induction false} LastPoolOfLastEntry(ledger: seq<LedgerEntry>, i: int, symbol: string)
    requires 0 <= i < |ledger| && ledger[i].tx.symbol == symbol
    requires forall j :: i < j < |ledger| ==> ledger[j].tx.symbol != symbol
    ensures LastPool(ledger, symbol) == PoolAfter(ledger[i])
  {
    if i < |ledger| - 1 {
      LastPoolOfLastEntry(ledger[..|ledger| - 1], i, symbol);
    }
  }

  /** For a symbol that is only ever bought, with other symbols trading in
      between, its last entry holds the total quantity, the total home and
      native cost, and a per-share cost equal to the total cost paid over the
      total shares bought. */
  lemma WeightedAverageOfPurchases(txs: seq<RawTransaction>, all: seq<RawTransaction>, symbol: string)
    requires PurchasesOf(txs, symbol)
    ensures |Fold(txs, all).ledger| == |txs|
    ensures forall i :: 0 <= i < |txs| && txs[i].symbol == symbol
                          && (forall j :: i < j < |txs| ==> txs[j].symbol != symbol) ==>
              var e := Fold(txs, all).ledger[i];
              var own := Of(txs, symbol);
              && e.sharesAfter == SumQuantity(own) && SumQuantity(own) > 0.0
              && e.acbAfter == SumTotalCost(own)
              && e.nativeCostAfter == SumNativeCost(own)
              && e.acbPerShare == SumTotalCost(own) / SumQuantity(own)
  {
    var l := Fold(txs, all).ledger;
    var own := Of(txs, symbol);
    FoldEntries(txs, all);
    PurchasePoolIsSum(txs, all, symbol);
    FoldPositions(txs, all);
    forall i | 0 <= i < |txs| && txs[i].symbol == symbol && (forall j :: i < j < |txs| ==> txs[j].symbol != symbol)
      ensures && l[i].sharesAfter == SumQuantity(own) && SumQuantity(own) > 0.0
              && l[i].acbAfter == SumTotalCost(own) && l[i].nativeCostAfter == SumNativeCost(own)
              && l[i].acbPerShare == SumTotalCost(own) / SumQuantity(own)
    {
      assert l[i].tx == txs[i];
      assert forall j :: i < j < |l| ==> l[j].tx == txs[j];
      LastPoolOfLastEntry(l, i, symbol);
      OfMentions(txs, i, symbol);
      assert l[i] == Entry(PoolBefore(l[i]), txs[i], all);
    }
  }

  /** A transaction of `symbol` in `txs` puts something in `Of(txs, symbol)`. */
  lemma {:induction false} OfMentions(txs: seq<RawTransaction>, i: int, symbol: string)
    requires 0 <= i < |txs| && txs[i].symbol == symbol
    ensures |Of(txs, symbol)| > 0
  {
    if i < |txs| - 1 {
      OfMentions(txs[..|txs| - 1], i, symbol);
    }
  }
}
