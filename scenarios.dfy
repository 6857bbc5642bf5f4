/** Worked examples of the engine on small inputs, all in the home
    currency and for any symbol and any date `t0` of the opening purchase: a loss with no
    reacquisition, a full sale followed by a buy inside the window (not
    superficial, since no shares remain), a partial sale followed by a buy
    inside the window (superficial), and a sale caught by its own purchase
    less than 30 days earlier. */
module Scenarios {
  import opened Types
  import opened StableSort
  import opened AcbLedger

  /** A trade `id` of `symbol` in Canadian dollars (the home currency, so at
      an exchange rate of 1) without commission, `day` days after `t0`. */
  function Trade(id: string, symbol: string, t0: int, day: int, kind: TransactionType, quantity: real, price: real): RawTransaction {
    RawTransaction(id, symbol, t0 + day * DayMs, kind, quantity, price, 0.0, 1.0, "CAD", None)
  }

  /** Folding two trades of one symbol: the second starts from the pool
      the first left. */
  lemma FoldOfTwo(a: RawTransaction, b: RawTransaction, all: seq<RawTransaction>)
    requires a.symbol == b.symbol
    ensures var e0 := Entry(EmptyPool, a, all);
            var e1 := Entry(PoolAfter(e0), b, all);
            Fold([a, b], all) == FoldState(map[a.symbol := PoolAfter(e1)], [e0, e1])
  {
    var e0 := Entry(EmptyPool, a, all);
    assert Fold([a], all) == FoldState(map[a.symbol := PoolAfter(e0)], [e0]) by {
      FoldStep([], a, all);
      assert [] + [a] == [a];
    }
    FoldStep([a], b, all);
    assert [a] + [b] == [a, b];
  }

  /** Two trades of one symbol in time order: each entry starts from the
      pool the previous one left. */
  lemma LedgerOfTwo(a: RawTransaction, b: RawTransaction)
    requires a.symbol == b.symbol && a.dateTime <= b.dateTime
    ensures var all := [a, b];
            var e0 := Entry(EmptyPool, a, all);
            Ledger(all) == [e0, Entry(PoolAfter(e0), b, all)]
  {
    FoldOfTwo(a, b, [a, b]);
    SortByOfSorted([a, b], ByTime);
  }

  /** Three trades of one symbol in time order: each entry starts from the
      pool the previous one left. */
  lemma LedgerOfThree(a: RawTransaction, b: RawTransaction, c: RawTransaction)
    requires a.symbol == b.symbol == c.symbol && a.dateTime <= b.dateTime <= c.dateTime
    ensures var all := [a, b, c];
            var e0 := Entry(EmptyPool, a, all);
            var e1 := Entry(PoolAfter(e0), b, all);
            Ledger(all) == [e0, e1, Entry(PoolAfter(e1), c, all)]
  {
    var all := [a, b, c];
    var e0 := Entry(EmptyPool, a, all);
    var e1 := Entry(PoolAfter(e0), b, all);
    var e2 := Entry(PoolAfter(e1), c, all);
    assert Fold([a, b], all) == FoldState(map[a.symbol := PoolAfter(e1)], [e0, e1]) by {
      FoldOfTwo(a, b, all);
    }
    assert Fold(all, all).ledger == [e0, e1, e2] by {
      FoldStep([a, b], c, all);
      assert [a, b] + [c] == all;
    }
    assert Ledger(all) == Fold(all, all).ledger by {
      SortByOfSorted(all, ByTime);
    }
  }

  /** Selling from the opening pool of 100 shares costing 1000 releases
      10 per share sold. */
  lemma OpeningPoolReleases(s: RawTransaction)
    ensures Released(Pool(100.0, 1000.0, 1000.0), s) == 10.0 * s.quantity
    ensures ReleasedNative(Pool(100.0, 1000.0, 1000.0), s) == 10.0 * s.quantity
  {
    assert (s.quantity / 100.0) * 1000.0 == 10.0 * s.quantity;
  }

  /** Buy 100 at 10, sell all 100 at 8 sixty days later: a realized loss of
      200, not denied, and the pool emptied. */
  lemma LossWithoutReacquisition(symbol: string, t0: int)
    ensures var l := Ledger([Trade("b0", symbol, t0, 0, Buy, 100.0, 10.0), Trade("s60", symbol, t0, 60, Sell, 100.0, 8.0)]);
            && |l| == 2
            && PoolAfter(l[0]) == Pool(100.0, 1000.0, 1000.0) && l[0].acbPerShare == 10.0
            && l[1].realizedGainLoss == -200.0 && !l[1].isSuperficial
            && PoolAfter(l[1]) == EmptyPool
  {
    LedgerOfTwo(Trade("b0", symbol, t0, 0, Buy, 100.0, 10.0), Trade("s60", symbol, t0, 60, Sell, 100.0, 8.0));
    LossEntries(symbol, t0);
  }

  lemma LossEntries(symbol: string, t0: int)
    ensures var b := Trade("b0", symbol, t0, 0, Buy, 100.0, 10.0);
            var s := Trade("s60", symbol, t0, 60, Sell, 100.0, 8.0);
            var all := [b, s];
            var e0 := Entry(EmptyPool, b, all);
            var e1 := Entry(PoolAfter(e0), s, all);
            && PoolAfter(e0) == Pool(100.0, 1000.0, 1000.0) && e0.acbPerShare == 10.0
            && e1.realizedGainLoss == -200.0 && !e1.isSuperficial && PoolAfter(e1) == EmptyPool
  {
    var b := Trade("b0", symbol, t0, 0, Buy, 100.0, 10.0);
    var s := Trade("s60", symbol, t0, 60, Sell, 100.0, 8.0);
    var all := [b, s];
    var opening := Pool(100.0, 1000.0, 1000.0);
    assert PoolAfter(Entry(EmptyPool, b, all)) == opening && Entry(EmptyPool, b, all).acbPerShare == 10.0;
    assert Transition(opening, s, all) == Step(EmptyPool, -200.0, false) by {
      OpeningPoolReleases(s);
    }
  }

  /** The same full sale with a buy of 10 five days later: the buy lies in
      the window, but the sale leaves no shares, so the loss of 200 stays
      realized. */
  lemma FullSaleIsNeverSuperficial(symbol: string, t0: int)
    ensures var l := Ledger([Trade("b0", symbol, t0, 0, Buy, 100.0, 10.0), Trade("s60", symbol, t0, 60, Sell, 100.0, 8.0),
                             Trade("b65", symbol, t0, 65, Buy, 10.0, 9.0)]);
            && |l| == 3
            && l[1].realizedGainLoss == -200.0 && !l[1].isSuperficial
            && PoolAfter(l[1]) == EmptyPool
  {
    LedgerOfThree(Trade("b0", symbol, t0, 0, Buy, 100.0, 10.0), Trade("s60", symbol, t0, 60, Sell, 100.0, 8.0),
                  Trade("b65", symbol, t0, 65, Buy, 10.0, 9.0));
    FullSaleEntries(symbol, t0);
  }

  lemma FullSaleEntries(symbol: string, t0: int)
    ensures var b := Trade("b0", symbol, t0, 0, Buy, 100.0, 10.0);
            var s := Trade("s60", symbol, t0, 60, Sell, 100.0, 8.0);
            var all := [b, s, Trade("b65", symbol, t0, 65, Buy, 10.0, 9.0)];
            var e1 := Entry(PoolAfter(Entry(EmptyPool, b, all)), s, all);
            e1.realizedGainLoss == -200.0 && !e1.isSuperficial && PoolAfter(e1) == EmptyPool
  {
    var b := Trade("b0", symbol, t0, 0, Buy, 100.0, 10.0);
    var s := Trade("s60", symbol, t0, 60, Sell, 100.0, 8.0);
    var all := [b, s, Trade("b65", symbol, t0, 65, Buy, 10.0, 9.0)];
    var opening := Pool(100.0, 1000.0, 1000.0);
    assert PoolAfter(Entry(EmptyPool, b, all)) == opening;
    assert Transition(opening, s, all) == Step(EmptyPool, -200.0, false) by {
      OpeningPoolReleases(s);
    }
  }

  /** Selling 90 of the 100 with a buy of 10 five days later: the loss of
      180 is denied and added to the 100 of cost left on the 10 remaining
      shares. */
  lemma PartialSaleIsSuperficial(symbol: string, t0: int)
    ensures var l := Ledger([Trade("b0", symbol, t0, 0, Buy, 100.0, 10.0), Trade("s60", symbol, t0, 60, Sell, 90.0, 8.0),
                             Trade("b65", symbol, t0, 65, Buy, 10.0, 9.0)]);
            && |l| == 3
            && l[1].realizedGainLoss == 0.0 && l[1].isSuperficial
            && PoolAfter(l[1]) == Pool(10.0, 280.0, 100.0)
  {
    LedgerOfThree(Trade("b0", symbol, t0, 0, Buy, 100.0, 10.0), Trade("s60", symbol, t0, 60, Sell, 90.0, 8.0),
                  Trade("b65", symbol, t0, 65, Buy, 10.0, 9.0));
    PartialSaleEntries(symbol, t0);
  }

  lemma PartialSaleEntries(symbol: string, t0: int)
    ensures var b := Trade("b0", symbol, t0, 0, Buy, 100.0, 10.0);
            var s := Trade("s60", symbol, t0, 60, Sell, 90.0, 8.0);
            var all := [b, s, Trade("b65", symbol, t0, 65, Buy, 10.0, 9.0)];
            var e1 := Entry(PoolAfter(Entry(EmptyPool, b, all)), s, all);
            e1.realizedGainLoss == 0.0 && e1.isSuperficial && PoolAfter(e1) == Pool(10.0, 280.0, 100.0)
  {
    var b := Trade("b0", symbol, t0, 0, Buy, 100.0, 10.0);
    var s := Trade("s60", symbol, t0, 60, Sell, 90.0, 8.0);
    var r := Trade("b65", symbol, t0, 65, Buy, 10.0, 9.0);
    var all := [b, s, r];
    var opening := Pool(100.0, 1000.0, 1000.0);
    assert PoolAfter(Entry(EmptyPool, b, all)) == opening;
    assert Transition(opening, s, all) == Step(Pool(10.0, 280.0, 100.0), 0.0, true) by {
      assert r in all && Reacquires(r, s);
      OpeningPoolReleases(s);
    }
  }

  /** A loss on a partial sale ten days after the only purchase is denied:
      the window reaches back 30 days, so the purchase that opened the
      position counts as the reacquisition. */
  lemma OwnPurchaseCountsAsReacquisition(symbol: string, t0: int)
    ensures var l := Ledger([Trade("b0", symbol, t0, 0, Buy, 100.0, 10.0), Trade("s10", symbol, t0, 10, Sell, 50.0, 8.0)]);
            && |l| == 2
            && l[1].realizedGainLoss == 0.0 && l[1].isSuperficial
            && PoolAfter(l[1]) == Pool(50.0, 600.0, 500.0)
  {
    LedgerOfTwo(Trade("b0", symbol, t0, 0, Buy, 100.0, 10.0), Trade("s10", symbol, t0, 10, Sell, 50.0, 8.0));
    OwnPurchaseEntries(symbol, t0);
  }

  lemma OwnPurchaseEntries(symbol: string, t0: int)
    ensures var b := Trade("b0", symbol, t0, 0, Buy, 100.0, 10.0);
            var s := Trade("s10", symbol, t0, 10, Sell, 50.0, 8.0);
            var all := [b, s];
            var e1 := Entry(PoolAfter(Entry(EmptyPool, b, all)), s, all);
            e1.realizedGainLoss == 0.0 && e1.isSuperficial && PoolAfter(e1) == Pool(50.0, 600.0, 500.0)
  {
    var b := Trade("b0", symbol, t0, 0, Buy, 100.0, 10.0);
    var s := Trade("s10", symbol, t0, 10, Sell, 50.0, 8.0);
    var all := [b, s];
    var opening := Pool(100.0, 1000.0, 1000.0);
    assert PoolAfter(Entry(EmptyPool, b, all)) == opening;
    assert Transition(opening, s, all) == Step(Pool(50.0, 600.0, 500.0), 0.0, true) by {
      assert b in all && Reacquires(b, s);
      OpeningPoolReleases(s);
    }
  }
}
