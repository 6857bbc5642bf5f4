/** The tax-year aggregator: buckets the realized amounts of a ledger by
    the calendar year of each entry's timestamp and lists the years newest
    first. The calendar is a parameter, `yearOf`, standing for the local-time
    `getFullYear` of the timestamp. */
module TaxYears {
  import opened Types
  import opened StableSort

  /** Adds one realized amount to a year's summary: a gain to the gains, the
      magnitude of a loss to the losses, either to the net. */
  function Accumulate(t: TaxYearSummary, g: real): (r: TaxYearSummary)
    ensures r.year == t.year
    ensures r.netGainLoss == t.netGainLoss + g
    ensures r.totalRealizedGains - r.totalRealizedLosses == t.totalRealizedGains - t.totalRealizedLosses + g
    ensures r.totalRealizedGains >= t.totalRealizedGains && r.totalRealizedLosses >= t.totalRealizedLosses
  {
    t.(totalRealizedGains := if g > 0.0 then t.totalRealizedGains + g else t.totalRealizedGains,
       totalRealizedLosses := if g < 0.0 then t.totalRealizedLosses + Abs(g) else t.totalRealizedLosses,
       netGainLoss := t.netGainLoss + g)
  }

  /** The summary of year `y`: every realized amount of an entry of that
      year accumulated, in ledger order, onto an all-zero summary. */
  function YearTotals(ledger: seq<LedgerEntry>, yearOf: int -> int, y: int): (r: TaxYearSummary)
    ensures r.year == y
    ensures r.totalRealizedGains >= 0.0 && r.totalRealizedLosses >= 0.0
    ensures r.netGainLoss == r.totalRealizedGains - r.totalRealizedLosses
  {
    if |ledger| == 0 then TaxYearSummary(y, 0.0, 0.0, 0.0)
    else
      var t := YearTotals(ledger[..|ledger| - 1], yearOf, y);
      if yearOf(ledger[|ledger| - 1].tx.dateTime) != y then t
      else Accumulate(t, ledger[|ledger| - 1].realizedGainLoss)
  }

  /** A year with no realized amount in it sums to zero. */
  lemma {:induction false} QuietYearIsZero(ledger: seq<LedgerEntry>, yearOf: int -> int, y: int)
    requires forall i :: 0 <= i < |ledger| && yearOf(ledger[i].tx.dateTime) == y ==> ledger[i].realizedGainLoss == 0.0
    ensures YearTotals(ledger, yearOf, y) == TaxYearSummary(y, 0.0, 0.0, 0.0)
  {
    if |ledger| > 0 {
      QuietYearIsZero(ledger[..|ledger| - 1], yearOf, y);
    }
  }

  /** Extending the ledger by entry `i` changes only the totals of that
      entry's year. */
  lemma YearTotalsStep(ledger: seq<LedgerEntry>, i: int, yearOf: int -> int, y: int)
    requires 0 <= i < |ledger|
    ensures YearTotals(ledger[..i + 1], yearOf, y) ==
              var t := YearTotals(ledger[..i], yearOf, y);
              if yearOf(ledger[i].tx.dateTime) != y then t else Accumulate(t, ledger[i].realizedGainLoss)
  {
    assert ledger[..i + 1][..i] == ledger[..i];
  }

  /** Extending the ledger by entry `i` appends its year if it is new. */
  lemma YearsInOrderStep(ledger: seq<LedgerEntry>, i: int, yearOf: int -> int)
    requires 0 <= i < |ledger|
    ensures var y := yearOf(ledger[i].tx.dateTime);
            var ys := YearsInOrder(ledger[..i], yearOf);
            YearsInOrder(ledger[..i + 1], yearOf) == if y in ys then ys else ys + [y]
  {
    assert ledger[..i + 1][..i] == ledger[..i];
  }

  /** Some entry of `ledger` falls in year `y`. */
  predicate HasYear(ledger: seq<LedgerEntry>, yearOf: int -> int, y: int) {
    exists i :: 0 <= i < |ledger| && yearOf(ledger[i].tx.dateTime) == y
  }

  /** The years of `ledger` in order of first appearance, each once. */
  function YearsInOrder(ledger: seq<LedgerEntry>, yearOf: int -> int): (ys: seq<int>)
    ensures forall y :: y in ys <==> HasYear(ledger, yearOf, y)
    ensures forall j, k :: 0 <= j < k < |ys| ==> ys[j] != ys[k]
  {
    if |ledger| == 0 then []
    else
      var n := |ledger| - 1;
      assert forall i :: 0 <= i < n ==> ledger[..n][i] == ledger[i];
      var prev := YearsInOrder(ledger[..n], yearOf);
      var y := yearOf(ledger[n].tx.dateTime);
      if y in prev then prev else prev + [y]
  }

  /** The sort key of `(a, b) => b.year - a.year`: newest year first. */
  function NewestFirst(s: TaxYearSummary): int {
    -s.year
  }

  /** The summary of every year, in order of first appearance. */
  function YearSummaries(ledger: seq<LedgerEntry>, yearOf: int -> int): seq<TaxYearSummary> {
    var ys := YearsInOrder(ledger, yearOf);
    seq(|ys|, k requires 0 <= k < |ys| => YearTotals(ledger, yearOf, ys[k]))
  }

  /** What `getTaxSummaries` returns for `ledger`. */
  function TaxSummaries(ledger: seq<LedgerEntry>, yearOf: int -> int): seq<TaxYearSummary> {
    SortBy(YearSummaries(ledger, yearOf), NewestFirst)
  }

  /** The per-entry update of a year's summary, field by field. */
  method Accrue(summary: TaxYearSummary, realizedGainLoss: real) returns (updated: TaxYearSummary)
    ensures updated == Accumulate(summary, realizedGainLoss)
  {
    updated := summary;
    if realizedGainLoss > 0.0 {
      updated := updated.(totalRealizedGains := updated.totalRealizedGains + realizedGainLoss);
    }
    if realizedGainLoss < 0.0 {
      updated := updated.(totalRealizedLosses := updated.totalRealizedLosses + Abs(realizedGainLoss));
    }
    updated := updated.(netGainLoss := updated.netGainLoss + realizedGainLoss);
  }

  /** Accumulates one summary per year in a record, then sorts the record's
      values newest year first. */
  method GetTaxSummaries(ledger: seq<LedgerEntry>, yearOf: int -> int) returns (summaries: seq<TaxYearSummary>)
    ensures summaries == TaxSummaries(ledger, yearOf)
  {
    var years: map<int, TaxYearSummary> := map[];
    var order: seq<int> := [];
    for i := 0 to |ledger|
      invariant order == YearsInOrder(ledger[..i], yearOf)
      invariant forall y :: y in years <==> y in order
      invariant forall y :: y in years ==> years[y] == YearTotals(ledger[..i], yearOf, y)
    {
      var entry := ledger[i];
      var year := yearOf(entry.tx.dateTime);
      ghost var prev := years;
      if year !in years {
        QuietYearIsZero(ledger[..i], yearOf, year);
        years := years[year := TaxYearSummary(year, 0.0, 0.0, 0.0)];
        order := order + [year];
      }
      var summary := Accrue(years[year], entry.realizedGainLoss);
      years := years[year := summary];
      YearsInOrderStep(ledger, i, yearOf);
      forall y | y in years ensures years[y] == YearTotals(ledger[..i + 1], yearOf, y) {
        YearTotalsStep(ledger, i, yearOf, y);
      }
    }
    assert ledger[..|ledger|] == ledger;
    var values := seq(|order|, k requires 0 <= k < |order| => assert order[k] in order; years[order[k]]);
    assert values == YearSummaries(ledger, yearOf);
    summaries := SortBy(values, NewestFirst);
  }

  // ---------------------------------------------------------------------
  // Properties
  // ---------------------------------------------------------------------

  /** Before sorting: one summary per year of the ledger, each being that
      year's totals. */
  lemma YearSummariesByYear(ledger: seq<LedgerEntry>, yearOf: int -> int)
    ensures var v := YearSummaries(ledger, yearOf);
            && Distinct(v)
            && (forall p :: p in v ==> p == YearTotals(ledger, yearOf, p.year))
            && (forall y :: (exists p :: p in v && p.year == y) <==> HasYear(ledger, yearOf, y))
  {
    var ys := YearsInOrder(ledger, yearOf);
    var v := YearSummaries(ledger, yearOf);
    forall j, k | 0 <= j < k < |v| ensures v[j] != v[k] {
      assert v[j].year == ys[j];
    }
    forall y | HasYear(ledger, yearOf, y) ensures exists p :: p in v && p.year == y {
      var m :| 0 <= m < |ys| && ys[m] == y;
      assert v[m] in v;
    }
  }

  /** One summary per year of the ledger, strictly newest first, each being
      that year's totals. */
  lemma TaxSummariesByYear(ledger: seq<LedgerEntry>, yearOf: int -> int)
    ensures var r := TaxSummaries(ledger, yearOf);
            && (forall j, k :: 0 <= j < k < |r| ==> r[j].year > r[k].year)
            && (forall p :: p in r ==> p == YearTotals(ledger, yearOf, p.year))
            && (forall y :: (exists p :: p in r && p.year == y) <==> HasYear(ledger, yearOf, y))
  {
    var v := YearSummaries(ledger, yearOf);
    var r := TaxSummaries(ledger, yearOf);
    YearSummariesByYear(ledger, yearOf);
    SortByKeepsDistinct(v, NewestFirst);
    assert forall p :: p in r <==> p in v by {
      assert forall p :: p in r <==> p in multiset(r);
      assert forall p :: p in v <==> p in multiset(v);
    }
    forall j, k | 0 <= j < k < |r| ensures r[j].year > r[k].year {
      assert NewestFirst(r[j]) <= NewestFirst(r[k]);
      assert r[j] in r && r[k] in r;
    }
  }

  /** The sum of the realized amounts of `ledger`. */
  function TotalRealized(ledger: seq<LedgerEntry>): real {
    if |ledger| == 0 then 0.0
    else TotalRealized(ledger[..|ledger| - 1]) + ledger[|ledger| - 1].realizedGainLoss
  }

  /** The entries of `ledger` that fall in year `y`. */
  function InYear(ledger: seq<LedgerEntry>, yearOf: int -> int, y: int): seq<LedgerEntry> {
    if |ledger| == 0 then []
    else
      InYear(ledger[..|ledger| - 1], yearOf, y)
      + (if yearOf(ledger[|ledger| - 1].tx.dateTime) == y then [ledger[|ledger| - 1]] else [])
  }

  /** The sum of the gains (positive realized amounts) of `ledger`. */
  function TotalGains(ledger: seq<LedgerEntry>): real {
    if |ledger| == 0 then 0.0
    else
      var g := ledger[|ledger| - 1].realizedGainLoss;
      TotalGains(ledger[..|ledger| - 1]) + (if g > 0.0 then g else 0.0)
  }

  /** The sum of the magnitudes of the losses (negative realized amounts) of `ledger`. */
  function TotalLosses(ledger: seq<LedgerEntry>): real {
    if |ledger| == 0 then 0.0
    else
      var g := ledger[|ledger| - 1].realizedGainLoss;
      TotalLosses(ledger[..|ledger| - 1]) + (if g < 0.0 then -g else 0.0)
  }

  /** A year's gains, losses and net are the sums, over the entries of that
      year, of the gains, of the magnitudes of the losses and of all
      realized amounts. */
  lemma {:induction false} YearTotalsAreSums(ledger: seq<LedgerEntry>, yearOf: int -> int, y: int)
    ensures var r := YearTotals(ledger, yearOf, y);
            var es := InYear(ledger, yearOf, y);
            && r.totalRealizedGains == TotalGains(es)
            && r.totalRealizedLosses == TotalLosses(es)
            && r.netGainLoss == TotalRealized(es)
  {
    if |ledger| > 0 {
      var n := |ledger| - 1;
      YearTotalsAreSums(ledger[..n], yearOf, y);
      var prev := InYear(ledger[..n], yearOf, y);
      if yearOf(ledger[n].tx.dateTime) == y {
        assert (prev + [ledger[n]])[..|prev|] == prev;
      } else {
        assert prev + [] == prev;
      }
    }
  }

  /** The sum of the nets of `summaries`. */
  function NetSum(summaries: seq<TaxYearSummary>): real {
    if |summaries| == 0 then 0.0 else summaries[0].netGainLoss + NetSum(summaries[1..])
  }

  /** The sum, over the years `ys`, of each year's net in `ledger`. */
  function NetOverYears(ledger: seq<LedgerEntry>, yearOf: int -> int, ys: seq<int>): real {
    if |ys| == 0 then 0.0 else YearTotals(ledger, yearOf, ys[0]).netGainLoss + NetOverYears(ledger, yearOf, ys[1..])
  }

  /** Appending an entry adds its realized amount to the net of its own
      year, and so once to a sum over distinct years that include it. */
  lemma {:induction false} NetOverYearsStep(ledger: seq<LedgerEntry>, e: LedgerEntry, yearOf: int -> int, ys: seq<int>)
    requires forall j, k :: 0 <= j < k < |ys| ==> ys[j] != ys[k]
    ensures NetOverYears(ledger + [e], yearOf, ys) ==
              NetOverYears(ledger, yearOf, ys) + (if yearOf(e.tx.dateTime) in ys then e.realizedGainLoss else 0.0)
  {
    if |ys| > 0 {
      assert (ledger + [e])[..|ledger|] == ledger;
      NetOverYearsStep(ledger, e, yearOf, ys[1..]);
      assert ys[0] !in ys[1..];
      assert forall y :: y in ys <==> y == ys[0] || y in ys[1..];
    }
  }

  /** Summing each year's net over distinct years that include every year
      of the ledger gives the ledger's total realized amount. */
  lemma {:induction false} NetOverYearsIsTotal(ledger: seq<LedgerEntry>, yearOf: int -> int, ys: seq<int>)
    requires forall j, k :: 0 <= j < k < |ys| ==> ys[j] != ys[k]
    requires forall i :: 0 <= i < |ledger| ==> yearOf(ledger[i].tx.dateTime) in ys
    ensures NetOverYears(ledger, yearOf, ys) == TotalRealized(ledger)
  {
    if |ledger| == 0 {
      NetOverYearsOfEmpty(yearOf, ys);
    } else {
      var n := |ledger| - 1;
      NetOverYearsIsTotal(ledger[..n], yearOf, ys);
      NetOverYearsStep(ledger[..n], ledger[n], yearOf, ys);
      assert ledger[..n] + [ledger[n]] == ledger;
    }
  }

  lemma {:induction false} NetOverYearsOfEmpty(yearOf: int -> int, ys: seq<int>)
    ensures NetOverYears([], yearOf, ys) == 0.0
  {
    if |ys| > 0 {
      NetOverYearsOfEmpty(yearOf, ys[1..]);
    }
  }

  /** A list of year totals sums to the sum of the nets over its years. */
  lemma {:induction false} NetSumOfTotals(ledger: seq<LedgerEntry>, yearOf: int -> int, summaries: seq<TaxYearSummary>)
    requires forall k :: 0 <= k < |summaries| ==> summaries[k] == YearTotals(ledger, yearOf, summaries[k].year)
    ensures NetSum(summaries) ==
              NetOverYears(ledger, yearOf, seq(|summaries|, k requires 0 <= k < |summaries| => summaries[k].year))
  {
    if |summaries| > 0 {
      NetSumOfTotals(ledger, yearOf, summaries[1..]);
      var ys := seq(|summaries|, k requires 0 <= k < |summaries| => summaries[k].year);
      assert ys[1..] == seq(|summaries| - 1, k requires 0 <= k < |summaries| - 1 => summaries[1..][k].year);
    }
  }

  /** Additivity: the nets of all year summaries add up to the total
      realized amount of the whole ledger. */
  lemma TaxYearAdditivity(ledger: seq<LedgerEntry>, yearOf: int -> int)
    ensures NetSum(TaxSummaries(ledger, yearOf)) == TotalRealized(ledger)
  {
    var r := TaxSummaries(ledger, yearOf);
    var ys := seq(|r|, k requires 0 <= k < |r| => r[k].year);
    TaxSummariesByYear(ledger, yearOf);
    assert NetSum(r) == NetOverYears(ledger, yearOf, ys) by {
      forall k | 0 <= k < |r| ensures r[k] == YearTotals(ledger, yearOf, r[k].year) {
        assert r[k] in r;
      }
      NetSumOfTotals(ledger, yearOf, r);
    }
    assert NetOverYears(ledger, yearOf, ys) == TotalRealized(ledger) by {
      assert forall j, k :: 0 <= j < k < |ys| ==> ys[j] != ys[k];
      forall i | 0 <= i < |ledger| ensures yearOf(ledger[i].tx.dateTime) in ys {
        assert HasYear(ledger, yearOf, yearOf(ledger[i].tx.dateTime));
        var p :| p in r && p.year == yearOf(ledger[i].tx.dateTime);
        var k :| 0 <= k < |r| && r[k] == p;
        assert ys[k] == r[k].year;
      }
      NetOverYearsIsTotal(ledger, yearOf, ys);
    }
  }
}
