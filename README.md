# ACB ledger engine

A Dafny model of the adjusted-cost-base (ACB) engine of a Canadian
capital-gains tracker. The engine has three operations.

- `calculateACB` sorts the raw transactions by timestamp. It then folds them
  through one cost pool per symbol: shares held, their cost base in the home
  currency (CAD), and their cost in the native currency.
  - A buy adds its quantity, its converted cost and its native cost.
  - A split adds its signed quantity and keeps both costs.
  - A sale from a positive holding releases the proportional share of both
    costs and realizes proceeds less the released cost.
  - A loss is denied when two things hold: some purchase of the same symbol,
    earlier or later, lies within 30 days of the sale, both ends included;
    and shares remain. The denied loss is realized as zero and added back to
    the cost base.
  - A pool whose share count falls below 0.000001 in magnitude is reset to
    zero.
  - Every transaction yields one ledger entry with before and after
    snapshots.
- `getPositionsSummary` keeps the last entry of each symbol and returns the
  symbols still held.
- `getTaxSummaries` buckets the realized amounts by calendar year and
  returns the years newest first.

Modules:

- `Types` holds the records.
- `StableSort` is the stable numeric sort the engine relies on.
- `AcbLedger` holds the transition, the fold that specifies `calculateACB`,
  and the imperative pass itself.
- `AcbProperties` holds what the ledger promises.
- `Positions` and `TaxYears` each hold an aggregator, as a loop over a map
  proved against a pure definition.
- `Scenarios` works through small examples.

Each loop in the source is a method with invariants. That method is proved
equal to a pure function: `Fold`, `OpenPositions` or `TaxSummaries`. The
properties are then lemmas about those functions.

The source does two things, in order, the first time it meets a symbol: it
stores an empty pool for that symbol, then it reads the pool back.
`ProcessSorted` reads the empty pool without storing it. The write at the end
of the same iteration replaces that entry in both versions, so the map is the
same afterwards.

A full sale is never flagged as a superficial loss, even when a purchase
follows within 30 days: acbLogic.ts:60 requires `sharesAfter > 0`, which a
full sale never meets (`FullSaleIsNeverSuperficial`).

Because the window reaches 30 days back as well as forward, the purchase that
opened a position also counts as a reacquisition. A loss on a partial sale
less than 30 days after buying is therefore always denied
(`OwnPurchaseCountsAsReacquisition`).

## Model

| member | source | states |
|---|---|---|
| StableSort.SortBy | acbLogic.ts:6 | the sorted sequence has the input's length and elements (as a multiset) and non-decreasing keys |
| StableSort.SortByIsStable | acbLogic.ts:6 | for every key, the elements carrying it keep their input order |
| StableSort.SortByOfSorted | acbLogic.ts:6 | sorting an already ordered sequence returns it unchanged |
| StableSort.SortByKeepsDistinct | acbLogic.ts:126 | sorting a sequence without repeats introduces none |
| AcbLedger.TotalCost | acbLogic.ts:28 | definition of the home-currency cost of a buy (quantity·price·fx + commission·fx); `BuyAndSplitTransitions` and `PurchasePoolIsSum` state what it adds to a pool |
| AcbLedger.Proceeds | acbLogic.ts:29 | definition of the home-currency proceeds of a sale, net of commission; `SaleAccounting` and `FullDisposalEmptiesPool` state how it is realized |
| AcbLedger.NativeCostChange | acbLogic.ts:30 | definition of the native-currency cost of a buy; `BuyAndSplitTransitions` and `PurchasePoolIsSum` state what it adds to a pool |
| AcbLedger.InWindow | acbLogic.ts:49-50 | definition of the window: 30 days of milliseconds before and after the sale, both ends included; `HasReacquisition` states the search over it |
| AcbLedger.Reacquires | acbLogic.ts:52-56 | definition of a reacquisition: a buy of the sold symbol inside the window; `HasReacquisition` and `ReacquisitionIgnoresOrder` state its use |
| AcbLedger.Transition | acbLogic.ts:31-71 | definition of the per-kind transition before the zero reset; `BuyAndSplitTransitions`, `SellWithoutSharesIsNoOp`, `SaleAccounting` and `SuperficialLossRule` state its properties |
| AcbLedger.PerShare | acbLogic.ts:89 | definition of the per-share cost; `EntryShape` and `LedgerPoolsNormal` state that it times a positive share count is the cost base, and 0 otherwise |
| AcbLedger.Fold | acbLogic.ts:8-93 | definition of the pass as a fold over the sorted transactions; `FoldEntries`, `FoldChaining`, `FoldPositions`, `StepIsolation` and `FoldPoolsNormal` state its properties, and `ProcessSorted` is proved equal to it |
| AcbLedger.Ledger | acbLogic.ts:5-96 | definition of the ledger of an input (sort, then fold); `LedgerFollowsInput`, `LedgerSteps`, `LedgerChaining`, `LedgerPoolsNormal` and `LedgerSuperficialLosses` state its properties, and `CalculateACB` is proved equal to it |
| AcbLedger.HasReacquisition | acbLogic.ts:49-58 | true exactly when some transaction of the whole input is a buy of the sold symbol dated within 30 days before or after the sale, both ends included |
| AcbLedger.Normalize | acbLogic.ts:73-75 | the result is the pool itself or the empty pool, and either exactly empty or holding at least 0.000001 shares in magnitude; a pool already so is kept |
| AcbLedger.Entry | acbLogic.ts:81-92 | an entry carries its transaction unchanged, its before-pool is the pool it was applied to, and its after-pool is normal |
| AcbLedger.ProcessTransaction | acbLogic.ts:16-92 | the imperative body for one transaction (accumulators, branch per kind, window test, zero reset, entry) computes exactly the specified entry |
| AcbLedger.ProcessSorted | acbLogic.ts:8-95 | the loop over the sorted transactions, keeping a map of pools, produces exactly the ledger of the fold specification |
| AcbLedger.CalculateACB | acbLogic.ts:5-96 | returns the specified ledger: one entry per input transaction, whose transactions are the stable sort of the input by timestamp |
| AcbLedger.FoldEntries | acbLogic.ts:81-92 | the fold emits one entry per transaction in processing order, each its own transaction applied to its own before-pool |
| AcbLedger.StepIsolation | acbLogic.ts:77-79 | processing a transaction leaves the pool of every other symbol unchanged |
| AcbLedger.FoldPositions | acbLogic.ts:12-14 | the pool map holds exactly the symbols seen, each with the after-pool of its last entry (empty if none) |
| AcbLedger.FoldChaining | acbLogic.ts:16-19 | each entry starts from the after-pool of the previous entry of its symbol, and a symbol's first entry from the empty pool |
| AcbLedger.FoldPoolsNormal | acbLogic.ts:73-79 | every before- and after-pool of the fold is exactly empty or holds at least 0.000001 shares in magnitude |
| AcbProperties.LedgerFollowsInput | acbLogic.ts:5-11 | the ledger has one entry per input transaction, carries the input transactions as a permutation, ordered by non-decreasing timestamp, with equal timestamps in input order |
| AcbProperties.LedgerSteps | acbLogic.ts:11-92 | every ledger entry is its transaction applied to its before-pool, the window test consulting the whole sorted input |
| AcbProperties.LedgerChaining | acbLogic.ts:12-19 | per symbol, an entry's before-pool is the previous entry's after-pool, and (0, 0, 0) for the first |
| AcbProperties.LedgerPoolsNormal | acbLogic.ts:73-89 | every stored pool is exactly empty or holds at least 0.000001 shares in magnitude; zero shares mean zero costs; the per-share cost times a positive share count is the cost base, and it is 0 otherwise |
| AcbProperties.EntryShape | acbLogic.ts:89 | an entry's per-share cost is its cost base spread over a positive share count, 0 otherwise, and a zero share count carries zero costs |
| AcbProperties.BuyAndSplitTransitions | acbLogic.ts:28-71 | a buy adds quantity, quantity·price·fx + commission·fx and quantity·price + commission; a split adds its signed quantity and keeps both costs; neither realizes anything nor is flagged |
| AcbProperties.SellWithoutSharesIsNoOp | acbLogic.ts:36-37 | a sale from a pool with no positive shares leaves the pool as it was, realizes 0 and is not flagged |
| AcbProperties.SaleAccounting | acbLogic.ts:36-47 | a sale from a positive holding removes its quantity, releases the proportional cost base and native cost, and keeps both per-share costs unless the loss is denied; released cost plus realized gain equals proceeds; a denied loss realizes 0, is added back to the cost base and leaves the native cost alone |
| AcbProperties.SuperficialLossRule | acbLogic.ts:48-65 | an entry is flagged exactly when it is a sale from positive shares with a pre-adjustment loss, a purchase in the window, and positive shares left before the zero reset; it then realizes 0; without a purchase in the window the full gain or loss is realized |
| AcbProperties.FullDisposalEmptiesPool | acbLogic.ts:36-75 | selling exactly the holding empties the pool, realizes proceeds less the whole cost base and is never flagged |
| AcbProperties.DustSaleDropsDeniedLoss | acbLogic.ts:60-75 | a denied sale leaving fewer than 0.000001 shares is flagged and realizes 0, yet its pool is reset to empty, so the loss is neither realized nor carried |
| AcbProperties.OversellGoesNegative | acbLogic.ts:36-47 | selling more than the holding is not refused: the share count and a positive cost base go negative and the per-share cost reads 0 |
| AcbProperties.ReacquisitionIgnoresOrder | acbLogic.ts:52-58 | searching the sorted input finds a purchase in the window exactly when the unsorted input holds one |
| AcbProperties.LedgerSuperficialLosses | acbLogic.ts:48-65 | over the ledger, an entry is flagged iff its sale meets the denial condition against the input; only sales are flagged, flagged entries realize 0, unflagged sales realize their full gain, buys and splits realize 0 |
| AcbProperties.LedgerSellWithoutShares | acbLogic.ts:37 | over the ledger, a sale from a pool without positive shares changes nothing and realizes 0 |
| AcbProperties.PurchasePoolIsSum | acbLogic.ts:32-35 | when every transaction of a symbol is a purchase of a non-negative quantity, the first of at least 0.000001 shares, and other symbols may trade in between, that symbol's pool holds the summed quantities, home costs and native costs of its purchases |
| AcbProperties.PurchaseStep | acbLogic.ts:32-35 | one more purchase adds its quantity, home cost and native cost to the pool of the earlier purchases, and the pool is not reset |
| AcbProperties.WeightedAverageOfPurchases | acbLogic.ts:32-89 | under the same conditions, the symbol's last entry holds the summed quantity and costs, and its per-share cost is the total cost paid over the total shares bought |
| Positions.Summarize | acbLogic.ts:101-110 | definition of the summary built from an entry; `PositionsAreLatestOpen` and `LatestSummaryIsLastPool` state what it reports |
| Positions.OpenPositions | acbLogic.ts:98-113 | definition of the aggregator's result; `PositionsAreLatestOpen`, `PositionsCoverHeldSymbols`, `PositionsDistinct` and `PositionsMatchFinalPools` state its properties, and `GetPositionsSummary` is proved equal to it |
| Positions.SymbolsInOrder | acbLogic.ts:112 | the record's keys: exactly the symbols of the ledger, each once |
| Positions.LatestSummary | acbLogic.ts:100-111 | a symbol has a summary iff it has an entry, and that summary is built from its last entry |
| Positions.KeepOpen | acbLogic.ts:112 | keeps exactly the summaries with a positive share count, and keeps symbols distinct |
| Positions.LatestSummaries | acbLogic.ts:99-112 | one summary per symbol in key order, each from that symbol's last entry |
| Positions.GetPositionsSummary | acbLogic.ts:98-113 | the loop filling a record keyed by symbol returns exactly the open latest summaries |
| Positions.PositionsAreLatestOpen | acbLogic.ts:100-112 | every summary returned has positive shares and is its symbol's last entry, with that entry's fx rate and the foreign flag set iff that rate is not 1 |
| Positions.PositionsCoverHeldSymbols | acbLogic.ts:112 | every symbol whose last entry holds positive shares is summarized |
| Positions.PositionsDistinct | acbLogic.ts:99-112 | no symbol is summarized twice |
| Positions.LatestSummaryIsLastPool | acbLogic.ts:101-105 | a symbol's summary reports the pool its last entry left |
| Positions.PositionsMatchFinalPools | acbLogic.ts:98-113 | on a computed ledger, a symbol is summarized iff the engine's final pool for it holds positive shares, and then with exactly that pool |
| TaxYears.YearSummaries | acbLogic.ts:116-125 | definition of the record's values, one per year in key order; `YearSummariesByYear` states its properties |
| TaxYears.TaxSummaries | acbLogic.ts:115-127 | definition of the aggregator's result; `TaxSummariesByYear`, `YearTotalsAreSums` and `TaxYearAdditivity` state its properties, and `GetTaxSummaries` is proved equal to it |
| TaxYears.Accumulate | acbLogic.ts:122-124 | adding an amount keeps the year, adds it to the net and to gains minus losses, and never lowers gains or losses |
| TaxYears.Accrue | acbLogic.ts:122-124 | the three in-place field updates compute the specified accumulation |
| TaxYears.YearTotals | acbLogic.ts:117-125 | a year's summary carries that year, has non-negative gains and losses, and net equal to gains minus losses |
| TaxYears.QuietYearIsZero | acbLogic.ts:119-121 | a year whose entries realize nothing sums to all zeros |
| TaxYears.YearsInOrder | acbLogic.ts:126 | the record's keys: exactly the years of the ledger, each once |
| TaxYears.GetTaxSummaries | acbLogic.ts:115-127 | the loop filling a record keyed by year, then sorted, returns exactly the specified summaries |
| TaxYears.YearSummariesByYear | acbLogic.ts:116-126 | before sorting: distinct summaries, one per year of the ledger, each that year's totals |
| TaxYears.TaxSummariesByYear | acbLogic.ts:126 | one summary per year that has an entry (including all-zero years), strictly newest first, each that year's totals |
| TaxYears.YearTotalsAreSums | acbLogic.ts:122-124 | a year's gains are the sum of its positive amounts, its losses the sum of the magnitudes of its negative amounts, its net the sum of all its amounts |
| TaxYears.TaxYearAdditivity | acbLogic.ts:115-127 | the nets of all year summaries add up to the total realized amount of the ledger |
| Scenarios.LossWithoutReacquisition | acbLogic.ts:36-75 | buying 100 at 10 then selling all at 8 sixty days later realizes −200, unflagged, and empties the pool |
| Scenarios.FullSaleIsNeverSuperficial | acbLogic.ts:60 | the same sale with a buy five days later still realizes −200 unflagged, since no shares remain |
| Scenarios.PartialSaleIsSuperficial | acbLogic.ts:48-65 | selling 90 of 100 with a buy five days later realizes 0, is flagged, and leaves 10 shares costing 280 (native 100) |
| Scenarios.OwnPurchaseCountsAsReacquisition | acbLogic.ts:49-58 | selling 50 of 100 at a loss ten days after the only buy is flagged: the opening buy is in the window |

## Left out

- Floating point: money and quantities are exact reals. IEEE-754 rounding and drift are not modelled; 0.000001 is kept as the policy threshold.
- Dates: a `Date` is an integer count of milliseconds. `subDays` and `addDays` are fixed offsets of 30 × 86 400 000 ms, so daylight-saving days are not modelled. An invalid date (NaN timestamp) is not modelled either.
- `getFullYear` is the parameter `yearOf` of the tax aggregator, because its local-time calendar is outside the model. The properties hold for every such function.
- Object.values order: JavaScript lists integer-like keys first, ascending, then the others in insertion order. The model lists keys in insertion order. For tax years this does not matter, because the result is sorted by distinct years. For positions it differs only for symbols that look like array indices.
- Symbols are assumed not to be names of properties that plain JavaScript objects inherit (`constructor`, `toString`, `valueOf`, `__proto__` and so on). For such a symbol, `positions[tx.symbol]` (acbLogic.ts:12) is already truthy, so no pool is created and the arithmetic yields NaN. For `__proto__`, the writes of lines 77-79 and 101 go to prototypes, and `Object.values` (line 112) leaves the symbol out. The model gives every symbol an empty pool and ordinary arithmetic.
- The per-share cost computed before the transition (acbLogic.ts:26) is never used; line 89 overwrites it. It is not modelled.
- `notes` is never set by the engine; entries carry `None`.
- App.tsx, the components and vite.config.ts are not part of this model. They hold storage, file upload, CSV parsing, a network FX fetch and UI rendering.
