/** Record shapes shared by the ledger engine and its two aggregators.
    Money and share quantities are exact reals; timestamps are integer
    milliseconds since the epoch (the value of `Date.getTime()`). */
module Types {

  datatype Option<+T> = None | Some(value: T)

  /** The three kinds of event the engine recognises. */
  datatype TransactionType = Buy | Sell | Split

  /** An input event. `quantity` is non-negative for buys and sells and a
      signed share-count delta for splits; `fxRate` converts the native
      currency into the home currency (1.0 when they coincide). */
  datatype RawTransaction = RawTransaction(
    id: string,
    symbol: string,
    dateTime: int,
    kind: TransactionType,
    quantity: real,
    price: real,
    commission: real,
    fxRate: real,
    currency: string,
    description: Option<string>)

  /** One computed ledger line: the transaction it was made from, together
      with the cost pool of its symbol before and after the transaction. */
  datatype LedgerEntry = LedgerEntry(
    tx: RawTransaction,
    acbBefore: real,
    acbAfter: real,
    sharesBefore: real,
    sharesAfter: real,
    acbPerShare: real,
    nativeCostBefore: real,
    nativeCostAfter: real,
    realizedGainLoss: real,
    isSuperficial: bool,
    notes: Option<string>)

  /** The current holding of one symbol, read off its last ledger entry. */
  datatype PositionSummary = PositionSummary(
    symbol: string,
    totalShares: real,
    totalACB: real,
    totalNativeCost: real,
    currency: string,
    acbPerShare: real,
    isForeign: bool,
    lastFxRate: real)

  /** Realized gains and losses of one calendar year. */
  datatype TaxYearSummary = TaxYearSummary(
    year: int,
    totalRealizedGains: real,
    totalRealizedLosses: real,
    netGainLoss: real)

  function Abs(x: real): (r: real)
    ensures r >= 0.0 && (r == x || r == -x)
  {
    if x < 0.0 then -x else x
  }
}
