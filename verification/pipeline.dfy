/**
 * `main`: load the usage CSV, load the price CSV, run the slot loop over the
 * configured window and report. Every fatal condition (a failed load, a slot
 * without usage) ends the run with no report.
 */
module Pipeline {
  import opened Wrappers
  import opened TimeKeys
  import opened CsvStream
  import opened UsageLoader
  import opened PriceLoader
  import opened Reconciler

  /** The final summary block (main.go lines 92-100). */
  datatype Report = Report(
    periodFrom: Instant,
    periodTo: Instant,
    missingWarning: Option<nat>,   // the "missing periods excluded" warning, when printed
    consumptionKWh: real,
    costPounds: real)

  /** Why the run stops before reporting. */
  datatype Abort =
    | UsageLoadFailed(usageError: UsageError)
    | PriceLoadFailed(priceError: PriceError)
    | UsageMissing(reconcileError: ReconcileError)

  /** The summary of the totals: the warning appears exactly when some price
      was missing and carries their count; the cost is converted from pence
      to pounds; the export price plays no part. */
  function Summarize(first: int, last: int, t: Totals): (r: Report)
    ensures r.missingWarning.Some? <==> t.missing > 0
    ensures r.missingWarning.Some? ==> r.missingWarning.value == t.missing
    ensures r.consumptionKWh == t.consumption
    ensures r.costPounds * 100.0 == t.cost
    ensures r.periodFrom == Utc(first) && r.periodTo == Utc(last)
  {
    Report(
      Utc(first), Utc(last),
      if t.missing > 0 then Some(t.missing) else None,
      t.consumption,
      t.cost / 100.0)
  }

  /** The whole program over the two CSV outcome streams. */
  method Run(up: UsageParsers, pp: PriceParsers, usageCsv: seq<ReadOutcome>, priceCsv: seq<ReadOutcome>)
    returns (r: Result<Report, Abort>)
    ensures LoadUsage(up, usageCsv).Failure? ==> r == Failure(UsageLoadFailed(LoadUsage(up, usageCsv).error))
    ensures LoadUsage(up, usageCsv).Success? && LoadPrices(pp, priceCsv).Failure? ==>
      r == Failure(PriceLoadFailed(LoadPrices(pp, priceCsv).error))
    ensures r.Success? <==>
      && LoadUsage(up, usageCsv).Success?
      && LoadPrices(pp, priceCsv).Success?
      && UsageCovers(LoadUsage(up, usageCsv).value, FirstPeriodStarts, SlotCount(FirstPeriodStarts, LastPeriodStarts))
    ensures r.Success? ==>
      r.value == Summarize(FirstPeriodStarts, LastPeriodStarts,
        Expected(LoadUsage(up, usageCsv).value, LoadPrices(pp, priceCsv).value, FirstPeriodStarts, SlotCount(FirstPeriodStarts, LastPeriodStarts)))
  {
    var usage := LoadUsage(up, usageCsv);
    if usage.Failure? {
      return Failure(UsageLoadFailed(usage.error));
    }
    var prices := LoadPrices(pp, priceCsv);
    if prices.Failure? {
      return Failure(PriceLoadFailed(prices.error));
    }
    var totals, _ := Reconcile(usage.value, prices.value, FirstPeriodStarts, LastPeriodStarts);
    if totals.Failure? {
      return Failure(UsageMissing(totals.error));
    }
    return Success(Summarize(FirstPeriodStarts, LastPeriodStarts, totals.value));
  }
}
