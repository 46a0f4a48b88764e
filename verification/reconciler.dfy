/**
 * The slot loop of `main`: walk a 30-minute grid from the first period start
 * while the slot start is before the last period start, look each slot's end
 * up in both mappings, abort on missing usage, count a missing price, and
 * otherwise accumulate consumption and cost.
 */
module Reconciler {
  import opened Wrappers
  import opened TimeKeys
  import opened UsageLoader
  import opened PriceLoader

  /** The loop's running state: `missing`, `cumulativeConsumption` (kWh) and `cumulativeCost` (pence). */
  datatype Totals = Totals(missing: nat, consumption: real, cost: real)

  /** The loop panics with the end of the first slot that has no usage. */
  datatype ReconcileError = NoUsage(slotEnd: Instant)

  /** Start of slot `i` of the grid that begins at `first`. */
  function SlotStart(first: int, i: int): int {
    first + i * SlotLength
  }

  /** The key slot `i` is looked up by: the minute of its end, in UTC. */
  function SlotKey(first: int, i: int): int {
    MapKey(Utc(SlotStart(first, i) + SlotLength))
  }

  /** How many slots the loop visits: every slot that starts before `last`, and no other. */
  function SlotCount(first: int, last: int): (n: nat)
    ensures forall i :: 0 <= i < n ==> SlotStart(first, i) < last
    ensures last <= SlotStart(first, n)
  {
    if last <= first then 0 else (last - first + SlotLength - 1) / SlotLength
  }

  /** Every one of the first `n` slots has a usage entry. */
  predicate UsageCovers(usage: map<int, UsageRecord>, first: int, n: int) {
    forall i :: 0 <= i < n ==> SlotKey(first, i) in usage
  }

  /** Slot `j` is the first of the first `n` slots without a usage entry. */
  predicate FirstUncovered(usage: map<int, UsageRecord>, first: int, n: int, j: int) {
    0 <= j < n && SlotKey(first, j) !in usage && UsageCovers(usage, first, j)
  }

  /** Number of the first `n` slots whose price is missing. */
  function MissingPrices(prices: map<int, PriceRecord>, first: int, n: nat): nat {
    if n == 0 then 0
    else MissingPrices(prices, first, n - 1) + (if SlotKey(first, n - 1) in prices then 0 else 1)
  }

  /** Number of the first `n` slots whose price is present. */
  function PricedSlots(prices: map<int, PriceRecord>, first: int, n: nat): nat {
    if n == 0 then 0
    else PricedSlots(prices, first, n - 1) + (if SlotKey(first, n - 1) in prices then 1 else 0)
  }

  /** Consumption of slot `i` counted in the total: its usage when both entries exist, otherwise nothing. */
  function SlotConsumption(usage: map<int, UsageRecord>, prices: map<int, PriceRecord>, first: int, i: int): real {
    var k := SlotKey(first, i);
    if k in usage && k in prices then usage[k].usage else 0.0
  }

  /** Cost of slot `i` in pence: usage times import price when both entries exist, otherwise nothing. */
  function SlotCost(usage: map<int, UsageRecord>, prices: map<int, PriceRecord>, first: int, i: int): real {
    var k := SlotKey(first, i);
    if k in usage && k in prices then usage[k].usage * prices[k].importPrice else 0.0
  }

  /** Sum of the counted consumption of the first `n` slots. */
  function ConsumptionSum(usage: map<int, UsageRecord>, prices: map<int, PriceRecord>, first: int, n: nat): real {
    if n == 0 then 0.0
    else ConsumptionSum(usage, prices, first, n - 1) + SlotConsumption(usage, prices, first, n - 1)
  }

  /** Sum of the cost of the first `n` slots, in pence. */
  function CostSum(usage: map<int, UsageRecord>, prices: map<int, PriceRecord>, first: int, n: nat): real {
    if n == 0 then 0.0
    else CostSum(usage, prices, first, n - 1) + SlotCost(usage, prices, first, n - 1)
  }

  /** The totals the first `n` slots should produce. */
  function Expected(usage: map<int, UsageRecord>, prices: map<int, PriceRecord>, first: int, n: nat): Totals {
    Totals(MissingPrices(prices, first, n), ConsumptionSum(usage, prices, first, n), CostSum(usage, prices, first, n))
  }

  /** The slot loop of `main` (main.go lines 61-90). It aborts with the end
      of the first slot that lacks usage, and otherwise returns the reference
      totals over every slot that starts before `last`. The ghost
      `accumulated` counts the slots whose usage and cost were added. */
  method Reconcile(usage: map<int, UsageRecord>, prices: map<int, PriceRecord>, first: int, last: int)
    returns (r: Result<Totals, ReconcileError>, ghost accumulated: nat)
    ensures r.Success? <==> UsageCovers(usage, first, SlotCount(first, last))
    ensures r.Success? ==> r.value == Expected(usage, prices, first, SlotCount(first, last))
    ensures r.Failure? ==>
      exists j :: FirstUncovered(usage, first, SlotCount(first, last), j) && r.error == NoUsage(Utc(SlotStart(first, j) + SlotLength))
    ensures r.Success? ==> accumulated == PricedSlots(prices, first, SlotCount(first, last))
    ensures r.Success? ==> r.value.missing + accumulated == SlotCount(first, last)
  {
    var missing: nat := 0;
    var cumulativeCost := 0.0;
    var cumulativeConsumption := 0.0;
    ghost var n := SlotCount(first, last);
    ghost var i := 0;
    accumulated := 0;
    var start := first;
    while start < last
      invariant 0 <= i <= n
      invariant start == SlotStart(first, i)
      invariant UsageCovers(usage, first, i)
      invariant Totals(missing, cumulativeConsumption, cumulativeCost) == Expected(usage, prices, first, i)
      invariant accumulated == PricedSlots(prices, first, i)
      decreases last - start
    {
      var end := start + SlotLength;
      var key := MapKey(Utc(end));
      assert key == SlotKey(first, i) && end == SlotStart(first, i + 1);
      if key !in usage {
        assert FirstUncovered(usage, first, n, i);
        return Failure(NoUsage(Utc(end))), accumulated;
      }
      var consumption := usage[key];
      SlotStep(usage, prices, first, i);
      if key !in prices {
        missing := missing + 1;
        start := end;
        i := i + 1;
        continue;
      }
      var price := prices[key];
      cumulativeConsumption := cumulativeConsumption + consumption.usage;
      cumulativeCost := cumulativeCost + consumption.usage * price.importPrice;
      accumulated := accumulated + 1;
      start := end;
      i := i + 1;
    }
    assert i == n;
    MissingPlusPricedIsVisited(prices, first, i);
    return Success(Totals(missing, cumulativeConsumption, cumulativeCost)), accumulated;
  }

  /** Every visited slot is either counted as missing or accumulated. */
  lemma {:induction false} MissingPlusPricedIsVisited(prices: map<int, PriceRecord>, first: int, n: nat)
    ensures MissingPrices(prices, first, n) + PricedSlots(prices, first, n) == n
  {
    if n > 0 {
      MissingPlusPricedIsVisited(prices, first, n - 1);
    }
  }

  /** One more slot: a missing price adds exactly 1 to `missing` and leaves
      both totals alone; a present price adds the slot's usage and usage times
      import price. */
  lemma SlotStep(usage: map<int, UsageRecord>, prices: map<int, PriceRecord>, first: int, i: nat)
    requires SlotKey(first, i) in usage
    ensures SlotKey(first, i) !in prices ==>
      Expected(usage, prices, first, i + 1) == Expected(usage, prices, first, i).(missing := MissingPrices(prices, first, i) + 1)
    ensures SlotKey(first, i) in prices ==>
      var u := usage[SlotKey(first, i)].usage;
      var t := Expected(usage, prices, first, i);
      Expected(usage, prices, first, i + 1) ==
        Totals(t.missing, t.consumption + u, t.cost + u * prices[SlotKey(first, i)].importPrice)
  {
  }

  /** Only the import price of a price record matters: export price and the
      period instants never reach the totals. */
  lemma {:induction false} ImportPriceOnly(usage: map<int, UsageRecord>, prices: map<int, PriceRecord>, prices': map<int, PriceRecord>, first: int, n: nat)
    requires prices.Keys == prices'.Keys
    requires forall k :: k in prices ==> prices[k].importPrice == prices'[k].importPrice
    ensures Expected(usage, prices, first, n) == Expected(usage, prices', first, n)
  {
    if n > 0 {
      ImportPriceOnly(usage, prices, prices', first, n - 1);
    }
  }

  /** On a grid that ends exactly on `last`, the loop visits (last - first) / 30
      minutes slots; the last one ends at `last`, and a slot starting at `last`
      is never visited. */
  lemma AlignedWindow(first: int, last: int)
    requires first <= last && (last - first) % SlotLength == 0
    ensures SlotCount(first, last) == (last - first) / SlotLength
    ensures SlotStart(first, SlotCount(first, last)) == last
    ensures forall i :: 0 <= i < SlotCount(first, last) ==> SlotStart(first, i) != last
  {
  }

  /** The configured window, 1 November 2022 00:00 to 30 October 2023 23:30
      UTC, is 17471 slots; the last one visited is 23:00-23:30. */
  lemma ConfiguredWindow()
    ensures SlotCount(FirstPeriodStarts, LastPeriodStarts) == 17471
    ensures SlotStart(FirstPeriodStarts, 17470) + SlotLength == LastPeriodStarts
  {
  }

  /** A single slot with 0.5 kWh of usage at 20 p/kWh accumulates 0.5 kWh and 10 p. */
  lemma SingleSlotExample(first: int, exportPrice: real)
    ensures
      var k := MapKey(Utc(first + SlotLength));
      var usage := map[k := UsageRecord(Utc(first + SlotLength), 0.5)];
      var prices := map[k := PriceRecord(Utc(first), Utc(first + SlotLength), 20.0, exportPrice)];
      SlotCount(first, first + SlotLength) == 1
      && UsageCovers(usage, first, 1)
      && Expected(usage, prices, first, 1) == Totals(0, 0.5, 10.0)
  {
    AlignedWindow(first, first + SlotLength);
    var k := MapKey(Utc(first + SlotLength));
    assert SlotKey(first, 0) == k;
    var usage := map[k := UsageRecord(Utc(first + SlotLength), 0.5)];
    var prices := map[k := PriceRecord(Utc(first), Utc(first + SlotLength), 20.0, exportPrice)];
    assert SlotCost(usage, prices, first, 0) == 10.0;
    assert SlotCount(first, first + SlotLength) == 1;
    assert UsageCovers(usage, first, 1);
    assert MissingPrices(prices, first, 1) == 0;
    assert ConsumptionSum(usage, prices, first, 1) == 0.5;
    assert CostSum(usage, prices, first, 1) == 10.0;
  }
}
