# Octopus Agile cost comparison — a Dafny model of the join-and-accumulate pipeline

The program prices a year of half-hourly electricity consumption against the
Octopus Agile half-hourly tariff. It loads two CSV files into mappings keyed
by a minute-resolution timestamp, then walks a fixed 30-minute grid from
1 November 2022 00:00 UTC up to (not including) 30 October 2023 23:30 UTC.
For each slot it looks up the slot's end in both mappings and accumulates
consumption (kWh) and cost (pence), and finally reports the total cost in
pounds.

This project models that pipeline in Dafny and proves properties of it:

- `TimeKeys`: instants as nanoseconds since the epoch plus a fixed zone
  offset, and `mapKey` as the wall-clock minute of an instant in its own zone.
- `Keyed`: building a mapping from an ordered sequence of writes, where the
  last write to a key wins.
- `CsvStream`: the CSV reader as a sequence of read outcomes (`Row`,
  `FieldCountError`, `EndOfInput`, `ReadError`), and the rows that reach the
  loop body.
- `UsageLoader`: `loadUsageCSV`. This loader is strict: a parse failure
  aborts the load.
- `PriceLoader`: `loadAgilePrices`. This loader is lenient: a parse failure
  skips the row.
- `Reconciler`: the slot loop of `main`, written as a `while` loop. It is
  proved equal to index-based reference sums over the slots it visits.
- `Pipeline`: `main` end to end, with the summary arithmetic.

The parsers (`time.Parse`, `strconv.ParseFloat`) are parameters of the
loaders: opaque partial functions returning `Option`. Usage timestamps are
parsed with their written offset and keyed in that offset. Price times and
grid slots are UTC. Quantities are `real`.

Usage keys and grid keys can sit in different zones. Suppose a usage row is
written with an offset other than zero, such as `+01:00` in British Summer
Time. That row is keyed by its local minute, while the slot loop looks up UTC
minutes. `TimeKeys.OffsetShiftsKey` states how far the key moves. The price
file's dates carry no zone, so whether its times are really UTC is not visible
here. The model therefore records this behaviour and makes no claim about
whether it is intended.

Two consequences of the code as written:
- The usage loop never checks that a row has exactly two fields. It indexes
  `row[0]` and `row[1]`, so extra fields are ignored. A row too short to
  index is a runtime panic, modelled as the failure `RowTooShort`. The
  timestamp is parsed before `row[1]` is read, so a one-field row whose
  timestamp fails gives the timestamp error, not the panic.
- The price loop parses its four fields in order and skips the row at the
  first field that fails. So a row whose `period_from` fails is skipped even
  if it has only one field. A row that parses its first fields and then runs
  out of fields panics.

## Model

| member | source | states |
|---|---|---|
| TimeKeys.MapKey | main.go:105-107 | the key is the one minute whose span contains the time's wall-clock reading in its own zone |
| TimeKeys.MapKeyUnique | main.go:105-107 | any minute whose span contains the wall clock is the key, so two times share a key exactly when their wall clocks lie in the same minute |
| TimeKeys.KeyIgnoresSubMinute | main.go:105-107 | seconds and sub-second detail that stay within the minute do not change the key |
| TimeKeys.UtcMinuteKey | main.go:65-68 | a minute-aligned UTC instant (every grid slot end) is keyed by its own minute |
| TimeKeys.OffsetShiftsKey | main.go:150-164 | a usage time parsed with a zone offset is keyed in that offset: the key differs from the UTC key by the offset in minutes |
| Keyed.Upsert | main.go:161-164 | the keys after a sequence of writes are the earlier keys plus every written key |
| Keyed.LastWriteWins | main.go:161-164 | the value under a key is the value of the last write to that key |
| Keyed.UnwrittenKeyKept | main.go:222-227 | a key that no write touches keeps its earlier presence and value |
| CsvStream.RowsBeforeStop | main.go:140-147 | the rows the loop body sees are rows of the stream, no more of them than outcomes |
| CsvStream.RowReachesLoop | main.go:140-147 | a row read before any stop reaches the loop body, ahead of every row after it; with the skip and stop lemmas this fixes the loop's input as every row before the first stop, in order |
| CsvStream.FieldCountErrorSkipped | main.go:142-145 | a field-count error is skipped: removing it leaves the rows the loop sees unchanged |
| CsvStream.StopEndsReading | main.go:140-147 | end of input or any other read error ends reading: nothing after it reaches the loop |
| UsageLoader.ParseUsageRow | main.go:149-164 | a row yields a write exactly when it has at least two fields and the first two parse; the record holds the parsed time and usage, keyed by the minute of that time in its own offset; otherwise the error names the field that failed, except that a row with no field, or one field whose timestamp parses, fails with RowTooShort |
| UsageLoader.ParseUsageRows | main.go:149-159 | parsing succeeds exactly when every row parses, with one write per row in order; a failure carries the error of the first bad row |
| UsageLoader.UsageLoop | main.go:139-167 | a successful loop keeps every key it started with |
| UsageLoader.LoadUsage | main.go:134-137 | an empty stream or a header read error fails the load with HeaderUnreadable |
| UsageLoader.UsageLoopMeaning | main.go:139-167 | the loop fails with the first bad row's error exactly when some row before the stop does not parse; otherwise it returns the mapping built by writing those rows in order |
| UsageLoader.LoadUsageMeaning | main.go:134-167 | the load succeeds exactly when the header is a row and every later row before the stop parses, and then returns the ordered writes of those rows |
| UsageLoader.UsageLastWriteWins | main.go:161-164 | a row whose key no later row repeats is the record stored under that key |
| UsageLoader.UsageKeys | main.go:161-164 | the loaded keys are exactly the keys of the rows read before the stop |
| UsageLoader.UsageFieldCountErrorSkipped | main.go:141-145 | a field-count error skips its row and the load is unchanged |
| UsageLoader.UsageStopEndsLoad | main.go:141-147 | end of input or any other read error ends the load as if the stream ended there, returning the mapping so far |
| UsageLoader.UsageBadRowAborts | main.go:149-159 | a row that does not parse, reached before any stop, fails the whole load, whatever good rows came before |
| PriceLoader.ParsePriceRow | main.go:196-227 | a row yields a write exactly when all four fields are present and parse; the record holds UTC times and both prices, keyed by the minute of PeriodTo; the row fails with RowTooShort exactly when it has fewer than four fields and every field it has parses, and otherwise a bad field makes it skipped |
| PriceLoader.ParsePriceRows | main.go:196-227 | parsing fails exactly when some row is too short; every write comes from a row that parsed to it, and every row that parses is written |
| PriceLoader.ParsePriceRowsAppend | main.go:187-228 | the writes of two consecutive runs of rows are the writes of the first run followed by those of the second |
| PriceLoader.PriceWritesInRowOrder | main.go:187-228 | when two rows both parse, the earlier row's write comes before the later row's |
| PriceLoader.PriceLoop | main.go:186-230 | the loop never reports a parse error: its only failure is a too-short row |
| PriceLoader.LoadPrices | main.go:181-184 | an empty stream or a header read error fails the load with HeaderUnreadable; once the header is read, the only failure is a too-short row |
| PriceLoader.PriceLoopMeaning | main.go:186-230 | the loop returns the mapping built by writing, in order, the rows before the stop that parse, and fails only when one of them is too short |
| PriceLoader.LoadPricesMeaning | main.go:181-230 | the load succeeds exactly when the header is a row and no row before the stop is too short |
| PriceLoader.PriceLoopSkipsRow | main.go:196-220 | a row with any unparseable field is skipped: the loop result is the same as without the row |
| PriceLoader.PriceUnparseableRowSkipped | main.go:196-220 | the same for the whole load: the row is absent from the result and loading continues |
| PriceLoader.PriceFieldCountErrorSkipped | main.go:188-192 | a field-count error skips its row and the load is unchanged |
| PriceLoader.PriceStopEndsLoad | main.go:188-194 | end of input or any other read error ends the load as if the stream ended there |
| PriceLoader.PriceRowsLastWriteWins | main.go:222-227 | over a sequence of rows, the write of a parsed row survives when no later parsed row has its key |
| PriceLoader.PriceLastWriteWins | main.go:222-227 | a parsed row whose PeriodTo key no later parsed row repeats is the record stored under that key |
| PriceLoader.PriceRowsKeys | main.go:222-227 | the keys the rows write are exactly the PeriodTo keys of the rows that parse |
| PriceLoader.PriceKeys | main.go:222-230 | the loaded keys are exactly the PeriodTo keys of the rows before the stop that parse |
| Reconciler.SlotCount | main.go:65 | the loop visits exactly the slots that start before the last period start, stepping 30 minutes from the first |
| Reconciler.Reconcile | main.go:61-90 | the loop aborts exactly when some visited slot's end has no usage, reporting the first such slot's end; otherwise missing, consumption and cost equal the per-slot reference sums, and missing plus the slots actually accumulated equals the slots visited |
| Reconciler.MissingPlusPricedIsVisited | main.go:73-89 | among the first n slots, those without a price plus those with one number n; the slot loop uses this to close its visited-slot count |
| Reconciler.SlotStep | main.go:73-89 | a missing price adds exactly 1 to missing and leaves both totals alone; a present price adds usage to consumption and usage times import price to cost |
| Reconciler.ImportPriceOnly | main.go:88-89 | totals depend only on which slots have prices and on their import prices, never on export price or period instants |
| Reconciler.AlignedWindow | main.go:65 | on a grid that ends exactly at the last period start, the last visited slot ends there and the slot starting there is never visited |
| Reconciler.ConfiguredWindow | main.go:37-38 | the configured window covers 17471 slots, the last ending at 30 October 2023 23:30 UTC |
| Reconciler.SingleSlotExample | main.go:88-89 | for any grid start, one slot with 0.5 kWh at 20 p/kWh accumulates 0.5 kWh and 10 p, with no missing price |
| Pipeline.Summarize | main.go:92-101 | the missing-periods warning appears exactly when missing > 0 and carries the count; cost in pounds times 100 is the cost in pence; consumption is passed through |
| Pipeline.Run | main.go:40-101 | a failed usage load, a failed price load or a slot without usage ends the run with no report; otherwise the report is the summary of the reference totals over the configured window |

## Left out

- File opening, `defer file.Close()` and CSV tokenising are I/O and library behaviour. The reader is an abstract sequence of outcomes, and reading past its end gives end of input.
- Whether `encoding/csv` returns the bare `csv.ErrFieldCount` that the loops compare against, or wraps it, is library behaviour. The model follows the branches as written: a `FieldCountError` outcome is skipped.
- `time.Parse` and `strconv.ParseFloat` are opaque partial functions given as parameters. Their layouts and grammars are not modelled.
- `time.Format` rendering is not modelled. Keys are integer minutes, which identify the same minutes as the "2006-01-02 15:04" strings.
- float64 arithmetic is not modelled. Quantities are exact `real`s, so nothing here speaks of rounding.
- All `fmt.Printf` output is left out: the per-slot lines, the missing-price warnings, the parse diagnostics and the `%.2f` formatting of the summary. The summary is returned as a value.
- The two "print the first record" loops (main.go:46-49 and main.go:56-59) are left out. Go map iteration order is unspecified, so they print an arbitrary record.
- `panic` and a returned error are not distinguished. Both are a `Failure` that ends the run.
- The tariff comments (main.go:11-35) are not code.
