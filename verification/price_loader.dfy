/**
 * `loadAgilePrices`: folds the tariff CSV into a mapping keyed by the minute
 * of each row's `PeriodTo`. Its policy is lenient: a field-count error or a
 * field that does not parse skips only that row, and no parse failure is
 * ever reported as an error.
 */
module PriceLoader {
  import opened Wrappers
  import opened TimeKeys
  import opened Keyed
  import opened CsvStream

  datatype PriceRecord = PriceRecord(
    periodFrom: Instant,
    periodTo: Instant,
    importPrice: real,   // pence per kWh
    exportPrice: real)   // pence per kWh

  /** Why the price load gives up. A field that does not parse is never one
      of these: such a row is skipped. */
  datatype PriceError =
    | HeaderUnreadable            // the header `reader.Read()` failed
    | RowTooShort(width: nat)     // `row[i]` out of range: the program panics

  /** The parsers the loader calls, as opaque partial functions:
      `time.Parse("02/01/2006 15:04", ·)`, whose result carries no zone and is
      therefore UTC (given here as nanoseconds since the epoch), and
      `strconv.ParseFloat(·, 64)`. */
  datatype PriceParsers = PriceParsers(
    parsePeriod: string -> Option<int>,
    parsePrice: string -> Option<real>)

  /** True when all four fields are present and parse. */
  predicate PriceRowParses(p: PriceParsers, fields: seq<string>) {
    && |fields| >= 4
    && p.parsePeriod(fields[0]).Some? && p.parsePeriod(fields[1]).Some?
    && p.parsePrice(fields[2]).Some? && p.parsePrice(fields[3]).Some?
  }

  /** Field `k` parses: the two periods as times, the two prices as numbers. */
  predicate FieldParses(p: PriceParsers, fields: seq<string>, k: int)
    requires 0 <= k < |fields|
  {
    if k < 2 then p.parsePeriod(fields[k]).Some? else p.parsePrice(fields[k]).Some?
  }

  /** The body of the read loop for one row: `Some` write, `None` when the
      row is skipped, or a failure when a field is indexed past the row's end.
      Fields are parsed and indexed in source order, so a row is skipped at
      its first unparseable field before any later field is indexed. */
  function ParsePriceRow(p: PriceParsers, fields: seq<string>): (r: Result<Option<(int, PriceRecord)>, PriceError>)
    ensures r.Failure? ==> |fields| < 4 && r.error == RowTooShort(|fields|)
    ensures r.Failure? <==> |fields| < 4 && forall k :: 0 <= k < |fields| ==> FieldParses(p, fields, k)
    ensures |fields| >= 4 ==> r.Success?
    ensures r.Success? && r.value.Some? <==> PriceRowParses(p, fields)
    ensures r.Success? && r.value.Some? ==>
      && r.value.value.1 == PriceRecord(
           Utc(p.parsePeriod(fields[0]).value), Utc(p.parsePeriod(fields[1]).value),
           p.parsePrice(fields[2]).value, p.parsePrice(fields[3]).value)
      && r.value.value.0 == MapKey(r.value.value.1.periodTo)
  {
    if |fields| < 1 then Failure(RowTooShort(|fields|))
    else
      match p.parsePeriod(fields[0])
      case None => assert !FieldParses(p, fields, 0); Success(None)
      case Some(from) =>
        if |fields| < 2 then Failure(RowTooShort(|fields|))
        else
          match p.parsePeriod(fields[1])
          case None => assert !FieldParses(p, fields, 1); Success(None)
          case Some(to) =>
            if |fields| < 3 then Failure(RowTooShort(|fields|))
            else
              match p.parsePrice(fields[2])
              case None => assert !FieldParses(p, fields, 2); Success(None)
              case Some(importPrice) =>
                if |fields| < 4 then Failure(RowTooShort(|fields|))
                else
                  match p.parsePrice(fields[3])
                  case None => assert !FieldParses(p, fields, 3); Success(None)
                  case Some(exportPrice) =>
                    var rec := PriceRecord(Utc(from), Utc(to), importPrice, exportPrice);
                    Success(Some((MapKey(rec.periodTo), rec)))
  }

  /** True when no row is too short for the loop body to handle. */
  predicate NoShortPriceRow(p: PriceParsers, rows: seq<seq<string>>) {
    forall i :: 0 <= i < |rows| ==> ParsePriceRow(p, rows[i]).Success?
  }

  /** Write `w` is what some row of `rows` parses to. */
  predicate FromParsedRow(p: PriceParsers, rows: seq<seq<string>>, w: (int, PriceRecord)) {
    exists i :: 0 <= i < |rows| && ParsePriceRow(p, rows[i]) == Success(Some(w))
  }

  /** The writes the rows produce, in order, skipping rows that do not parse. */
  function ParsePriceRows(p: PriceParsers, rows: seq<seq<string>>): (r: Result<seq<(int, PriceRecord)>, PriceError>)
    ensures r.Success? <==> NoShortPriceRow(p, rows)
    ensures r.Failure? ==> r.error.RowTooShort?
    ensures r.Success? ==> forall j {:trigger FromParsedRow(p, rows, r.value[j])} :: 0 <= j < |r.value| ==>
      FromParsedRow(p, rows, r.value[j])
    ensures r.Success? ==> forall i {:trigger PriceRowParses(p, rows[i])} :: 0 <= i < |rows| && PriceRowParses(p, rows[i]) ==>
      ParsePriceRow(p, rows[i]).value.value in r.value
    decreases |rows|
  {
    if |rows| == 0 then Success([])
    else
      match ParsePriceRow(p, rows[0])
      case Failure(e) => Failure(e)
      case Success(w) =>
        match ParsePriceRows(p, rows[1..])
        case Failure(e) => Failure(e)
        case Success(ws) =>
          assert forall i :: 0 < i < |rows| ==> rows[i] == rows[1..][i - 1];
          assert forall j :: 0 <= j < |ws| ==> FromParsedRow(p, rows, ws[j]) by {
            forall j | 0 <= j < |ws|
              ensures FromParsedRow(p, rows, ws[j])
            {
              assert FromParsedRow(p, rows[1..], ws[j]);
              var i :| 0 <= i < |rows[1..]| && ParsePriceRow(p, rows[1..][i]) == Success(Some(ws[j]));
              assert rows[i + 1] == rows[1..][i];
            }
          }
          match w
          case None => Success(ws)
          case Some(x) =>
            assert FromParsedRow(p, rows, x) by {
              assert ParsePriceRow(p, rows[0]) == Success(Some(x));
            }
            assert forall j :: 0 < j < |[x] + ws| ==> ([x] + ws)[j] == ws[j - 1];
            Success([x] + ws)
  }

  /** Writes keep the order of their rows: the writes of `a + b` are the
      writes of `a` followed by the writes of `b`. */
  lemma {:induction false} ParsePriceRowsAppend(p: PriceParsers, a: seq<seq<string>>, b: seq<seq<string>>)
    requires NoShortPriceRow(p, a + b)
    ensures NoShortPriceRow(p, a) && NoShortPriceRow(p, b)
    ensures ParsePriceRows(p, a + b).value == ParsePriceRows(p, a).value + ParsePriceRows(p, b).value
    decreases |a|
  {
    assert forall i :: 0 <= i < |a| ==> (a + b)[i] == a[i];
    assert forall i :: 0 <= i < |b| ==> (a + b)[|a| + i] == b[i];
    if |a| == 0 {
      assert a + b == b;
    } else {
      assert (a + b)[0] == a[0];
      assert (a + b)[1..] == a[1..] + b;
      ParsePriceRowsAppend(p, a[1..], b);
    }
  }

  /** Parsed rows are written in row order: when rows `i < j` both parse,
      the write of `i` comes before the write of `j`. */
  lemma PriceWritesInRowOrder(p: PriceParsers, rows: seq<seq<string>>, i: int, j: int)
    requires NoShortPriceRow(p, rows)
    requires 0 <= i < j < |rows| && PriceRowParses(p, rows[i]) && PriceRowParses(p, rows[j])
    ensures exists x, y ::
              && 0 <= x < y < |ParsePriceRows(p, rows).value|
              && ParsePriceRows(p, rows).value[x] == ParsePriceRow(p, rows[i]).value.value
              && ParsePriceRows(p, rows).value[y] == ParsePriceRow(p, rows[j]).value.value
  {
    var a, b := rows[..j], rows[j..];
    assert rows == a + b;
    ParsePriceRowsAppend(p, a, b);
    var wa, wb := ParsePriceRows(p, a).value, ParsePriceRows(p, b).value;
    var wi, wj := ParsePriceRow(p, rows[i]).value.value, ParsePriceRow(p, rows[j]).value.value;
    assert a[i] == rows[i] && PriceRowParses(p, a[i]);
    assert wi in wa;
    assert b[0] == rows[j] && PriceRowParses(p, b[0]);
    assert wj in wb;
    var x :| 0 <= x < |wa| && wa[x] == wi;
    var y :| 0 <= y < |wb| && wb[y] == wj;
    var ws := wa + wb;
    assert ws[x] == wi && ws[|wa| + y] == wj;
  }

  /** The read loop (main.go lines 186-230), from the current position with the records built so far. */
  function PriceLoop(p: PriceParsers, s: seq<ReadOutcome>, records: map<int, PriceRecord>): (r: Result<map<int, PriceRecord>, PriceError>)
    ensures r.Failure? ==> r.error.RowTooShort?
    ensures r.Success? ==> records.Keys <= r.value.Keys
    decreases |s|
  {
    if |s| == 0 then Success(records)
    else
      match s[0]
      case FieldCountError => PriceLoop(p, s[1..], records)
      case EndOfInput => Success(records)
      case ReadError => Success(records)
      case Row(fields) =>
        match ParsePriceRow(p, fields)
        case Failure(e) => Failure(e)
        case Success(None) => PriceLoop(p, s[1..], records)
        case Success(Some(w)) => PriceLoop(p, s[1..], records[w.0 := w.1])
  }

  /** `loadAgilePrices`: read and ignore the header, then run the loop from an empty mapping. */
  function LoadPrices(p: PriceParsers, s: seq<ReadOutcome>): (r: Result<map<int, PriceRecord>, PriceError>)
    ensures (|s| == 0 || !s[0].Row?) ==> r == Failure(HeaderUnreadable)
    ensures r.Failure? && |s| > 0 && s[0].Row? ==> r.error.RowTooShort?
  {
    if |s| == 0 || !s[0].Row? then Failure(HeaderUnreadable)
    else PriceLoop(p, s[1..], map[])
  }

  /** The loop writes, in order, the rows before the stop that parse; it fails
      only when one of those rows is too short to index. */
  lemma {:induction false} PriceLoopMeaning(p: PriceParsers, s: seq<ReadOutcome>, records: map<int, PriceRecord>)
    ensures PriceLoop(p, s, records) ==
      match ParsePriceRows(p, RowsBeforeStop(s))
      case Success(ws) => Success(Upsert(records, ws))
      case Failure(e) => Failure(e)
    decreases |s|
  {
    if |s| > 0 && !EndsLoop(s[0]) {
      var rest := DataRows(s);
      PriceLoopMeaning(p, s[1..], records);
      if s[0].Row? {
        var rows := [s[0].fields] + rest;
        assert rows[0] == s[0].fields && rows[1..] == rest;
        match ParsePriceRow(p, s[0].fields)
        case Failure(e) =>
        case Success(None) =>
        case Success(Some(w)) =>
          PriceLoopMeaning(p, s[1..], records[w.0 := w.1]);
          match ParsePriceRows(p, rest)
          case Failure(e) =>
          case Success(ws) =>
            assert ([w] + ws)[0] == w && ([w] + ws)[1..] == ws;
      }
    }
  }

  /** The load succeeds exactly when the header is a row and no row before the
      stop is too short; a field that fails to parse is never an error. */
  lemma LoadPricesMeaning(p: PriceParsers, s: seq<ReadOutcome>)
    ensures LoadPrices(p, s).Success? <==>
      |s| > 0 && s[0].Row? && NoShortPriceRow(p, DataRows(s))
    ensures LoadPrices(p, s).Success? ==>
      LoadPrices(p, s).value == Upsert(map[], ParsePriceRows(p, DataRows(s)).value)
  {
    if |s| > 0 && s[0].Row? {
      PriceLoopMeaning(p, s[1..], map[]);
    }
  }

  /** A row with any unparseable field is skipped: the load is the same as if
      the row were not there, so it is absent from the result and loading goes on. */
  lemma {:induction false} PriceLoopSkipsRow(p: PriceParsers, a: seq<ReadOutcome>, fields: seq<string>, b: seq<ReadOutcome>, records: map<int, PriceRecord>)
    requires ParsePriceRow(p, fields) == Success(None)
    ensures PriceLoop(p, a + [Row(fields)] + b, records) == PriceLoop(p, a + b, records)
    decreases |a|
  {
    var s := a + [Row(fields)] + b;
    if |a| == 0 {
      assert s[0] == Row(fields) && s[1..] == b;
      assert a + b == b;
    } else {
      assert s[0] == (a + b)[0] == a[0];
      assert s[1..] == a[1..] + [Row(fields)] + b;
      assert (a + b)[1..] == a[1..] + b;
      match a[0]
      case FieldCountError =>
        PriceLoopSkipsRow(p, a[1..], fields, b, records);
      case EndOfInput =>
      case ReadError =>
      case Row(f) =>
        match ParsePriceRow(p, f)
        case Failure(e) =>
        case Success(None) =>
          PriceLoopSkipsRow(p, a[1..], fields, b, records);
        case Success(Some(w)) =>
          PriceLoopSkipsRow(p, a[1..], fields, b, records[w.0 := w.1]);
    }
  }

  /** The same, stated for the whole load. */
  lemma PriceUnparseableRowSkipped(p: PriceParsers, a: seq<ReadOutcome>, fields: seq<string>, b: seq<ReadOutcome>)
    requires |a| > 0
    requires ParsePriceRow(p, fields) == Success(None)
    ensures LoadPrices(p, a + [Row(fields)] + b) == LoadPrices(p, a + b)
  {
    var s := a + [Row(fields)] + b;
    assert s[0] == (a + b)[0] == a[0];
    assert s[1..] == a[1..] + [Row(fields)] + b;
    assert (a + b)[1..] == a[1..] + b;
    PriceLoopSkipsRow(p, a[1..], fields, b, map[]);
  }

  /** A field-count error skips its row and reading continues. */
  lemma PriceFieldCountErrorSkipped(p: PriceParsers, a: seq<ReadOutcome>, b: seq<ReadOutcome>)
    requires |a| > 0
    ensures LoadPrices(p, a + [FieldCountError] + b) == LoadPrices(p, a + b)
  {
    var s := a + [FieldCountError] + b;
    assert s[0] == (a + b)[0] == a[0];
    assert s[1..] == a[1..] + [FieldCountError] + b;
    assert (a + b)[1..] == a[1..] + b;
    PriceLoopMeaning(p, s[1..], map[]);
    PriceLoopMeaning(p, (a + b)[1..], map[]);
    FieldCountErrorSkipped(a[1..], b);
  }

  /** End of input or any other read error stops the loop with the mapping built so far. */
  lemma PriceStopEndsLoad(p: PriceParsers, a: seq<ReadOutcome>, o: ReadOutcome, b: seq<ReadOutcome>)
    requires |a| > 0 && EndsLoop(o)
    ensures LoadPrices(p, a + [o] + b) == LoadPrices(p, a)
  {
    var s := a + [o] + b;
    assert s[0] == a[0];
    assert s[1..] == a[1..] + [o] + b;
    PriceLoopMeaning(p, s[1..], map[]);
    PriceLoopMeaning(p, a[1..], map[]);
    StopEndsReading(a[1..], o, b);
  }

  /** Row-level last write wins: the write of row `i` survives when no later
      parsed row has the same key. */
  lemma {:induction false} PriceRowsLastWriteWins(p: PriceParsers, rows: seq<seq<string>>, i: int, m: map<int, PriceRecord>)
    requires NoShortPriceRow(p, rows)
    requires 0 <= i < |rows| && PriceRowParses(p, rows[i])
    requires forall j :: i < j < |rows| && PriceRowParses(p, rows[j]) ==>
      ParsePriceRow(p, rows[j]).value.value.0 != ParsePriceRow(p, rows[i]).value.value.0
    ensures
      var w := ParsePriceRow(p, rows[i]).value.value;
      w.0 in Upsert(m, ParsePriceRows(p, rows).value) && Upsert(m, ParsePriceRows(p, rows).value)[w.0] == w.1
    decreases |rows|
  {
    var w := ParsePriceRow(p, rows[i]).value.value;
    var ws := ParsePriceRows(p, rows[1..]).value;
    assert forall j :: 0 < j < |rows| ==> rows[j] == rows[1..][j - 1];
    if i == 0 {
      assert ParsePriceRows(p, rows).value == [w] + ws;
      assert ([w] + ws)[0] == w && ([w] + ws)[1..] == ws;
      forall j | 0 <= j < |ws|
        ensures ws[j].0 != w.0
      {
        assert FromParsedRow(p, rows[1..], ws[j]);
        var k :| 0 <= k < |rows[1..]| && ParsePriceRow(p, rows[1..][k]) == Success(Some(ws[j]));
      }
      UnwrittenKeyKept(m[w.0 := w.1], ws, w.0);
    } else {
      match ParsePriceRow(p, rows[0]).value
      case None =>
        PriceRowsLastWriteWins(p, rows[1..], i - 1, m);
      case Some(x) =>
        assert ParsePriceRows(p, rows).value == [x] + ws;
        assert ([x] + ws)[0] == x && ([x] + ws)[1..] == ws;
        PriceRowsLastWriteWins(p, rows[1..], i - 1, m[x.0 := x.1]);
    }
  }

  /** Last write wins, keyed by `PeriodTo`: a parsed row whose key no later
      parsed row repeats is the record stored under that key. */
  lemma PriceLastWriteWins(p: PriceParsers, s: seq<ReadOutcome>, i: int)
    requires 0 < |s| && s[0].Row? && NoShortPriceRow(p, DataRows(s))
    requires 0 <= i < |DataRows(s)| && PriceRowParses(p, DataRows(s)[i])
    requires forall j :: i < j < |DataRows(s)| && PriceRowParses(p, DataRows(s)[j]) ==>
      ParsePriceRow(p, DataRows(s)[j]).value.value.0 != ParsePriceRow(p, DataRows(s)[i]).value.value.0
    ensures LoadPrices(p, s).Success?
    ensures
      var w := ParsePriceRow(p, DataRows(s)[i]).value.value;
      && w.0 == MapKey(w.1.periodTo)
      && w.0 in LoadPrices(p, s).value && LoadPrices(p, s).value[w.0] == w.1
  {
    LoadPricesMeaning(p, s);
    PriceRowsLastWriteWins(p, DataRows(s), i, map[]);
  }

  /** The keys the rows write are exactly the `PeriodTo` keys of the rows that parse. */
  lemma PriceRowsKeys(p: PriceParsers, rows: seq<seq<string>>, k: int)
    requires NoShortPriceRow(p, rows)
    ensures k in WrittenKeys(ParsePriceRows(p, rows).value) <==>
      exists i :: 0 <= i < |rows| && PriceRowParses(p, rows[i]) && ParsePriceRow(p, rows[i]).value.value.0 == k
  {
  }

  /** The loaded keys are exactly the `PeriodTo` keys of the rows before the
      stop that parse. */
  lemma PriceKeys(p: PriceParsers, s: seq<ReadOutcome>, k: int)
    requires 0 < |s| && s[0].Row? && NoShortPriceRow(p, DataRows(s))
    ensures LoadPrices(p, s).Success?
    ensures k in LoadPrices(p, s).value <==>
      exists i :: 0 <= i < |DataRows(s)| && PriceRowParses(p, DataRows(s)[i])
        && ParsePriceRow(p, DataRows(s)[i]).value.value.0 == k
  {
    LoadPricesMeaning(p, s);
    PriceRowsKeys(p, DataRows(s), k);
  }
}
