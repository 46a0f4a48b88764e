/**
 * `loadUsageCSV`: folds the consumption CSV into a mapping keyed by the
 * minute of each row's half-hour-ending timestamp. Its policy is strict: a
 * field-count error skips the row, end of input or any other read error ends
 * the loop normally, and a timestamp or usage value that does not parse
 * aborts the whole load.
 */
module UsageLoader {
  import opened Wrappers
  import opened TimeKeys
  import opened Keyed
  import opened CsvStream

  datatype UsageRecord = UsageRecord(halfHourEndingAt: Instant, usage: real)

  /** Why the usage load gives up. Both `return nil, err` and an index panic on a short row end up here. */
  datatype UsageError =
    | HeaderUnreadable            // the header `reader.Read()` failed
    | RowTooShort(width: nat)     // `row[i]` out of range: the program panics
    | BadTimestamp(text: string)  // `time.Parse` rejected the timestamp
    | BadUsage(text: string)      // `strconv.ParseFloat` rejected the usage value

  /** The two parsers the loader calls, as opaque partial functions:
      `time.Parse("2006-01-02 15:04:05-07:00", ·)`, which keeps the offset
      written in the text, and `strconv.ParseFloat(·, 64)`. */
  datatype UsageParsers = UsageParsers(
    parseTimestamp: string -> Option<Instant>,
    parseUsage: string -> Option<real>)

  /** The body of the read loop for one row: the write it performs, or why the load fails. */
  function ParseUsageRow(p: UsageParsers, fields: seq<string>): (r: Result<(int, UsageRecord), UsageError>)
    ensures r.Success? <==>
      |fields| >= 2 && p.parseTimestamp(fields[0]).Some? && p.parseUsage(fields[1]).Some?
    ensures r.Success? ==>
      && r.value.1 == UsageRecord(p.parseTimestamp(fields[0]).value, p.parseUsage(fields[1]).value)
      && r.value.0 == MapKey(r.value.1.halfHourEndingAt)
    ensures r.Failure? && |fields| >= 2 ==>
      r.error == (if p.parseTimestamp(fields[0]).None? then BadTimestamp(fields[0]) else BadUsage(fields[1]))
    ensures |fields| < 2 ==>
      r == Failure(if |fields| == 1 && p.parseTimestamp(fields[0]).None? then BadTimestamp(fields[0]) else RowTooShort(|fields|))
  {
    if |fields| < 1 then Failure(RowTooShort(|fields|))
    else
      match p.parseTimestamp(fields[0])
      case None => Failure(BadTimestamp(fields[0]))
      case Some(timestamp) =>
        if |fields| < 2 then Failure(RowTooShort(|fields|))
        else
          match p.parseUsage(fields[1])
          case None => Failure(BadUsage(fields[1]))
          case Some(usage) => Success((MapKey(timestamp), UsageRecord(timestamp, usage)))
  }

  /** True when every row parses. */
  predicate AllUsageRowsParse(p: UsageParsers, rows: seq<seq<string>>) {
    forall i :: 0 <= i < |rows| ==> ParseUsageRow(p, rows[i]).Success?
  }

  /** Row `i` is the first one that does not parse. */
  predicate FirstBadUsageRow(p: UsageParsers, rows: seq<seq<string>>, i: int) {
    && 0 <= i < |rows|
    && ParseUsageRow(p, rows[i]).Failure?
    && forall j :: 0 <= j < i ==> ParseUsageRow(p, rows[j]).Success?
  }

  /** Parses every row, in order, stopping at the first failure. */
  function ParseUsageRows(p: UsageParsers, rows: seq<seq<string>>): (r: Result<seq<(int, UsageRecord)>, UsageError>)
    ensures r.Success? <==> AllUsageRowsParse(p, rows)
    ensures r.Success? ==>
      |r.value| == |rows| && forall i :: 0 <= i < |rows| ==> r.value[i] == ParseUsageRow(p, rows[i]).value
    ensures r.Failure? ==>
      exists i :: FirstBadUsageRow(p, rows, i) && r.error == ParseUsageRow(p, rows[i]).error
    decreases |rows|
  {
    if |rows| == 0 then Success([])
    else
      match ParseUsageRow(p, rows[0])
      case Failure(e) =>
        assert FirstBadUsageRow(p, rows, 0);
        Failure(e)
      case Success(w) =>
        match ParseUsageRows(p, rows[1..])
        case Failure(e) =>
          ghost var i :| FirstBadUsageRow(p, rows[1..], i) && e == ParseUsageRow(p, rows[1..][i]).error;
          assert rows[1..][i] == rows[i + 1];
          assert forall j :: 0 < j < i + 1 ==> rows[j] == rows[1..][j - 1];
          assert FirstBadUsageRow(p, rows, i + 1);
          Failure(e)
        case Success(ws) =>
          assert forall i :: 0 < i < |rows| ==> rows[i] == rows[1..][i - 1];
          Success([w] + ws)
  }

  /** The read loop (main.go lines 139-167), from the current position with the records built so far. */
  function UsageLoop(p: UsageParsers, s: seq<ReadOutcome>, records: map<int, UsageRecord>): (r: Result<map<int, UsageRecord>, UsageError>)
    ensures r.Success? ==> records.Keys <= r.value.Keys
    decreases |s|
  {
    if |s| == 0 then Success(records)
    else
      match s[0]
      case FieldCountError => UsageLoop(p, s[1..], records)
      case EndOfInput => Success(records)
      case ReadError => Success(records)
      case Row(fields) =>
        match ParseUsageRow(p, fields)
        case Failure(e) => Failure(e)
        case Success(w) => UsageLoop(p, s[1..], records[w.0 := w.1])
  }

  /** `loadUsageCSV`: read and ignore the header, then run the loop from an empty mapping. */
  function LoadUsage(p: UsageParsers, s: seq<ReadOutcome>): (r: Result<map<int, UsageRecord>, UsageError>)
    ensures (|s| == 0 || !s[0].Row?) ==> r == Failure(HeaderUnreadable)
  {
    if |s| == 0 || !s[0].Row? then Failure(HeaderUnreadable)
    else UsageLoop(p, s[1..], map[])
  }

  /** The loop parses the rows it reaches and writes them in order: it fails,
      with the first bad row's error, exactly when some row before the stop
      does not parse, and otherwise returns the mapping built by those writes. */
  lemma {:induction false} UsageLoopMeaning(p: UsageParsers, s: seq<ReadOutcome>, records: map<int, UsageRecord>)
    ensures UsageLoop(p, s, records) ==
      match ParseUsageRows(p, RowsBeforeStop(s))
      case Success(ws) => Success(Upsert(records, ws))
      case Failure(e) => Failure(e)
    decreases |s|
  {
    if |s| > 0 && !EndsLoop(s[0]) {
      var rest := DataRows(s);
      UsageLoopMeaning(p, s[1..], records);
      if s[0].Row? {
        var rows := [s[0].fields] + rest;
        assert rows[0] == s[0].fields && rows[1..] == rest;
        match ParseUsageRow(p, s[0].fields)
        case Failure(e) =>
        case Success(w) =>
          UsageLoopMeaning(p, s[1..], records[w.0 := w.1]);
          match ParseUsageRows(p, rest)
          case Failure(e) =>
          case Success(ws) =>
            assert ([w] + ws)[0] == w && ([w] + ws)[1..] == ws;
      }
    }
  }

  /** The loaded mapping, when the load succeeds: the header was a row, every
      row before the stop parsed, and each key holds the record of the last
      row with that key. */
  lemma LoadUsageMeaning(p: UsageParsers, s: seq<ReadOutcome>)
    ensures LoadUsage(p, s).Success? <==>
      |s| > 0 && s[0].Row? && AllUsageRowsParse(p, DataRows(s))
    ensures LoadUsage(p, s).Success? ==>
      LoadUsage(p, s).value == Upsert(map[], ParseUsageRows(p, DataRows(s)).value)
  {
    if |s| > 0 && s[0].Row? {
      UsageLoopMeaning(p, s[1..], map[]);
    }
  }

  /** Last write wins: when the load succeeds, row `i` whose key no later row
      repeats is the record stored under that key. */
  lemma UsageLastWriteWins(p: UsageParsers, s: seq<ReadOutcome>, i: int)
    requires 0 < |s| && s[0].Row? && AllUsageRowsParse(p, DataRows(s))
    requires 0 <= i < |DataRows(s)|
    requires forall j :: i < j < |DataRows(s)| ==>
      ParseUsageRow(p, DataRows(s)[j]).value.0 != ParseUsageRow(p, DataRows(s)[i]).value.0
    ensures LoadUsage(p, s).Success?
    ensures
      var w := ParseUsageRow(p, DataRows(s)[i]).value;
      w.0 in LoadUsage(p, s).value && LoadUsage(p, s).value[w.0] == w.1
  {
    LoadUsageMeaning(p, s);
    var ws := ParseUsageRows(p, DataRows(s)).value;
    assert IsLastWrite(ws, i);
    LastWriteWins(map[], ws, i);
  }

  /** The loaded keys are exactly the keys of the rows read before the stop. */
  lemma UsageKeys(p: UsageParsers, s: seq<ReadOutcome>, k: int)
    requires 0 < |s| && s[0].Row? && AllUsageRowsParse(p, DataRows(s))
    ensures LoadUsage(p, s).Success?
    ensures k in LoadUsage(p, s).value <==>
      exists i :: 0 <= i < |DataRows(s)| && ParseUsageRow(p, DataRows(s)[i]).value.0 == k
  {
    LoadUsageMeaning(p, s);
    var ws := ParseUsageRows(p, DataRows(s)).value;
    if k in LoadUsage(p, s).value {
      var i :| 0 <= i < |ws| && ws[i].0 == k;
      assert ParseUsageRow(p, DataRows(s)[i]).value.0 == k;
    }
  }

  /** A field-count error skips its row and reading continues. */
  lemma UsageFieldCountErrorSkipped(p: UsageParsers, a: seq<ReadOutcome>, b: seq<ReadOutcome>)
    requires |a| > 0
    ensures LoadUsage(p, a + [FieldCountError] + b) == LoadUsage(p, a + b)
  {
    var s := a + [FieldCountError] + b;
    assert s[0] == (a + b)[0] == a[0];
    assert s[1..] == a[1..] + [FieldCountError] + b;
    assert (a + b)[1..] == a[1..] + b;
    UsageLoopMeaning(p, s[1..], map[]);
    UsageLoopMeaning(p, (a + b)[1..], map[]);
    FieldCountErrorSkipped(a[1..], b);
  }

  /** End of input or any other read error stops the loop; what follows is
      never read and the mapping built so far is returned without error. */
  lemma UsageStopEndsLoad(p: UsageParsers, a: seq<ReadOutcome>, o: ReadOutcome, b: seq<ReadOutcome>)
    requires |a| > 0 && EndsLoop(o)
    ensures LoadUsage(p, a + [o] + b) == LoadUsage(p, a)
  {
    var s := a + [o] + b;
    assert s[0] == a[0];
    assert s[1..] == a[1..] + [o] + b;
    UsageLoopMeaning(p, s[1..], map[]);
    UsageLoopMeaning(p, a[1..], map[]);
    StopEndsReading(a[1..], o, b);
  }

  /** A row whose timestamp or usage does not parse, reached before any stop,
      fails the whole load: no mapping is returned, whatever rows came before. */
  lemma UsageBadRowAborts(p: UsageParsers, a: seq<ReadOutcome>, fields: seq<string>, b: seq<ReadOutcome>)
    requires |a| > 0 && a[0].Row? && NoStop(a[1..])
    requires ParseUsageRow(p, fields).Failure?
    ensures LoadUsage(p, a + [Row(fields)] + b).Failure?
  {
    var s := a + [Row(fields)] + b;
    assert s[0] == a[0];
    assert s[1..] == a[1..] + ([Row(fields)] + b);
    assert LoadUsage(p, s) == UsageLoop(p, s[1..], map[]);
    UsageLoopMeaning(p, s[1..], map[]);
    RowsBeforeStopAppend(a[1..], [Row(fields)] + b);
    RowReachesLoop(fields, b);
    var before := RowsBeforeStop(a[1..]);
    var rows := before + ([fields] + RowsBeforeStop(b));
    assert RowsBeforeStop(s[1..]) == rows;
    assert rows[|before|] == fields;
    assert !AllUsageRowsParse(p, rows);
  }
}
