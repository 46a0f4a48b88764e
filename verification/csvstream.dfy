/**
 * The CSV reader as the loaders see it: the sequence of outcomes that
 * successive `reader.Read()` calls return. Tokenising is not modelled; once
 * the sequence is exhausted every further read reports end of input.
 */
module CsvStream {

  datatype ReadOutcome =
    | Row(fields: seq<string>)   // a record and a nil error
    | FieldCountError            // the error `csv.ErrFieldCount`
    | EndOfInput                 // `io.EOF`
    | ReadError                  // any other read error

  /** The outcomes that leave the read loop with `break`. */
  predicate EndsLoop(o: ReadOutcome) {
    o.EndOfInput? || o.ReadError?
  }

  /** The rows the read loop hands to its body, in order: every `Row` before
      the first outcome that ends the loop, field-count errors skipped. */
  function RowsBeforeStop(s: seq<ReadOutcome>): (rows: seq<seq<string>>)
    ensures |rows| <= |s|
    ensures forall j :: 0 <= j < |rows| ==> Row(rows[j]) in s
    decreases |s|
  {
    if |s| == 0 || EndsLoop(s[0]) then []
    else
      var rest := RowsBeforeStop(s[1..]);
      assert forall j :: 0 <= j < |rest| ==> Row(rest[j]) in s by {
        forall j | 0 <= j < |rest| ensures Row(rest[j]) in s {
          var x :| x in s[1..] && x == Row(rest[j]);
        }
      }
      if s[0].FieldCountError? then rest else [s[0].fields] + rest
  }

  /** The rows after the header that reach the loop body. */
  function DataRows(s: seq<ReadOutcome>): seq<seq<string>> {
    if |s| == 0 then [] else RowsBeforeStop(s[1..])
  }

  /** A row read before any stop reaches the loop, ahead of every later row. */
  lemma RowReachesLoop(fields: seq<string>, b: seq<ReadOutcome>)
    ensures RowsBeforeStop([Row(fields)] + b) == [fields] + RowsBeforeStop(b)
  {
    assert ([Row(fields)] + b)[1..] == b;
  }

  /** True when `s` holds no outcome that ends the read loop. */
  predicate NoStop(s: seq<ReadOutcome>) {
    forall i :: 0 <= i < |s| ==> !EndsLoop(s[i])
  }

  /** A field-count error is skipped: removing it changes nothing the loop sees. */
  lemma {:induction false} FieldCountErrorSkipped(a: seq<ReadOutcome>, b: seq<ReadOutcome>)
    ensures RowsBeforeStop(a + [FieldCountError] + b) == RowsBeforeStop(a + b)
    decreases |a|
  {
    var s := a + [FieldCountError] + b;
    if |a| == 0 {
      assert s[1..] == b;
      assert a + b == b;
    } else {
      assert s[0] == a[0] && (a + b)[0] == a[0];
      assert s[1..] == a[1..] + [FieldCountError] + b;
      assert (a + b)[1..] == a[1..] + b;
      FieldCountErrorSkipped(a[1..], b);
    }
  }

  /** End of input and any other read error end the loop: nothing after them is read. */
  lemma {:induction false} StopEndsReading(a: seq<ReadOutcome>, o: ReadOutcome, b: seq<ReadOutcome>)
    requires EndsLoop(o)
    ensures RowsBeforeStop(a + [o] + b) == RowsBeforeStop(a)
    decreases |a|
  {
    var s := a + [o] + b;
    if |a| > 0 {
      assert s[0] == a[0];
      assert s[1..] == a[1..] + [o] + b;
      StopEndsReading(a[1..], o, b);
    }
  }

  /** Before any stop, the rows of a concatenation are the rows of its parts. */
  lemma {:induction false} RowsBeforeStopAppend(a: seq<ReadOutcome>, b: seq<ReadOutcome>)
    requires NoStop(a)
    ensures RowsBeforeStop(a + b) == RowsBeforeStop(a) + RowsBeforeStop(b)
    decreases |a|
  {
    if |a| == 0 {
      assert a + b == b;
    } else {
      assert (a + b)[0] == a[0];
      assert (a + b)[1..] == a[1..] + b;
      RowsBeforeStopAppend(a[1..], b);
    }
  }
}
