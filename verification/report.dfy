/** The daily report: which rows of the store are reported, and the CSV
    attachment built from them (`send_unsubscribe_report`). */
module Report {
  import opened Wrappers
  import opened Clock
  import opened UnsubscribeStore

  /** `datetime.fromisoformat` followed by the comparison with a naive UTC
      instant: `Some(t)` for text that parses to the naive instant `t` (in
      microseconds), `None` for text that raises, whether while parsing or
      while being compared. */
  type Parser = string -> Option<int>

  /** A data row is reported when it has exactly two fields and its timestamp
      parses to an instant strictly after `since`. */
  predicate Recent(row: Row, since: int, parse: Parser) {
    |row| == 2 && parse(row[1]).Some? && parse(row[1]).value > since
  }

  /** `a` is `b` with some elements removed, the rest kept in order. */
  predicate IsSubsequence<T(==)>(a: seq<T>, b: seq<T>)
    decreases |b|
  {
    && |a| <= |b|
    && (|a| == 0 || (a[0] == b[0] && IsSubsequence(a[1..], b[1..])) || IsSubsequence(a, b[1..]))
  }

  /** The rows of `rows` that are reported, scanning front to back. */
  function Select(rows: seq<Row>, since: int, parse: Parser): (kept: seq<Row>)
    ensures IsSubsequence(kept, rows)
    ensures forall row :: row in kept ==> Recent(row, since, parse)
    decreases |rows|
  {
    if |rows| == 0 then []
    else
      var rest := Select(rows[1..], since, parse);
      if Recent(rows[0], since, parse) then [rows[0]] + rest else rest
  }

  /** Nothing recent is lost: each recent row is kept as often as it occurs
      and every other row is dropped, so a row is reported iff it occurs and
      is recent. */
  lemma {:induction false} SelectKeepsRecentRows(rows: seq<Row>, since: int, parse: Parser)
    ensures forall row :: multiset(Select(rows, since, parse))[row]
                       == if Recent(row, since, parse) then multiset(rows)[row] else 0
    ensures forall row :: row in Select(rows, since, parse) <==> row in rows && Recent(row, since, parse)
    decreases |rows|
  {
    if |rows| > 0 {
      assert rows == [rows[0]] + rows[1..];
      SelectKeepsRecentRows(rows[1..], since, parse);
    }
  }

  /** Selection distributes over concatenation: scanning row by row and
      selecting all at once agree. */
  lemma {:induction false} SelectConcat(a: seq<Row>, b: seq<Row>, since: int, parse: Parser)
    ensures Select(a + b, since, parse) == Select(a, since, parse) + Select(b, since, parse)
    decreases |a|
  {
    if |a| == 0 {
      assert a + b == b;
    } else {
      assert (a + b)[0] == a[0];
      assert (a + b)[1..] == a[1..] + b;
      SelectConcat(a[1..], b, since, parse);
    }
  }

  /** One step of the scan: extending the scanned prefix by the next row. */
  lemma SelectStep(store: Store, i: int, since: int, parse: Parser)
    requires 1 <= i < |store|
    ensures Select(store[1..i + 1], since, parse)
         == Select(store[1..i], since, parse) + (if Recent(store[i], since, parse) then [store[i]] else [])
  {
    assert store[1..i + 1] == store[1..i] + [store[i]];
    SelectConcat(store[1..i], [store[i]], since, parse);
    assert [store[i]][1..] == [];
  }

  /** The outcome of one report run. */
  datatype ReportOutcome =
      /** The file has no row at all: skipping the header raises an
          exception that nothing in the report catches. It leaves the
          background loop too, which ends the daily reports for good. */
    | Aborted
      /** No row is recent: no attachment is written and no mail is sent. */
    | NothingToReport
      /** The attachment's rows were written and a send was attempted. */
    | SendAttempted(attachment: seq<Row>)

  /** The report for a run at `nowUtc`: the first row is skipped whatever it
      holds, and the data rows stamped within the last day are reported. */
  function ReportOf(store: Store, nowUtc: int, parse: Parser): (r: ReportOutcome)
    ensures r.Aborted? <==> |store| == 0
    ensures r.NothingToReport? <==>
      |store| > 0 && forall i :: 1 <= i < |store| ==> !Recent(store[i], nowUtc - Day, parse)
    ensures r.SendAttempted? ==>
      && |r.attachment| >= 2
      && r.attachment[0] == Header
      && IsSubsequence(r.attachment[1..], store[1..])
      && (forall row :: row in r.attachment[1..] <==> row in store[1..] && Recent(row, nowUtc - Day, parse))
      && forall row :: multiset(r.attachment[1..])[row]
                     == if Recent(row, nowUtc - Day, parse) then multiset(store[1..])[row] else 0
  {
    if |store| == 0 then Aborted
    else
      var kept := Select(store[1..], nowUtc - Day, parse);
      SelectKeepsRecentRows(store[1..], nowUtc - Day, parse);
      if |kept| == 0 then
        assert forall i :: 1 <= i < |store| ==> store[i] in store[1..];
        NothingToReport
      else
        assert ([Header] + kept)[1..] == kept;
        SendAttempted([Header] + kept)
  }

  /** The read loop of `send_unsubscribe_report`: `None` when the file is
      empty, otherwise the reported rows in file order. */
  method ScanStore(store: Store, nowUtc: int, parse: Parser) returns (kept: Option<seq<Row>>)
    ensures kept.None? <==> |store| == 0
    ensures kept.Some? ==> kept.value == Select(store[1..], nowUtc - Day, parse)
  {
    if |store| == 0 {
      return None;
    }
    var since := nowUtc - Day;
    var acc: seq<Row> := [];
    var i := 1;
    while i < |store|
      invariant 1 <= i <= |store|
      invariant acc == Select(store[1..i], since, parse)
    {
      var row := store[i];
      SelectStep(store, i, since, parse);
      if |row| == 2 {
        var parsed := parse(row[1]);
        if parsed.Some? && parsed.value > since {
          acc := acc + [row];
        }
      }
      i := i + 1;
    }
    assert store[1..i] == store[1..];
    return Some(acc);
  }

  /** `send_unsubscribe_report` up to the point where the mail is handed to
      the relay. */
  method SendUnsubscribeReport(store: Store, nowUtc: int, parse: Parser) returns (r: ReportOutcome)
    ensures r == ReportOf(store, nowUtc, parse)
  {
    var kept := ScanStore(store, nowUtc, parse);
    if kept.None? {
      return Aborted;
    }
    if |kept.value| == 0 {
      return NothingToReport;
    }
    var attachment := [Header] + kept.value;
    return SendAttempted(attachment);
  }

  /** An unsubscribe served at instant `t` is in any report run less than a
      day later, as the attachment's last row, provided the timestamp text
      written for `t` parses back to `t`. */
  lemma RecentUnsubscribeIsReported(store: Store, email: string, t: int, format: int -> string,
                                    parse: Parser, nowUtc: int)
    requires |store| > 0
    requires email != ""
    requires parse(format(t)) == Some(t)
    requires nowUtc - Day < t
    ensures var after := Unsubscribe(store, Some(email), format(t)).store;
            var r := ReportOf(after, nowUtc, parse);
            r.SendAttempted? && r.attachment[|r.attachment| - 1] == [email, format(t)]
  {
    var row: Row := [email, format(t)];
    var after := Unsubscribe(store, Some(email), format(t)).store;
    assert after[1..] == store[1..] + [row];
    SelectConcat(store[1..], [row], nowUtc - Day, parse);
    assert Select([row], nowUtc - Day, parse) == [row];
  }

  /** A data row stamped exactly one day before the run, or earlier, is never
      reported, wherever it stands in the file: the cut-off is strict. */
  lemma DayOldRowIsNotReported(store: Store, i: int, nowUtc: int, parse: Parser)
    requires 1 <= i < |store|
    requires |store[i]| == 2 && parse(store[i][1]).Some? ==> parse(store[i][1]).value <= nowUtc - Day
    ensures ReportOf(store, nowUtc, parse).SendAttempted? ==>
      store[i] !in ReportOf(store, nowUtc, parse).attachment[1..]
  {
  }

  /** A file that exists but is empty is kept as it is, so the first row
      appended to it takes the header's place: whatever requests follow, it
      stays at the head of the file, where every report skips it. */
  lemma FirstRowOfEmptyFileIsNeverReported(email: string, stamp: string, requests: seq<Request>,
                                            nowUtc: int, parse: Parser)
    requires email != ""
    ensures var store := EnsureStore(Some([]));
            ReportOf(Unsubscribe(store, Some(email), stamp).store, nowUtc, parse) == NothingToReport
    ensures var s := ServeAll(Unsubscribe(EnsureStore(Some([])), Some(email), stamp).store, requests);
            && |s| > 0
            && s[0] == [email, stamp]
            && var r := ReportOf(s, nowUtc, parse);
               r.SendAttempted? ==> IsSubsequence(r.attachment[1..], s[1..])
  {
    ServeAllAppends(Unsubscribe(EnsureStore(Some([])), Some(email), stamp).store, requests);
  }
}
