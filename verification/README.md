# Unsubscribe capture and daily report — Dafny model

A model of `unsubscribe.py`. This is a small web service. It records
unsubscribe requests in a CSV file, `unsubscribes.csv`. Every day at 09:00
Indian Standard Time it mails a report of the addresses recorded in the last
24 hours. The model covers the three parts whose behaviour can be stated
exactly:

- **The store and its append rule** (`store.dfy`, module `UnsubscribeStore`).
  The file is a sequence of rows. A missing file is created holding only the
  header `email,timestamp`. The `/unsubscribe` route rejects a missing or
  empty `email` argument with status 400. Any other value is appended as one
  row `[email, now]`. The value is not normalised or validated, and repeated
  submissions are not deduplicated.
- **Report row selection** (`report.dfy`, module `Report`). The first row is
  skipped. A data row is reported when it has exactly two fields and its
  timestamp parses to an instant strictly later than one day before the run.
  Rows whose timestamp does not parse are dropped and the scan goes on. When
  nothing is reported, no attachment is written and no mail is sent.
  Otherwise the attachment is the header followed by the reported rows, in
  file order.
- **Next-run arithmetic** (`scheduler.dfy`, module `Scheduler`). The loop
  shifts UTC to IST (+5:30) and takes today's 09:00:00.000000. If the IST
  clock already reads that instant or later, it takes tomorrow's. It then
  sleeps for the difference.

Instants are whole microseconds (`clock.dfy`). Rows are `seq<string>`.
`datetime.fromisoformat`, together with the later comparison against a naive
UTC instant, is a parameter `parse: string -> Option<int>`. `None` stands for
text that raises, while parsing (a `ValueError`) or while being compared (a
`TypeError` for a timestamp that carries a UTC offset). The bare `except`
swallows both. The current time is a parameter: an integer for the report
and the scheduler, and the ISO text written by `utcnow().isoformat()` for
the route.

Other revisions of this script add email normalisation, regex validation,
duplicate checks, retention pruning and a lock around file access. None of
these exist in `unsubscribe.py`, and the model follows that file. In
particular the report never rewrites the store.

The first row of the file is skipped by every report whatever it holds. A
file is given its header only when it does not exist, so when it exists but
is empty, the first unsubscribe written to it takes the header's place and is
never reported (`Report.FirstRowOfEmptyFileIsNeverReported`). This is why the
append-then-report property (`Report.RecentUnsubscribeIsReported`) is stated
for a store that already holds at least one row.

## Model

| member | source | states |
|---|---|---|
| UnsubscribeStore.EnsureStore | unsubscribe.py:22-26 | a store created because the file is missing holds exactly one row, the header `["email","timestamp"]`; an existing file's rows are kept as they are |
| UnsubscribeStore.Unsubscribe | unsubscribe.py:33-40 | the request is rejected with status 400 exactly when the email is absent or empty, and then the store is unchanged; otherwise the request is accepted (`Unsubscribed`, standing for the confirmation page) and the store gains exactly one row `[email, stamp]` at the end, the email stored as given, with all earlier rows unchanged |
| UnsubscribeStore.ServeAllAppends | unsubscribe.py:33-40 | serving any sequence of requests yields the old store followed by one row per accepted request, in arrival order: the store is append-only |
| UnsubscribeStore.ServeAllKeepsHeader | unsubscribe.py:22-40 | a store that starts with the header still starts with it after any sequence of requests |
| UnsubscribeStore.NoDeduplication | unsubscribe.py:38-40 | submitting the same non-empty email twice adds two rows for that email, whatever the store already held |
| Report.Select | unsubscribe.py:62-70 | the reported rows are a subsequence of the scanned rows, in their original order, and every reported row has exactly two fields and a timestamp that parses to an instant strictly after the cut-off |
| Report.SelectKeepsRecentRows | unsubscribe.py:62-70 | nothing recent is lost: a row is reported iff it occurs among the scanned rows and is recent, each reported row keeps its full multiplicity, and every malformed, unparsable or too old row is dropped without ending the scan |
| Report.SelectConcat | unsubscribe.py:62-68 | selecting from two consecutive stretches of rows gives the two selections one after the other, so a row-by-row scan agrees with the whole-file selection |
| Report.SelectStep | unsubscribe.py:62-70 | scanning one more row appends that row to the selection exactly when it is recent, and otherwise leaves the selection as it was |
| Report.ReportOf | unsubscribe.py:56-80 | an empty file aborts the run; no mail is produced iff no row after the first is recent, that is, two fields and parsed time strictly later than now minus one day; otherwise the attachment starts with the header and its remaining rows are an order-preserving subsequence of the data rows in which each recent row appears exactly as often as in the file and no other row appears; the first row is never reported as data |
| Report.ScanStore | unsubscribe.py:56-70 | the read loop (skip the first row, drop rows without exactly two fields, drop unparsable or old timestamps and go on) computes exactly the reference selection of the data rows; it fails only on an empty file |
| Report.SendUnsubscribeReport | unsubscribe.py:72-80 | the report procedure returns no attachment when the scan kept nothing, and otherwise the header followed by the kept rows, agreeing with the reference outcome in every case |
| Report.RecentUnsubscribeIsReported | unsubscribe.py:56-68 | a non-empty email appended at instant t, whose timestamp text parses back to t, is the last row of the attachment of any report run less than one day after t |
| Report.DayOldRowIsNotReported | unsubscribe.py:56-67 | a data row at any position whose timestamp parses to exactly one day before the run, or earlier, is not in the attachment: the cut-off is strict |
| Scheduler.NextRun | unsubscribe.py:119-128 | the next run reads 09:00:00.000000 on the IST clock, i.e. 03:30 UTC; it is the earliest such instant strictly after now, so it falls today iff the IST clock reads before 09:00 and tomorrow otherwise; the sleep satisfies 0 < sleep <= one day and equals one day exactly when now is 09:00 IST |
| Scheduler.NoDrift | unsubscribe.py:120-131 | when the loop wakes at the planned instant and the report then takes any time short of a day, the run planned next is exactly one day after the previous one, so the schedule does not drift |
| Report.FirstRowOfEmptyFileIsNeverReported | unsubscribe.py:22-26 | a file that exists but is empty is kept as it is, so the first unsubscribe written to it stands where the header should be; it stays at the head of the file through any later requests, and every report's rows come from behind it, so no report ever includes it |

## Left out

- Flask routing and HTML rendering: the route's result is the `Response` value; the page text, including the email interpolated into it, is not modelled.
- The `/send_report` route: it calls the report and answers with a fixed message whenever the report returns, whether or not a mail was sent. On an empty file the report raises instead (outcome `Aborted`) and the route answers with a server error. Only the report itself is modelled.
- SMTP, STARTTLS, login and the MIME/base64 encoding of the attachment: network and library calls. The outcome `SendAttempted` stands for "the attachment was written and a send was attempted"; whether the relay accepted it changes nothing the model can see.
- File operations (`open`, `os.path.exists`, `os.remove`) and the `csv` module's quoting: the file is an in-memory sequence of rows, already split into fields. The file is read back without `newline=""` although it is written with it, so a field holding a carriage return comes back changed; `Report.RecentUnsubscribeIsReported` speaks of rows that survive this round trip unchanged.
- The daemon thread, the infinite loop and `time.sleep`: only the arithmetic of one pass is modelled. The loop catches nothing, so a report run that aborts on an empty file ends the thread and no later daily report is sent.
- `datetime.fromisoformat` and `datetime.utcnow`: the parser and the clock are parameters.
- UnsubscribeStore.Unsubscribe: the status of an accepted request is stated as 200 for a page that renders. The confirmation page is built by placing the email inside template source, so an email holding template syntax is evaluated as a template (`{{7*7}}` shows `49`), and one that does not parse as a template (`{{`) makes rendering fail with a server error, after the row has already been appended. The template engine is not modelled.
- Scheduler.NoDrift: covers a wake at or after the planned instant only. The sleep is measured on a monotonic clock while the next run is planned from the wall clock, so a wake that reads even one microsecond early by the wall clock plans the same instant again and the report runs twice that day; clock skew is not modelled.
- Scheduler.NextRun: the sleep is in whole microseconds, not the float seconds of `total_seconds()`, and `datetime`'s year range (an `OverflowError` near `datetime.max`) is not modelled.
- `print` logging.
