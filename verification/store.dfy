/** The unsubscribe store: the rows of the CSV file `unsubscribes.csv`, and the
    `/unsubscribe` request that appends to it. */
module UnsubscribeStore {
  import opened Wrappers

  /** One CSV row, as a sequence of fields. */
  type Row = seq<string>

  /** The whole file, row by row, the header included. */
  type Store = seq<Row>

  const Header: Row := ["email", "timestamp"]

  /** HTTP status of the rejection of a request without an email. */
  const BadRequest: int := 400

  /** HTTP status of the rendered confirmation page. */
  const Ok: int := 200

  /** A store whose first row is the header. */
  predicate HasHeader(store: Store) {
    |store| > 0 && store[0] == Header
  }

  /** The store at start-up: `existing` holds the file's rows when the file
      exists; a missing file is created holding only the header. */
  function EnsureStore(existing: Option<Store>): (store: Store)
    ensures existing.None? ==> HasHeader(store) && |store| == 1
    ensures existing.Some? ==> store == existing.value
  {
    match existing
    case None => [Header]
    case Some(rows) => rows
  }

  /** What the `/unsubscribe` route answers. */
  datatype Response =
    | Rejected(message: string)
    | Unsubscribed(email: string)
  {
    function Status(): (code: int) {
      if Rejected? then BadRequest else Ok
    }
  }

  /** A response together with the store it leaves behind. */
  datatype Handled = Handled(response: Response, store: Store)

  /** An email argument counts as missing when it is absent or empty. */
  predicate Missing(email: Option<string>) {
    email.None? || email.value == ""
  }

  /** The `/unsubscribe` route. `email` is the `email` query argument and
      `stamp` the ISO text of the current UTC time. The email is stored as
      given: it is not trimmed, lower-cased, validated or checked for an
      earlier row. */
  function Unsubscribe(store: Store, email: Option<string>, stamp: string): (h: Handled)
    ensures h.response.Rejected? <==> Missing(email)
    ensures h.response.Rejected? ==> h.response.Status() == BadRequest && h.store == store
    ensures h.response.Unsubscribed? ==>
      && h.response.Status() == Ok
      && h.response.email == email.value
      && |h.store| == |store| + 1
      && h.store[..|store|] == store
      && h.store[|store|] == [email.value, stamp]
  {
    if Missing(email) then Handled(Rejected("No email provided"), store)
    else Handled(Unsubscribed(email.value), store + [[email.value, stamp]])
  }

  /** One incoming request: its email argument and the time it was served. */
  datatype Request = Request(email: Option<string>, stamp: string)

  /** The store after serving `requests` in order. */
  function ServeAll(store: Store, requests: seq<Request>): (served: Store)
    decreases |requests|
  {
    if |requests| == 0 then store
    else ServeAll(Unsubscribe(store, requests[0].email, requests[0].stamp).store, requests[1..])
  }

  /** The rows the accepted requests among `requests` contribute, in order. */
  function AcceptedRows(requests: seq<Request>): (rows: seq<Row>)
    decreases |requests|
  {
    if |requests| == 0 then []
    else
      var r := requests[0];
      (if Missing(r.email) then [] else [[r.email.value, r.stamp]]) + AcceptedRows(requests[1..])
  }

  /** Serving any sequence of requests only appends: the old rows stay as
      they were and one row is added per accepted request, in arrival order. */
  lemma {:induction false} ServeAllAppends(store: Store, requests: seq<Request>)
    ensures ServeAll(store, requests) == store + AcceptedRows(requests)
    decreases |requests|
  {
    if |requests| > 0 {
      var r := requests[0];
      var next := Unsubscribe(store, r.email, r.stamp).store;
      ServeAllAppends(next, requests[1..]);
      assert next == store + (if Missing(r.email) then [] else [[r.email.value, r.stamp]]);
    }
  }

  /** A store that starts with the header keeps it through any requests. */
  lemma ServeAllKeepsHeader(store: Store, requests: seq<Request>)
    requires HasHeader(store)
    ensures HasHeader(ServeAll(store, requests))
  {
    ServeAllAppends(store, requests);
  }

  /** Number of rows whose first field is `email`. */
  function RowsFor(store: Store, email: string): (count: nat)
    decreases |store|
  {
    if |store| == 0 then 0
    else (if |store[0]| > 0 && store[0][0] == email then 1 else 0) + RowsFor(store[1..], email)
  }

  lemma {:induction false} RowsForConcat(a: Store, b: Store, email: string)
    ensures RowsFor(a + b, email) == RowsFor(a, email) + RowsFor(b, email)
    decreases |a|
  {
    if |a| == 0 {
      assert a + b == b;
    } else {
      assert (a + b)[1..] == a[1..] + b;
      RowsForConcat(a[1..], b, email);
    }
  }

  /** There is no deduplication: submitting the same non-empty email twice
      adds two rows for it, whatever the store held before. */
  lemma NoDeduplication(store: Store, email: string, first: string, second: string)
    requires email != ""
    ensures var once := Unsubscribe(store, Some(email), first).store;
            var twice := Unsubscribe(once, Some(email), second).store;
            RowsFor(twice, email) == RowsFor(store, email) + 2
  {
    var once := Unsubscribe(store, Some(email), first).store;
    RowsForConcat(store, [[email, first]], email);
    RowsForConcat(once, [[email, second]], email);
  }
}
