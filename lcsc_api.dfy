/**
 * src/lib/lcsc/api.ts: the browser-side client of the part-lookup endpoint.
 * The HTTP exchange is a parameter: what the endpoint answered for a part is
 * a `Response`, and the client's behaviour is a function of it.
 */
module LcscApi {
  import opened Utils
  import opened Text
  import opened BomTypes
  import opened RateLimiting

  /** A body that `response.json()` could or could not read, on a failed request. */
  datatype ErrorBody =
    | Unparsable
      /** A JSON object; `error` is its `error` field when that is a non-empty string. */
    | ErrorJson(error: Option<string>)

  /** What `fetch` and `response.json()` produced for one request. */
  datatype Response =
      /** `fetch` itself rejected (network failure) with an `Error` of this message. */
    | NetworkFailure(message: string)
      /** A 2xx answer whose body parsed as a part record. */
    | PartJson(info: PartInfo)
      /** A 2xx answer whose body is not JSON: `response.json()` throws a `SyntaxError`. */
    | OkUnparsable(syntaxError: string)
      /** A non-2xx answer. */
    | NotOk(status: nat, body: ErrorBody)

  /** The message of the `LcscApiError` thrown for a non-2xx answer. */
  function HttpErrorMessage(status: nat, body: ErrorBody): (m: string)
    ensures m != []
    ensures body == Unparsable ==> m == "Unknown error"
    ensures body.ErrorJson? && body.error.Some? && body.error.value != [] ==> m == body.error.value
    ensures body.ErrorJson? && (body.error.None? || body.error.value == []) ==>
              m == "HTTP " + NatToString(status)
  {
    match body
    case Unparsable => "Unknown error"
    case ErrorJson(e) => if e.Some? && e.value != "" then e.value else "HTTP " + NatToString(status)
  }

  /** The outcome of the task that `fetchLcscPart` hands to the rate limiter. */
  function PartTask(response: Response): (o: TaskOutcome<PartInfo>)
    ensures o.Returned? <==> response.PartJson?
    ensures response.PartJson? ==> o == Returned(response.info)
    ensures response.NotOk? ==>
              o == Threw(Raised(LcscApiError(HttpErrorMessage(response.status, response.body), response.status)))
    ensures o.Threw? ==> o.thrown.Raised?
  {
    match response
    case NetworkFailure(m) => Threw(Raised(PlainError(m)))
    case PartJson(info) => Returned(info)
    case OkUnparsable(m) => Threw(Raised(PlainError(m)))
    case NotOk(status, body) => Threw(Raised(LcscApiError(HttpErrorMessage(status, body), status)))
  }

  /** What an `await` on a promise settled by the limiter delivers. */
  function Delivered(s: Settlement<PartInfo>): (o: Outcome)
    ensures o.Fetched? <==> s.Resolved?
    ensures s.Resolved? ==> o.info == s.value
    ensures s.Rejected? ==> o.thrown == Raised(s.error)
  {
    match s
    case Resolved(info) => Fetched(info)
    case Rejected(e) => Failed(Raised(e))
  }

  /** What the caller of `fetchLcscPart` sees: the task's outcome forwarded by the limiter. */
  function FetchLcscPart(response: Response): (o: Outcome)
  {
    Delivered(Forward(PartTask(response)))
  }

  /**
   * A lookup fails exactly when the endpoint did not send a part record; a
   * failure is always an `Error`, and a non-2xx answer always yields an
   * `LcscApiError` with that status and a non-empty message.
   */
  lemma FetchLcscPartOutcome(response: Response)
    ensures FetchLcscPart(response).Fetched? <==> response.PartJson?
    ensures response.PartJson? ==> FetchLcscPart(response) == Fetched(response.info)
    ensures FetchLcscPart(response).Failed? ==> FetchLcscPart(response).thrown.Raised?
    ensures response.NotOk? ==>
              var e := FetchLcscPart(response).thrown.error;
              e.LcscApiError? && e.statusCode == response.status && e.message != []
  {
    var o := PartTask(response);
    assert Forward(o).Resolved? <==> o.Returned?;
  }

  /** `{ current, total, partNumber }`. */
  datatype Progress = Progress(current: nat, total: nat, partNumber: string)

  /** `FetchResult`: `info` is `null` on failure, and `error` set. */
  datatype FetchResult = FetchResult(partNumber: string, info: Option<PartInfo>, error: Option<string>)

  /** The part numbers `fetchMultipleParts` works through: those starting with 'C', once each, in first-occurrence order. */
  function UniqueParts(partNumbers: seq<string>): (r: seq<string>)
    ensures NoDup(r)
    ensures forall k | 0 <= k < |r| :: StartsWithC(r[k]) && r[k] in partNumbers
    ensures forall i | 0 <= i < |partNumbers| && StartsWithC(partNumbers[i]) :: partNumbers[i] in r
    ensures forall i, j | 0 <= i < j < |r| ::
      IndexOf(Filter(partNumbers), r[i]) < IndexOf(Filter(partNumbers), r[j])
  {
    DedupOrdered(Filter(partNumbers));
    Dedup(Filter(partNumbers))
  }

  /** `partNumbers.filter((p) => p && p.startsWith('C'))`. */
  function Filter(s: seq<string>): (r: seq<string>)
    ensures forall k | 0 <= k < |r| :: StartsWithC(r[k]) && r[k] in s
    ensures forall i | 0 <= i < |s| && StartsWithC(s[i]) :: s[i] in r
  {
    if s == [] then []
    else
      var init := Filter(s[..|s| - 1]);
      assert forall i | 0 <= i < |s| - 1 :: s[..|s| - 1][i] == s[i];
      if StartsWithC(s[|s| - 1]) then init + [s[|s| - 1]] else init
  }

  /** The filter keeps order: it works element by element across a concatenation. */
  lemma {:induction false} FilterAppend(a: seq<string>, b: seq<string>)
    ensures Filter(a + b) == Filter(a) + Filter(b)
    decreases |b|
  {
    if b == [] {
      assert a + b == a;
    } else {
      var ab := a + b;
      assert ab[..|ab| - 1] == a + b[..|b| - 1];
      FilterAppend(a, b[..|b| - 1]);
    }
  }

  lemma FilterOne(x: string)
    ensures Filter([x]) == if StartsWithC(x) then [x] else []
  {
    assert [x][..0] == [];
  }

  /** The report passed to `onPartFetched` for one part: a failure's message is the `Error`'s, else "Unknown error". */
  function Report(part: string, o: Outcome): (r: FetchResult)
    ensures r.partNumber == part
    ensures r.info.Some? <==> o.Fetched?
    ensures o.Fetched? ==> r.info == Some(o.info) && r.error.None?
    ensures o.Failed? && o.thrown.Raised? ==> r.error == Some(o.thrown.error.message)
    ensures o.Failed? && o.thrown.RaisedValue? ==> r.error == Some("Unknown error")
  {
    match o
    case Fetched(info) => FetchResult(part, Some(info), None)
    case Failed(Raised(e)) => FetchResult(part, None, Some(e.message))
    case Failed(RaisedValue(_)) => FetchResult(part, None, Some("Unknown error"))
  }

  /**
   * How many parts are requested when `signal.aborted` is first seen at the
   * top of iteration `abortSeenAt` (0: the signal was aborted before the call).
   */
  function RequestedCount(total: nat, abortSeenAt: Option<nat>): (n: nat)
    ensures n <= total
    ensures abortSeenAt.Some? && abortSeenAt.value < total ==> n == abortSeenAt.value
    ensures (abortSeenAt.None? || abortSeenAt.value >= total) ==> n == total
  {
    if abortSeenAt.Some? && abortSeenAt.value < total then abortSeenAt.value else total
  }

  /**
   * The `try`/`catch` of one iteration: the awaited lookup, the map entry on
   * success, and the report handed to `onPartFetched`.
   */
  method FetchOne(part: string, respond: string -> Response, results: map<string, PartInfo>)
    returns (updated: map<string, PartInfo>, report: FetchResult)
    ensures report == Report(part, FetchLcscPart(respond(part)))
    ensures respond(part).PartJson? ==> updated == results[part := respond(part).info]
    ensures !respond(part).PartJson? ==> updated == results
  {
    FetchLcscPartOutcome(respond(part));
    var outcome := FetchLcscPart(respond(part));
    updated := results;
    if outcome.Fetched? {
      updated := results[part := outcome.info];
    }
    report := Report(part, outcome);
  }

  /** The result map after the lookups of `parts`, in order: each part record found is entered under its part number. */
  function ResultsOf(parts: seq<string>, respond: string -> Response): map<string, PartInfo>
  {
    if parts == [] then map[]
    else
      var last := parts[|parts| - 1];
      var init := ResultsOf(parts[..|parts| - 1], respond);
      if respond(last).PartJson? then init[last := respond(last).info] else init
  }

  /**
   * The result map holds exactly the looked-up parts the endpoint answered
   * with a record, each with that record, and nothing else.
   */
  lemma {:induction false} ResultsOfEntries(parts: seq<string>, respond: string -> Response)
    ensures forall p | p in ResultsOf(parts, respond) :: p in parts
    ensures forall k | 0 <= k < |parts| ::
              (parts[k] in ResultsOf(parts, respond) <==> respond(parts[k]).PartJson?)
              && (parts[k] in ResultsOf(parts, respond) ==> ResultsOf(parts, respond)[parts[k]] == respond(parts[k]).info)
  {
    if parts != [] {
      var init := parts[..|parts| - 1];
      ResultsOfEntries(init, respond);
      assert forall k | 0 <= k < |init| :: init[k] == parts[k];
      assert forall p | p in init :: p in parts;
    }
  }

  /** The progress reports made while looking up `parts`, out of `total`. */
  function ProgressOf(parts: seq<string>, total: nat): seq<Progress>
  {
    if parts == [] then []
    else ProgressOf(parts[..|parts| - 1], total) + [Progress(|parts|, total, parts[|parts| - 1])]
  }

  /** The reports handed to `onPartFetched` while looking up `parts`. */
  function ReportsOf(parts: seq<string>, respond: string -> Response): seq<FetchResult>
  {
    if parts == [] then []
    else
      var last := parts[|parts| - 1];
      ReportsOf(parts[..|parts| - 1], respond) + [Report(last, FetchLcscPart(respond(last)))]
  }

  /** The `k`-th progress report counts from one, carries the total and names the `k`-th part. */
  lemma {:induction false} ProgressOfAt(parts: seq<string>, total: nat)
    ensures |ProgressOf(parts, total)| == |parts|
    ensures forall k | 0 <= k < |parts| :: ProgressOf(parts, total)[k] == Progress(k + 1, total, parts[k])
  {
    if parts != [] {
      var init := parts[..|parts| - 1];
      ProgressOfAt(init, total);
      var p := ProgressOf(init, total);
      assert ProgressOf(parts, total) == p + [Progress(|parts|, total, parts[|parts| - 1])];
      assert forall k | 0 <= k < |init| :: init[k] == parts[k];
    }
  }

  /** The `k`-th report is the outcome of looking up the `k`-th part. */
  lemma {:induction false} ReportsOfAt(parts: seq<string>, respond: string -> Response)
    ensures |ReportsOf(parts, respond)| == |parts|
    ensures forall k | 0 <= k < |parts| ::
              ReportsOf(parts, respond)[k] == Report(parts[k], FetchLcscPart(respond(parts[k])))
  {
    if parts != [] {
      var init := parts[..|parts| - 1];
      ReportsOfAt(init, respond);
      var last := parts[|parts| - 1];
      var r := ReportsOf(init, respond);
      assert ReportsOf(parts, respond) == r + [Report(last, FetchLcscPart(respond(last)))];
      assert forall k | 0 <= k < |init| :: init[k] == parts[k];
    }
  }

  /**
   * The `for` loop of `fetchMultipleParts` over the de-duplicated part
   * numbers `unique`: it stops at the top of the first iteration that sees
   * the signal aborted.
   */
  method FetchEach(unique: seq<string>, respond: string -> Response, abortSeenAt: Option<nat>)
    returns (results: map<string, PartInfo>, progress: seq<Progress>, reports: seq<FetchResult>)
    ensures var n := RequestedCount(|unique|, abortSeenAt);
      && progress == ProgressOf(unique[..n], |unique|)
      && reports == ReportsOf(unique[..n], respond)
      && results == ResultsOf(unique[..n], respond)
  {
    results, progress, reports := map[], [], [];
    var i := 0;
    while i < |unique|
      invariant 0 <= i <= RequestedCount(|unique|, abortSeenAt)
      invariant progress == ProgressOf(unique[..i], |unique|)
      invariant reports == ReportsOf(unique[..i], respond)
      invariant results == ResultsOf(unique[..i], respond)
    {
      if abortSeenAt.Some? && abortSeenAt.value <= i {
        break;
      }
      var part := unique[i];
      progress := progress + [Progress(i + 1, |unique|, part)];
      var report;
      results, report := FetchOne(part, respond, results);
      reports := reports + [report];
      assert unique[..i + 1][..i] == unique[..i];
      assert progress == ProgressOf(unique[..i + 1], |unique|);
      assert reports == ReportsOf(unique[..i + 1], respond);
      i := i + 1;
    }
  }

  /**
   * `fetchMultipleParts`. The endpoint's answers are `respond`, and
   * `abortSeenAt` is the first iteration at whose top the signal is aborted
   * (0 when it was aborted before the call). The method returns the result map, the progress
   * reports and the per-part reports, in the order they are made.
   */
  method FetchMultipleParts(partNumbers: seq<string>, respond: string -> Response, abortSeenAt: Option<nat>)
    returns (results: map<string, PartInfo>, progress: seq<Progress>, reports: seq<FetchResult>)
    ensures var unique := UniqueParts(partNumbers);
      var n := RequestedCount(|unique|, abortSeenAt);
      && |progress| == n && |reports| == n
      && (forall k | 0 <= k < n :: progress[k] == Progress(k + 1, |unique|, unique[k]))
      && (forall k | 0 <= k < n :: reports[k] == Report(unique[k], FetchLcscPart(respond(unique[k]))))
      && results == ResultsOf(unique[..n], respond)
  {
    var unique := UniqueParts(partNumbers);
    results, progress, reports := FetchEach(unique, respond, abortSeenAt);
    var n := RequestedCount(|unique|, abortSeenAt);
    ProgressOfAt(unique[..n], |unique|);
    ReportsOfAt(unique[..n], respond);
  }

  /**
   * What `fetchMultipleParts` resolves to: the requested parts the endpoint
   * answered with a record, each with that record, and no other key.
   */
  lemma FetchMultiplePartsResults(partNumbers: seq<string>, respond: string -> Response, abortSeenAt: Option<nat>)
    ensures var unique := UniqueParts(partNumbers);
      var n := RequestedCount(|unique|, abortSeenAt);
      var results := ResultsOf(unique[..n], respond);
      && (forall p | p in results :: p in unique[..n] && StartsWithC(p) && p in partNumbers)
      && (forall k | 0 <= k < n ::
            (unique[k] in results <==> respond(unique[k]).PartJson?)
            && (unique[k] in results ==> results[unique[k]] == respond(unique[k]).info))
  {
    var unique := UniqueParts(partNumbers);
    var n := RequestedCount(|unique|, abortSeenAt);
    ResultsOfEntries(unique[..n], respond);
    assert forall k | 0 <= k < n :: unique[..n][k] == unique[k];
  }
}
