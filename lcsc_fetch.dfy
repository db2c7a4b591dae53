/**
 * src/hooks/useLcscFetch.ts: the fetch run over the pending part numbers, its
 * cancellation, the retry of failed lines and the status counts. The run's
 * remote lookups are a parameter `respond`: the outcome the awaited
 * `fetchLcscPart` call delivers for a part number.
 */
module LcscFetch {
  import opened Utils
  import opened BomTypes
  import opened BomStore
  import opened RateLimiting
  import LcscApi

  // ----- the run as a function of the rows -----

  /** `error instanceof Error ? error.message : 'Failed to fetch'`. */
  function FailureMessage(t: Thrown): (m: string)
    ensures t.Raised? ==> m == t.error.message
    ensures t.RaisedValue? ==> m == "Failed to fetch"
  {
    match t
    case Raised(e) => e.message
    case RaisedValue(_) => "Failed to fetch"
  }

  /** What one awaited lookup does to a row carrying that part number. */
  function OutcomeRow(row: Row, o: Outcome): Row {
    match o
    case Fetched(info) => WithInfo(row, info)
    case Failed(t) => WithStatus(row, Error, Some(FailureMessage(t)))
  }

  /** What one awaited lookup does to the row list. */
  function ApplyOutcome(rows: seq<Row>, lcsc: string, o: Outcome): seq<Row> {
    match o
    case Fetched(info) => ApplyInfo(rows, lcsc, info)
    case Failed(t) => ApplyStatus(rows, lcsc, Error, Some(FailureMessage(t)))
  }

  /** `parts.forEach((lcsc) => setFetchStatus(lcsc, status))`. */
  function SetStatusAll(rows: seq<Row>, parts: seq<string>, status: Status): (r: seq<Row>)
    ensures |r| == |rows|
  {
    if parts == [] then rows
    else ApplyStatus(SetStatusAll(rows, parts[..|parts| - 1], status), parts[|parts| - 1], status, None)
  }

  /** The main loop's effect on the rows, one lookup after another. */
  function ApplyOutcomes(rows: seq<Row>, parts: seq<string>, respond: string -> Outcome): (r: seq<Row>)
    ensures |r| == |rows|
  {
    if parts == [] then rows
    else
      var last := parts[|parts| - 1];
      ApplyOutcome(ApplyOutcomes(rows, parts[..|parts| - 1], respond), last, respond(last))
  }

  /** The rows after a run over `parts`: all marked loading, `n` looked up, the rest put back to pending. */
  function RunRows(rows: seq<Row>, parts: seq<string>, respond: string -> Outcome, n: nat): (r: seq<Row>)
    requires n <= |parts|
    ensures |r| == |rows|
  {
    SetStatusAll(ApplyOutcomes(SetStatusAll(rows, parts, Loading), parts[..n], respond), parts[n..], Pending)
  }

  // ----- what the run does to each row -----

  lemma WithStatusTwice(row: Row, status: Status, message: Option<string>)
    ensures WithStatus(WithStatus(row, status, message), status, message) == WithStatus(row, status, message)
  {
  }

  lemma OutcomeRowIdempotent(row: Row, o: Outcome)
    ensures OutcomeRow(OutcomeRow(row, o), o) == OutcomeRow(row, o)
  {
    if o.Fetched? {
      WithInfoIdempotent(row, o.info);
    }
  }

  /** Marking a list of part numbers touches exactly the rows carrying one of them, once. */
  lemma {:induction false} SetStatusAllAt(rows: seq<Row>, parts: seq<string>, status: Status, i: nat)
    requires i < |rows|
    ensures SetStatusAll(rows, parts, status)[i] ==
              if rows[i].lcsc in parts then WithStatus(rows[i], status, None) else rows[i]
  {
    if parts != [] {
      var init := parts[..|parts| - 1];
      var last := parts[|parts| - 1];
      assert parts == init + [last];
      SetStatusAllAt(rows, init, status, i);
      ApplyStatusEffect(SetStatusAll(rows, init, status), last, status, None, i);
      WithStatusTwice(rows[i], status, None);
    }
  }

  /** A lookup leaves its row `success` or `error`: never `loading`, `pending` or `skipped`. */
  lemma OutcomeRowSettles(row: Row, o: Outcome)
    ensures var r := OutcomeRow(row, o);
      && SameLine(r, row)
      && (o.Fetched? ==> r.fetchStatus == Success && r.lcscInfo == Some(o.info) && r.errorMessage.None?
                         && r.unitPrice == FindApplicablePrice(o.info.prices, row.quantity))
      && (o.Failed? ==> r.fetchStatus == Error && r.lcscInfo == row.lcscInfo
                        && (FailureMessage(o.thrown) != [] ==> r.errorMessage == Some(FailureMessage(o.thrown))))
  {
    if o.Fetched? {
      ApplyInfoEffect([row], row.lcsc, o.info, 0);
    }
  }

  /** One lookup touches exactly the rows carrying its part number. */
  lemma ApplyOutcomeAt(rows: seq<Row>, lcsc: string, o: Outcome, i: nat)
    requires i < |rows|
    ensures ApplyOutcome(rows, lcsc, o)[i] == if rows[i].lcsc == lcsc then OutcomeRow(rows[i], o) else rows[i]
  {
  }

  /** The lookups touch exactly the rows carrying a looked-up part number, with that number's outcome. */
  lemma {:induction false} ApplyOutcomesAt(rows: seq<Row>, parts: seq<string>, respond: string -> Outcome, i: nat)
    requires i < |rows|
    ensures ApplyOutcomes(rows, parts, respond)[i] ==
              if rows[i].lcsc in parts then OutcomeRow(rows[i], respond(rows[i].lcsc)) else rows[i]
  {
    if parts != [] {
      var init := parts[..|parts| - 1];
      var last := parts[|parts| - 1];
      assert parts == init + [last];
      var prev := ApplyOutcomes(rows, init, respond);
      var o := respond(rows[i].lcsc);
      ApplyOutcomesAt(rows, init, respond, i);
      OutcomeRowSettles(rows[i], o);
      assert prev[i].lcsc == rows[i].lcsc;
      ApplyOutcomeAt(prev, last, respond(last), i);
      OutcomeRowIdempotent(rows[i], o);
    }
  }

  /** The three phases of a run, row by row. */
  lemma RunPhasesAt(rows: seq<Row>, parts: seq<string>, respond: string -> Outcome, n: nat, i: nat)
    requires n <= |parts| && i < |rows|
    ensures var loading := SetStatusAll(rows, parts, Loading);
      var fetched := ApplyOutcomes(loading, parts[..n], respond);
      && loading[i] == (if rows[i].lcsc in parts then rows[i].(fetchStatus := Loading) else rows[i])
      && fetched[i] == (if rows[i].lcsc in parts[..n] then OutcomeRow(loading[i], respond(rows[i].lcsc)) else loading[i])
      && fetched[i].lcsc == rows[i].lcsc
      && RunRows(rows, parts, respond, n)[i] ==
           (if rows[i].lcsc in parts[n..] then WithStatus(fetched[i], Pending, None) else fetched[i])
  {
    var loading := SetStatusAll(rows, parts, Loading);
    SetStatusAllAt(rows, parts, Loading, i);
    ApplyOutcomesAt(loading, parts[..n], respond, i);
    OutcomeRowSettles(loading[i], respond(rows[i].lcsc));
    SetStatusAllAt(ApplyOutcomes(loading, parts[..n], respond), parts[n..], Pending, i);
  }

  /**
   * The run's effect on row `i`: a row whose part number is not in the
   * snapshot is unchanged; one looked up carries its lookup's outcome over
   * the `loading` mark; one not reached is back to `pending` with every other
   * field as before.
   */
  lemma RunRowsAt(rows: seq<Row>, parts: seq<string>, respond: string -> Outcome, n: nat, i: nat)
    requires n <= |parts| && i < |rows|
    ensures var r := RunRows(rows, parts, respond, n)[i];
      && (rows[i].lcsc !in parts ==> r == rows[i])
      && (rows[i].lcsc in parts[..n] && rows[i].lcsc !in parts[n..] ==>
            r == OutcomeRow(rows[i].(fetchStatus := Loading), respond(rows[i].lcsc)))
      && (rows[i].lcsc in parts[n..] && rows[i].lcsc !in parts[..n] ==> r == rows[i].(fetchStatus := Pending))
  {
    RunPhasesAt(rows, parts, respond, n, i);
    assert parts == parts[..n] + parts[n..];
    var l := rows[i].lcsc;
    if l in parts[..n] {
      OutcomeRowSettles(rows[i].(fetchStatus := Loading), respond(l));
    }
  }

  /**
   * A run that is not stopped settles every row of the snapshot: each row
   * whose part number was pending ends `success` or `error`, and every other
   * row is as it was.
   */
  lemma CompleteRunSettles(rows: seq<Row>, parts: seq<string>, respond: string -> Outcome, i: nat)
    requires i < |rows|
    ensures var r := RunRows(rows, parts, respond, |parts|)[i];
      && SameLine(r, rows[i])
      && (rows[i].lcsc in parts ==> r.fetchStatus == Success || r.fetchStatus == Error)
      && (rows[i].lcsc !in parts ==> r == rows[i])
  {
    RunRowsAt(rows, parts, respond, |parts|, i);
    assert parts[..|parts|] == parts;
    if rows[i].lcsc in parts {
      OutcomeRowSettles(rows[i].(fetchStatus := Loading), respond(rows[i].lcsc));
    }
  }

  /**
   * After a stop, the part numbers the run did not reach are `pending` again
   * on every row that carries them; no row is left `loading` by the run.
   */
  lemma StoppedRunRevertsToPending(rows: seq<Row>, parts: seq<string>, respond: string -> Outcome, n: nat, i: nat)
    requires NoDup(parts) && n <= |parts| && i < |rows|
    ensures var r := RunRows(rows, parts, respond, n)[i];
      && (rows[i].lcsc in parts[n..] ==> r == rows[i].(fetchStatus := Pending))
      && (rows[i].lcsc in parts[..n] ==> r.fetchStatus == Success || r.fetchStatus == Error)
      && (r.fetchStatus == Loading ==> rows[i].lcsc !in parts && rows[i].fetchStatus == Loading)
  {
    RunRowsAt(rows, parts, respond, n, i);
    if rows[i].lcsc in parts[n..] {
      var k :| n <= k < |parts| && parts[k] == rows[i].lcsc;
      assert rows[i].lcsc !in parts[..n];
    }
    if rows[i].lcsc in parts[..n] {
      OutcomeRowSettles(rows[i].(fetchStatus := Loading), respond(rows[i].lcsc));
    }
    assert parts == parts[..n] + parts[n..];
  }

  /** The part record every lookup of the examples below returns. */
  function ExampleInfo(): PartInfo {
    PartInfo("C1", "M", "P", "", "", 5, [], "", "", "")
  }

  function ExampleLookup(lcsc: string): Outcome {
    Fetched(ExampleInfo())
  }

  function ExampleRow(id: string, lcsc: string): Row {
    Row(id, "", "R" + id, "", lcsc, 1, None, Pending, None, None, None)
  }

  /** Three pending parts, stopped while the first is awaited: the second and third are pending again. */
  lemma StopExample()
    ensures var rows := [ExampleRow("1", "C1"), ExampleRow("2", "C2"), ExampleRow("3", "C3")];
      var r := RunRows(rows, ["C1", "C2", "C3"], ExampleLookup, 1);
      && r[0].fetchStatus == Success && r[0].lcscInfo == Some(ExampleInfo())
      && r[1] == rows[1] && r[2] == rows[2]
  {
    var rows := [ExampleRow("1", "C1"), ExampleRow("2", "C2"), ExampleRow("3", "C3")];
    var parts := ["C1", "C2", "C3"];
    assert parts[..1] == ["C1"] && parts[1..] == ["C2", "C3"];
    assert "C2" != "C1" && "C3" != "C1" && "C3" != "C2";
    assert NoDup(parts);
    StoppedRunRevertsToPending(rows, parts, ExampleLookup, 1, 0);
    StoppedRunRevertsToPending(rows, parts, ExampleLookup, 1, 1);
    StoppedRunRevertsToPending(rows, parts, ExampleLookup, 1, 2);
    RunRowsAt(rows, parts, ExampleLookup, 1, 0);
    OutcomeRowSettles(rows[0].(fetchStatus := Loading), ExampleLookup("C1"));
  }

  /** The run keeps the store's invariants: skipped exactly for unfetchable lines, ids distinct. */
  lemma {:induction false} SetStatusAllKeepsInvariants(rows: seq<Row>, parts: seq<string>, status: Status)
    requires forall k | 0 <= k < |parts| :: StartsWithC(parts[k])
    requires status != Skipped && SkipConsistent(rows) && IdsDistinct(rows)
    ensures SkipConsistent(SetStatusAll(rows, parts, status)) && IdsDistinct(SetStatusAll(rows, parts, status))
  {
    if parts != [] {
      SetStatusAllKeepsInvariants(rows, parts[..|parts| - 1], status);
      FanOutKeepsInvariants(SetStatusAll(rows, parts[..|parts| - 1], status), parts[|parts| - 1],
                            PartInfo("", "", "", "", "", 0, [], "", "", ""), status, None);
    }
  }

  lemma {:induction false} ApplyOutcomesKeepsInvariants(rows: seq<Row>, parts: seq<string>, respond: string -> Outcome)
    requires forall k | 0 <= k < |parts| :: StartsWithC(parts[k])
    requires SkipConsistent(rows) && IdsDistinct(rows)
    ensures SkipConsistent(ApplyOutcomes(rows, parts, respond)) && IdsDistinct(ApplyOutcomes(rows, parts, respond))
  {
    if parts != [] {
      var last := parts[|parts| - 1];
      ApplyOutcomesKeepsInvariants(rows, parts[..|parts| - 1], respond);
      var prev := ApplyOutcomes(rows, parts[..|parts| - 1], respond);
      match respond(last)
      case Fetched(info) => FanOutKeepsInvariants(prev, last, info, Error, None);
      case Failed(t) => FanOutKeepsInvariants(prev, last, PartInfo("", "", "", "", "", 0, [], "", "", ""), Error, Some(FailureMessage(t)));
    }
  }

  lemma RunRowsKeepsInvariants(rows: seq<Row>, parts: seq<string>, respond: string -> Outcome, n: nat)
    requires n <= |parts| && forall k | 0 <= k < |parts| :: StartsWithC(parts[k])
    requires SkipConsistent(rows) && IdsDistinct(rows)
    ensures SkipConsistent(RunRows(rows, parts, respond, n)) && IdsDistinct(RunRows(rows, parts, respond, n))
  {
    SetStatusAllKeepsInvariants(rows, parts, Loading);
    var loading := SetStatusAll(rows, parts, Loading);
    ApplyOutcomesKeepsInvariants(loading, parts[..n], respond);
    SetStatusAllKeepsInvariants(ApplyOutcomes(loading, parts[..n], respond), parts[n..], Pending);
  }

  /**
   * Composed with the client: a failed lookup always carries an `Error`, so the
   * "Failed to fetch" fallback is never used, and a non-2xx answer always
   * leaves a non-empty message, which replaces the row's previous one.
   */
  lemma LookupFailureMessage(response: LcscApi.Response)
    ensures var o := LcscApi.FetchLcscPart(response);
      o.Failed? ==> o.thrown.Raised? && FailureMessage(o.thrown) == o.thrown.error.message
    ensures response.NotOk? ==> FailureMessage(LcscApi.FetchLcscPart(response).thrown) != []
  {
    LcscApi.FetchLcscPartOutcome(response);
  }

  // ----- retry -----

  /** The part numbers of the rows in `error`, one per such row. */
  function ErrorLcscs(rows: seq<Row>): (r: seq<string>)
    ensures forall i | 0 <= i < |rows| && rows[i].fetchStatus == Error :: rows[i].lcsc in r
  {
    if rows == [] then []
    else
      var last := |rows| - 1;
      assert forall i | 0 <= i < last :: rows[..last][i] == rows[i];
      if rows[last].fetchStatus == Error then ErrorLcscs(rows[..last]) + [rows[last].lcsc] else ErrorLcscs(rows[..last])
  }

  /** Every part number collected for a retry is carried by some `error` row. */
  lemma {:induction false} ErrorLcscsOfErrors(rows: seq<Row>, k: nat)
    requires k < |ErrorLcscs(rows)|
    ensures exists i | 0 <= i < |rows| :: rows[i].lcsc == ErrorLcscs(rows)[k] && rows[i].fetchStatus == Error
  {
    var last := |rows| - 1;
    var init := ErrorLcscs(rows[..last]);
    var r := ErrorLcscs(rows);
    if k < |init| {
      assert r[k] == init[k] by {
        if rows[last].fetchStatus == Error {
          assert r == init + [rows[last].lcsc];
        } else {
          assert r == init;
        }
      }
      ErrorLcscsOfErrors(rows[..last], k);
      var i :| 0 <= i < last && rows[..last][i].lcsc == init[k] && rows[..last][i].fetchStatus == Error;
      assert rows[i] == rows[..last][i];
    } else {
      assert r == init + [rows[last].lcsc];
      assert rows[last].lcsc == r[k] && rows[last].fetchStatus == Error;
    }
  }

  /**
   * `retryErrors`: every row sharing a part number with an `error` row is put
   * back to `pending` (its error message and other fields kept); no row is
   * left in `error`; rows whose part number no `error` row carries are unchanged.
   */
  lemma RetryAt(rows: seq<Row>, i: nat)
    requires i < |rows|
    ensures var r := SetStatusAll(rows, ErrorLcscs(rows), Pending)[i];
      && (rows[i].lcsc in ErrorLcscs(rows) ==> r == rows[i].(fetchStatus := Pending))
      && (rows[i].lcsc !in ErrorLcscs(rows) ==> r == rows[i])
      && r.fetchStatus != Error
  {
    SetStatusAllAt(rows, ErrorLcscs(rows), Pending, i);
  }

  /** A `success` row that shares its part number with an `error` row is reset to `pending` by a retry. */
  lemma RetryResetsSharedSuccess()
    ensures var info := PartInfo("C7", "M", "P", "", "", 1, [], "", "", "");
      var rows := [Row("a", "", "R1", "", "C7", 1, Some(info), Success, None, None, None),
                   Row("b", "", "R2", "", "C7", 2, None, Error, Some("Part not found"), None, None)];
      var r := SetStatusAll(rows, ErrorLcscs(rows), Pending);
      r[0].fetchStatus == Pending && r[0].lcscInfo == Some(info)
  {
    var info := PartInfo("C7", "M", "P", "", "", 1, [], "", "", "");
    var rows := [Row("a", "", "R1", "", "C7", 1, Some(info), Success, None, None, None),
                 Row("b", "", "R2", "", "C7", 2, None, Error, Some("Part not found"), None, None)];
    RetryAt(rows, 0);
    assert rows[1].fetchStatus == Error;
  }

  // ----- counts -----

  /** The rows' statuses, in row order. */
  function Statuses(rows: seq<Row>): (r: seq<Status>)
    ensures |r| == |rows| && forall i | 0 <= i < |rows| :: r[i] == rows[i].fetchStatus
  {
    seq(|rows|, i requires 0 <= i < |rows| => rows[i].fetchStatus)
  }

  /** `rows.filter((r) => r.fetchStatus === status).length`: how many rows have the status. */
  function CountStatus(rows: seq<Row>, status: Status): (c: nat)
    ensures c == multiset(Statuses(rows))[status]
    ensures c <= |rows|
  {
    if rows == [] then 0
    else
      var init := rows[..|rows| - 1];
      assert Statuses(rows) == Statuses(init) + [rows[|rows| - 1].fetchStatus];
      CountStatus(init, status) + (if rows[|rows| - 1].fetchStatus == status then 1 else 0)
  }

  /** Every row has exactly one status, so the five counts add up to the number of rows. */
  lemma {:induction false} CountsPartitionRows(rows: seq<Row>)
    ensures CountStatus(rows, Pending) + CountStatus(rows, Loading) + CountStatus(rows, Success)
            + CountStatus(rows, Error) + CountStatus(rows, Skipped) == |rows|
  {
    if rows != [] {
      CountsPartitionRows(rows[..|rows| - 1]);
    }
  }

  // ----- the run on the shared rate limiter -----

  /** The hook's lookups: what `await fetchLcscPart(lcsc)` delivers for the endpoint's answer. */
  function Lookups(respond: string -> LcscApi.Response): string -> Outcome {
    (lcsc: string) => LcscApi.FetchLcscPart(respond(lcsc))
  }

  /**
   * How many lookups a run over `total` parts makes when stop is pressed
   * while part `stopDuring` is awaited: the controller is fresh, so the
   * abort is first seen at the top of the next iteration.
   */
  function Reached(total: nat, stopDuring: Option<nat>): (n: nat)
    ensures n <= total
    ensures stopDuring.Some? && stopDuring.value < total ==> n == stopDuring.value + 1
    ensures stopDuring.None? || stopDuring.value >= total ==> n == total
  {
    LcscApi.RequestedCount(total, if stopDuring.Some? then Some(stopDuring.value + 1) else None)
  }

  /**
   * The slots a run's own settled lookups hold when lookup `i` joins a
   * limiter with `cap` slots. Each settled lookup keeps its slot for the
   * delay; `elapsed(i)` is how many of them (the oldest) have waited it out
   * by then.
   */
  function HeldAt(i: nat, elapsed: nat -> nat, cap: nat): nat
    decreases i, 1
  {
    var h := HeldAfter(i, elapsed, cap);
    h - Min(elapsed(i), h)
  }

  /**
   * The slots held once lookups `0 .. i - 1` have settled: a lookup that
   * found every slot held took over the oldest one when it was freed.
   */
  function HeldAfter(i: nat, elapsed: nat -> nat, cap: nat): nat
    decreases i, 0
  {
    if i == 0 then 0
    else
      var h := HeldAt(i - 1, elapsed, cap);
      if h >= cap then h else h + 1
  }

  /** Lookup `i` finds every slot held and waits in the limiter's queue. */
  predicate Queued(i: nat, elapsed: nat -> nat, cap: nat) {
    HeldAt(i, elapsed, cap) >= cap
  }

  /**
   * The run stalls: the awaited lookup found every slot held when it joined,
   * and stop is pressed before a slot frees for it. A lookup that queued and
   * was let in before the stop counts as running.
   */
  predicate Stalls(total: nat, elapsed: nat -> nat, cap: nat, stopDuring: Option<nat>) {
    stopDuring.Some? && stopDuring.value < total && Queued(stopDuring.value, elapsed, cap)
  }

  /** The rows of a stalled run: all marked `loading`, the first `s` looked up. */
  function StalledRows(rows: seq<Row>, parts: seq<string>, respond: string -> Outcome, s: nat): (r: seq<Row>)
    requires s <= |parts|
    ensures |r| == |rows|
  {
    ApplyOutcomes(SetStatusAll(rows, parts, Loading), parts[..s], respond)
  }

  /**
   * A stalled run leaves the dropped part and every later one `loading`: the
   * rows carrying them show a lookup in progress that never ends. The parts
   * before it are settled, and rows outside the snapshot are untouched.
   */
  lemma StalledRunLeavesLoading(rows: seq<Row>, parts: seq<string>, respond: string -> Outcome, s: nat, i: nat)
    requires NoDup(parts) && s < |parts| && i < |rows|
    ensures var r := StalledRows(rows, parts, respond, s)[i];
      && (rows[i].lcsc in parts[s..] ==> r == rows[i].(fetchStatus := Loading))
      && (rows[i].lcsc in parts[..s] ==> r.fetchStatus == Success || r.fetchStatus == Error)
      && (rows[i].lcsc !in parts ==> r == rows[i])
  {
    RunPhasesAt(rows, parts, respond, s, i);
    assert parts == parts[..s] + parts[s..];
    if rows[i].lcsc in parts[s..] {
      var k :| s <= k < |parts| && parts[k] == rows[i].lcsc;
      assert rows[i].lcsc !in parts[..s];
    }
    if rows[i].lcsc in parts[..s] {
      OutcomeRowSettles(rows[i].(fetchStatus := Loading), respond(rows[i].lcsc));
    }
  }

  /** A run never holds more slots than it has made lookups. */
  lemma {:induction false} HeldAfterAtMost(i: nat, elapsed: nat -> nat, cap: nat)
    ensures HeldAfter(i, elapsed, cap) <= i
  {
    if i > 0 {
      HeldAfterAtMost(i - 1, elapsed, cap);
    }
  }

  /**
   * When every delay has elapsed before the next lookup joins (answers
   * slower than the limiter's delay), no lookup ever waits in the queue, so
   * no stop can stall the run.
   */
  lemma SlowAnswersNeverStall(total: nat, elapsed: nat -> nat, cap: nat, stopDuring: Option<nat>)
    requires cap > 0 && forall i: nat :: elapsed(i) >= i
    ensures !Stalls(total, elapsed, cap, stopDuring)
  {
    if stopDuring.Some? {
      HeldAfterAtMost(stopDuring.value, elapsed, cap);
    }
  }

  /**
   * With the shared limiter's two slots and answers that all arrive within
   * its delay, the first two lookups start at once and the third waits:
   * stop pressed while it is awaited stalls the run.
   */
  lemma QuickAnswersQueueTheThird()
    ensures var quick := (i: nat) => 0;
      && !Queued(0, quick, 2) && !Queued(1, quick, 2) && Queued(2, quick, 2)
      && Stalls(3, quick, 2, Some(2)) && !Stalls(3, quick, 2, Some(1))
  {
    var quick := (i: nat) => 0;
    assert HeldAfter(0, quick, 2) == 0;
    assert HeldAt(0, quick, 2) == 0;
    assert HeldAfter(1, quick, 2) == 1;
    assert HeldAt(1, quick, 2) == 1;
    assert HeldAfter(2, quick, 2) == 2;
  }

  /**
   * Three pending parts, quick answers, stop pressed while the third is
   * awaited: the first two rows are settled and the third stays `loading`.
   */
  lemma StallExample()
    ensures var rows := [ExampleRow("1", "C1"), ExampleRow("2", "C2"), ExampleRow("3", "C3")];
      var r := StalledRows(rows, ["C1", "C2", "C3"], ExampleLookup, 2);
      && Stalls(3, (i: nat) => 0, 2, Some(2))
      && r[0].fetchStatus == Success && r[1].fetchStatus == Success
      && r[2] == rows[2].(fetchStatus := Loading)
  {
    var rows := [ExampleRow("1", "C1"), ExampleRow("2", "C2"), ExampleRow("3", "C3")];
    var parts := ["C1", "C2", "C3"];
    QuickAnswersQueueTheThird();
    assert parts[..2] == ["C1", "C2"] && parts[2..] == ["C3"];
    assert "C2" != "C1" && "C3" != "C1" && "C3" != "C2";
    assert NoDup(parts);
    StalledRunLeavesLoading(rows, parts, ExampleLookup, 2, 2);
    RunPhasesAt(rows, parts, ExampleLookup, 2, 0);
    RunPhasesAt(rows, parts, ExampleLookup, 2, 1);
    OutcomeRowSettles(rows[0].(fetchStatus := Loading), ExampleLookup("C1"));
    OutcomeRowSettles(rows[1].(fetchStatus := Loading), ExampleLookup("C2"));
  }

  // ----- the hook -----

  /** `parts.forEach((lcsc) => setFetchStatus(lcsc, status))` on the store. */
  method MarkEach(store: Store, parts: seq<string>, status: Status)
    modifies store
    ensures store.rows == SetStatusAll(old(store.rows), parts, status)
    ensures store.originalFilename == old(store.originalFilename)
    ensures store.fetchProgress == old(store.fetchProgress)
  {
    var k := 0;
    while k < |parts|
      invariant 0 <= k <= |parts|
      invariant store.rows == SetStatusAll(old(store.rows), parts[..k], status)
      invariant store.originalFilename == old(store.originalFilename)
      invariant store.fetchProgress == old(store.fetchProgress)
    {
      store.SetFetchStatus(parts[k], status, None);
      assert parts[..k + 1][..k] == parts[..k];
      k := k + 1;
    }
    assert parts[..|parts|] == parts;
  }

  /** One awaited lookup applied to the store: the record on success, else `error` with the message. */
  method ApplyLookup(store: Store, lcsc: string, o: Outcome)
    modifies store
    ensures store.rows == ApplyOutcome(old(store.rows), lcsc, o)
    ensures store.originalFilename == old(store.originalFilename)
    ensures store.fetchProgress == old(store.fetchProgress)
  {
    match o
    case Fetched(info) =>
      store.SetLcscInfo(lcsc, info);
    case Failed(t) =>
      store.SetFetchStatus(lcsc, Error, Some(FailureMessage(t)));
  }

  /** The hook's state: the store it drives, the shared limiter, `isRunning` and the current abort controller. */
  class Fetcher {
    const store: Store
    const limiter: RateLimiter
    var isRunning: bool
    /** Whether an `AbortController` has been created, and whether it was aborted. */
    var hasController: bool
    var aborted: bool

    constructor(store: Store, limiter: RateLimiter)
      ensures this.store == store && this.limiter == limiter
      ensures !isRunning && !hasController && !aborted
    {
      this.store := store;
      this.limiter := limiter;
      isRunning := false;
      hasController := false;
      aborted := false;
    }

    /**
     * The limiter's state between two lookups of a run: it holds nothing but
     * `held`, the run's settled lookups still waiting out their delay, oldest
     * first.
     */
    ghost predicate Holding(held: seq<nat>)
      reads limiter
    {
      && limiter.Valid() && limiter.queue == [] && limiter.inFlight == {}
      && limiter.running == |held|
      && (forall k | 0 <= k < |held| :: held[k] in limiter.cooling && held[k] < limiter.nextTicket)
      && (forall j, k | 0 <= j < k < |held| :: held[j] < held[k])
    }

    /** `stopFetch`: aborts the current controller, drops the limiter's queue, and clears `isRunning`. */
    method StopFetch()
      requires limiter.Valid()
      modifies this, limiter
      ensures limiter.Valid() && limiter.queue == [] && limiter.running == old(limiter.running)
      ensures limiter.inFlight == old(limiter.inFlight) && limiter.cooling == old(limiter.cooling)
      ensures limiter.nextTicket == old(limiter.nextTicket)
      ensures forall k | 0 <= k < |old(limiter.queue)| :: old(limiter.queue)[k] in limiter.dropped
      ensures aborted == (old(aborted) || old(hasController)) && hasController == old(hasController)
      ensures !isRunning
    {
      if hasController {
        aborted := true;
      }
      limiter.Clear();
      isRunning := false;
    }

    /**
     * `startFetch`. The pending part numbers are snapshotted and run (see
     * `Run`). Stop is pressed while part `stopDuring` is awaited; `elapsed`
     * is the timing of the limiter's delays (see `HeldAt`).
     */
    method StartFetch(respond: string -> LcscApi.Response, elapsed: nat -> nat, stopDuring: Option<nat>)
      returns (requested: seq<string>, progress: seq<FetchProgress>, stalled: Option<nat>)
      requires Holding([]) && limiter.maxConcurrent > 0
      modifies this, store, limiter
      ensures limiter.Valid()
      ensures var parts := old(store.PendingPartNumbers());
        var n := Reached(|parts|, stopDuring);
        && requested == parts[..n]
        && |progress| == n
        && (forall k | 0 <= k < n :: progress[k] == FetchProgress(k + 1, |parts|))
        && (stalled.Some? <==> Stalls(|parts|, elapsed, limiter.maxConcurrent, stopDuring))
        && (parts == [] ==> store.rows == old(store.rows) && isRunning == old(isRunning)
                            && store.fetchProgress == old(store.fetchProgress))
        && (stalled.None? ==> store.rows == RunRows(old(store.rows), parts, Lookups(respond), n))
        && (parts != [] && stalled.None? ==> !isRunning && store.fetchProgress == None)
        && (stalled.Some? ==>
              && store.rows == StalledRows(old(store.rows), parts, Lookups(respond), n - 1)
              && stalled.value in limiter.dropped
              && !isRunning && store.fetchProgress == Some(FetchProgress(n, |parts|)))
      ensures store.originalFilename == old(store.originalFilename)
    {
      var parts := store.PendingPartNumbers();
      requested, progress, stalled := Run(parts, respond, elapsed, stopDuring);
    }

    /**
     * `startFetch` once `parts` is snapshotted. With no part the call does
     * nothing. Otherwise all are marked `loading`, then looked up in order
     * through the limiter, each outcome applied to the rows. If the lookup
     * awaited at the stop was running, the parts after it are put back to
     * `pending` and the run ends. If it was still queued, `clear` drops it,
     * its promise never settles and the run stalls: `stalled` is its ticket,
     * the rows of that part and of the later ones stay `loading` and the
     * progress stays set. `requested` is the lookups made and `progress` the
     * progress values set, in order.
     */
    method Run(parts: seq<string>, respond: string -> LcscApi.Response, elapsed: nat -> nat, stopDuring: Option<nat>)
      returns (requested: seq<string>, progress: seq<FetchProgress>, stalled: Option<nat>)
      requires Holding([]) && limiter.maxConcurrent > 0
      modifies this, store, limiter
      ensures limiter.Valid()
      ensures var n := Reached(|parts|, stopDuring);
        && requested == parts[..n]
        && |progress| == n
        && (forall k | 0 <= k < n :: progress[k] == FetchProgress(k + 1, |parts|))
        && (stalled.Some? <==> Stalls(|parts|, elapsed, limiter.maxConcurrent, stopDuring))
        && (parts == [] ==> store.rows == old(store.rows) && isRunning == old(isRunning)
                            && store.fetchProgress == old(store.fetchProgress))
        && (stalled.None? ==> store.rows == RunRows(old(store.rows), parts, Lookups(respond), n))
        && (parts != [] && stalled.None? ==> !isRunning && store.fetchProgress == None)
        && (stalled.Some? ==>
              && store.rows == StalledRows(old(store.rows), parts, Lookups(respond), n - 1)
              && stalled.value in limiter.dropped
              && !isRunning && store.fetchProgress == Some(FetchProgress(n, |parts|)))
      ensures store.originalFilename == old(store.originalFilename)
    {
      requested, progress, stalled := [], [], None;
      if |parts| == 0 {
        assert RunRows(store.rows, parts, Lookups(respond), 0) == store.rows;
        return;
      }
      isRunning := true;
      hasController, aborted := true, false;
      MarkEach(store, parts, Loading);
      requested, progress, stalled := RunLookups(parts, respond, elapsed, stopDuring);
      if stalled.Some? {
        return;
      }
      isRunning := false;
      store.SetFetchProgress(None);
    }

    /**
     * The main loop of `startFetch`: each part's progress is set and its
     * lookup awaited and applied, until the abort signal is seen at the top of
     * an iteration; then the remaining parts are put back to `pending`. A
     * lookup dropped from the limiter's queue stalls the loop for good.
     */
    method RunLookups(parts: seq<string>, respond: string -> LcscApi.Response, elapsed: nat -> nat, stopDuring: Option<nat>)
      returns (requested: seq<string>, progress: seq<FetchProgress>, stalled: Option<nat>)
      requires Holding([]) && limiter.maxConcurrent > 0 && hasController && !aborted
      modifies this, store, limiter
      ensures limiter.Valid()
      ensures stalled.Some? <==> Stalls(|parts|, elapsed, limiter.maxConcurrent, stopDuring)
      ensures var n := Reached(|parts|, stopDuring);
        && requested == parts[..n]
        && |progress| == n
        && (forall k | 0 <= k < n :: progress[k] == FetchProgress(k + 1, |parts|))
        && (stalled.None? ==>
              store.rows == SetStatusAll(ApplyOutcomes(old(store.rows), parts[..n], Lookups(respond)), parts[n..], Pending))
        && (stalled.Some? ==>
              && store.rows == ApplyOutcomes(old(store.rows), parts[..n - 1], Lookups(respond))
              && stalled.value in limiter.dropped
              && !isRunning && store.fetchProgress == Some(FetchProgress(n, |parts|)))
      ensures store.originalFilename == old(store.originalFilename)
    {
      requested, progress, stalled := [], [], None;
      var cap := limiter.maxConcurrent;
      var n := Reached(|parts|, stopDuring);
      var held: seq<nat> := [];
      var i := 0;
      while i < |parts|
        invariant 0 <= i <= n
        invariant aborted <==> stopDuring.Some? && stopDuring.value < i
        invariant stopDuring.Some? && stopDuring.value < i ==> !Queued(stopDuring.value, elapsed, cap)
        invariant requested == parts[..i] && |progress| == i
        invariant forall j | 0 <= j < i :: progress[j] == FetchProgress(j + 1, |parts|)
        invariant store.rows == ApplyOutcomes(old(store.rows), parts[..i], Lookups(respond))
        invariant store.originalFilename == old(store.originalFilename)
        invariant Holding(held) && |held| == HeldAfter(i, elapsed, cap) && hasController
      {
        if aborted {
          assert i == n;
          MarkEach(store, parts[i..], Pending);
          return;
        }
        progress := progress + [FetchProgress(i + 1, |parts|)];
        requested := requested + [parts[i]];
        var waiting, ticket;
        waiting, held, ticket := Step(parts, i, respond, elapsed, held, stopDuring == Some(i));
        if waiting {
          assert n == i + 1 && Stalls(|parts|, elapsed, cap, stopDuring);
          stalled := Some(ticket);
          return;
        }
        assert parts[..i + 1][..i] == parts[..i];
        i := i + 1;
      }
      assert parts[i..] == [];
      assert parts[..i] == parts;
    }

    /**
     * One iteration of the main loop past the abort check: the progress is
     * set, the held slots whose delay has elapsed are freed, and part `i` is
     * looked up.
     */
    method Step(parts: seq<string>, i: nat, respond: string -> LcscApi.Response, elapsed: nat -> nat,
                held: seq<nat>, stopNow: bool)
      returns (waiting: bool, next: seq<nat>, ticket: nat)
      requires i < |parts| && limiter.maxConcurrent > 0
      requires Holding(held) && |held| == HeldAfter(i, elapsed, limiter.maxConcurrent)
      modifies this, store, limiter
      ensures waiting <==> stopNow && Queued(i, elapsed, limiter.maxConcurrent)
      ensures store.fetchProgress == Some(FetchProgress(i + 1, |parts|))
      ensures waiting ==> store.rows == old(store.rows) && limiter.Valid() && ticket in limiter.dropped
      ensures !waiting ==>
        && store.rows == ApplyOutcome(old(store.rows), parts[i], Lookups(respond)(parts[i]))
        && Holding(next) && |next| == HeldAfter(i + 1, elapsed, limiter.maxConcurrent)
      ensures stopNow ==> !isRunning && aborted == (old(aborted) || hasController)
      ensures !stopNow ==> isRunning == old(isRunning) && aborted == old(aborted)
      ensures hasController == old(hasController)
      ensures store.originalFilename == old(store.originalFilename)
    {
      store.SetFetchProgress(Some(FetchProgress(i + 1, |parts|)));
      var rest := ReleaseOldest(held, Min(elapsed(i), |held|));
      waiting, next, ticket := LookupOne(parts[i], respond, rest, stopNow);
    }

    /** The delays of the `e` oldest held slots have elapsed: each of those slots is freed in turn. */
    method ReleaseOldest(held: seq<nat>, e: nat) returns (rest: seq<nat>)
      requires Holding(held) && e <= |held|
      modifies limiter
      ensures rest == held[e..] && Holding(rest)
    {
      rest := held;
      var k := 0;
      while k < e
        invariant 0 <= k <= e && rest == held[k..] && Holding(rest)
      {
        var started := limiter.Release(rest[0]);
        rest := rest[1..];
        k := k + 1;
      }
    }

    /** The limiter between admitting a lookup and its promise ending: `ticket` runs, the run's `held` slots wait out their delays. */
    ghost predicate Running(held: seq<nat>, ticket: nat)
      reads limiter
    {
      && limiter.Valid() && limiter.queue == [] && limiter.inFlight == {ticket}
      && limiter.running == |held| + 1 && ticket < limiter.nextTicket
      && (forall k | 0 <= k < |held| :: held[k] in limiter.cooling && held[k] < ticket)
      && (forall j, k | 0 <= j < k < |held| :: held[j] < held[k])
    }

    /**
     * A lookup joins the limiter and, when every slot is held, waits until
     * the oldest held slot is freed. Stop pressed meanwhile (`stopNow`)
     * drops the waiting lookup: `waiting` is set and `ticket` is in
     * `dropped`. Stop pressed once the lookup runs only aborts.
     */
    method Enter(held: seq<nat>, stopNow: bool) returns (waiting: bool, rest: seq<nat>, ticket: nat)
      requires Holding(held) && limiter.maxConcurrent > 0
      modifies this, limiter
      ensures waiting <==> stopNow && |held| >= limiter.maxConcurrent
      ensures waiting ==> limiter.Valid() && ticket in limiter.dropped
      ensures !waiting ==> Running(rest, ticket) && rest == if |held| >= limiter.maxConcurrent then held[1..] else held
      ensures stopNow ==> !isRunning && aborted == (old(aborted) || hasController)
      ensures !stopNow ==> isRunning == old(isRunning) && aborted == old(aborted)
      ensures hasController == old(hasController)
    {
      var started;
      ticket, started := limiter.Add();
      rest := held;
      if started.None? {
        ghost var queue := limiter.queue;
        assert queue == [ticket];
        if stopNow {
          StopFetch();
          assert queue[0] in limiter.dropped;
          return true, rest, ticket;
        }
        started := limiter.Release(rest[0]);
        assert started == Some(ticket);
        rest := rest[1..];
      }
      if stopNow {
        StopFetch();
      }
      waiting := false;
    }

    /**
     * One `await fetchLcscPart(lcsc)`: the lookup enters the limiter, runs,
     * and its answer, forwarded by the limiter, is applied to the rows. A
     * lookup dropped while waiting (`waiting`) changes no row.
     */
    method LookupOne(lcsc: string, respond: string -> LcscApi.Response, held: seq<nat>, stopNow: bool)
      returns (waiting: bool, next: seq<nat>, ticket: nat)
      requires Holding(held) && limiter.maxConcurrent > 0
      modifies this, store, limiter
      ensures waiting <==> stopNow && |held| >= limiter.maxConcurrent
      ensures waiting ==> store.rows == old(store.rows) && limiter.Valid() && ticket in limiter.dropped
      ensures !waiting ==>
        && store.rows == ApplyOutcome(old(store.rows), lcsc, LcscApi.FetchLcscPart(respond(lcsc)))
        && Holding(next)
        && |next| == if |held| >= limiter.maxConcurrent then |held| else |held| + 1
      ensures stopNow ==> !isRunning && aborted == (old(aborted) || hasController)
      ensures !stopNow ==> isRunning == old(isRunning) && aborted == old(aborted)
      ensures hasController == old(hasController)
      ensures store.originalFilename == old(store.originalFilename)
      ensures store.fetchProgress == old(store.fetchProgress)
    {
      var rest;
      waiting, rest, ticket := Enter(held, stopNow);
      next := rest;
      if waiting {
        return;
      }
      var s := limiter.Settle(ticket, LcscApi.PartTask(respond(lcsc)));
      next := rest + [ticket];
      ApplyLookup(store, lcsc, LcscApi.Delivered(s));
    }

    /** `retryErrors`: for each row in `error`, its part number is set back to `pending`. */
    method RetryErrors()
      modifies store
      ensures store.rows == SetStatusAll(old(store.rows), ErrorLcscs(old(store.rows)), Pending)
      ensures store.originalFilename == old(store.originalFilename)
      ensures store.fetchProgress == old(store.fetchProgress)
    {
      MarkEach(store, ErrorLcscs(store.rows), Pending);
    }
  }
}
