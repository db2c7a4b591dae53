/**
 * src/hooks/useBomStore.ts: the price-tier resolver, the row store and its
 * actions (each a method tied to a function on the row sequence), and the
 * derived queries.
 */
module BomStore {
  import opened Utils
  import opened Text
  import opened BomTypes
  import BomParser

  // ----- findApplicablePrice -----

  /** `quantity >= p.minQty && (p.maxQty === null || quantity <= p.maxQty)`. */
  predicate TierMatches(t: PriceTier, quantity: int) {
    quantity >= t.minQty && (t.maxQty.None? || quantity <= t.maxQty.value)
  }

  /**
   * The unit price for `quantity`: absent for no tiers; otherwise the price of
   * the first matching tier in list order, falling back to the first tier's
   * price when no tier matches or when the matching tier's price is 0 (the
   * `tier?.price || prices[0]?.price` of the source).
   */
  function FindApplicablePrice(prices: seq<PriceTier>, quantity: int): (r: Option<real>)
    ensures r.None? <==> prices == []
    ensures prices != [] && (forall j | 0 <= j < |prices| :: !TierMatches(prices[j], quantity))
            ==> r == Some(prices[0].price)
    ensures forall k | 0 <= k < |prices| && TierMatches(prices[k], quantity)
                       && (forall j | 0 <= j < k :: !TierMatches(prices[j], quantity)) ::
              r == Some(if prices[k].price != 0.0 then prices[k].price else prices[0].price)
  {
    if prices == [] then None
    else match FindIndex(prices, t => TierMatches(t, quantity))
      case None => Some(prices[0].price)
      case Some(k) => Some(if prices[k].price != 0.0 then prices[k].price else prices[0].price)
  }

  /** The worked example of the pricing policy: in-band, open-ended and under-quantity requests. */
  lemma ResolverExamples()
    ensures var tiers := [PriceTier(1, Some(9), 0.10), PriceTier(10, Some(99), 0.08),
                          PriceTier(100, None, 0.05)];
      && FindApplicablePrice(tiers, 50) == Some(0.08)
      && FindApplicablePrice(tiers, 500) == Some(0.05)
      && FindApplicablePrice(tiers, 0) == Some(0.10)
      && FindApplicablePrice([], 7) == None
  {
    var tiers := [PriceTier(1, Some(9), 0.10), PriceTier(10, Some(99), 0.08),
                  PriceTier(100, None, 0.05)];
    assert TierMatches(tiers[1], 50) && !TierMatches(tiers[0], 50);
    assert TierMatches(tiers[2], 500) && !TierMatches(tiers[0], 500) && !TierMatches(tiers[1], 500);
    assert !TierMatches(tiers[0], 0) && !TierMatches(tiers[1], 0) && !TierMatches(tiers[2], 0);
  }

  /** A matching tier priced 0 is skipped in favour of the first tier's price. */
  lemma ZeroPriceTierFallsBack()
    ensures FindApplicablePrice([PriceTier(1, Some(9), 0.10), PriceTier(10, None, 0.0)], 20)
            == Some(0.10)
  {
    var tiers := [PriceTier(1, Some(9), 0.10), PriceTier(10, None, 0.0)];
    assert TierMatches(tiers[1], 20) && !TierMatches(tiers[0], 20);
  }

  // ----- per-row effects of the actions -----

  /** What `setLcscInfo` does to one matching row. */
  function WithInfo(row: Row, info: PartInfo): Row {
    var unit := FindApplicablePrice(info.prices, row.quantity);
    row.(lcscInfo := Some(info), fetchStatus := Success, errorMessage := None,
         unitPrice := unit,
         totalPrice := if unit.Some? && unit.value != 0.0 then Some(unit.value * row.quantity as real)
                       else None)
  }

  /** What `setFetchStatus` does to one matching row: a message replaces the old one only when non-empty. */
  function WithStatus(row: Row, status: Status, message: Option<string>): Row {
    row.(fetchStatus := status,
         errorMessage := if message.Some? && message.value != "" then message else row.errorMessage)
  }

  /** `setLcscInfo` on the whole row list. */
  function ApplyInfo(rows: seq<Row>, lcsc: string, info: PartInfo): seq<Row> {
    seq(|rows|, i requires 0 <= i < |rows| =>
      if rows[i].lcsc == lcsc then WithInfo(rows[i], info) else rows[i])
  }

  /** `setFetchStatus` on the whole row list. */
  function ApplyStatus(rows: seq<Row>, lcsc: string, status: Status, message: Option<string>): seq<Row> {
    seq(|rows|, i requires 0 <= i < |rows| =>
      if rows[i].lcsc == lcsc then WithStatus(rows[i], status, message) else rows[i])
  }

  /** The fields of a row that come from the BOM and are never touched by fetching. */
  predicate SameLine(a: Row, b: Row) {
    a.id == b.id && a.comment == b.comment && a.designator == b.designator
    && a.footprint == b.footprint && a.lcsc == b.lcsc && a.quantity == b.quantity
  }

  /**
   * `setLcscInfo` touches exactly the rows with that identifier: each gets the
   * info, `success`, no error, a unit price resolved from its own quantity and
   * a total that is unit times quantity unless the unit price is absent or 0.
   */
  lemma ApplyInfoEffect(rows: seq<Row>, lcsc: string, info: PartInfo, i: nat)
    requires i < |rows|
    ensures var r := ApplyInfo(rows, lcsc, info)[i];
      && |ApplyInfo(rows, lcsc, info)| == |rows|
      && SameLine(r, rows[i])
      && (rows[i].lcsc != lcsc ==> r == rows[i])
      && (rows[i].lcsc == lcsc ==>
            && r.lcscInfo == Some(info) && r.fetchStatus == Success && r.errorMessage.None?
            && r.unitPrice == FindApplicablePrice(info.prices, rows[i].quantity)
            && (r.unitPrice.None? || r.unitPrice == Some(0.0) <==> r.totalPrice.None?)
            && (r.totalPrice.Some? ==> r.totalPrice.value == r.unitPrice.value * rows[i].quantity as real))
  {
  }

  lemma WithInfoIdempotent(row: Row, info: PartInfo)
    ensures WithInfo(WithInfo(row, info), info) == WithInfo(row, info)
  {
    var once := WithInfo(row, info);
    var twice := WithInfo(once, info);
    assert twice.totalPrice.None? <==> once.totalPrice.None?;
    if once.totalPrice.Some? {
      assert twice.totalPrice.value == once.totalPrice.value;
    }
  }

  /** Applying the same info twice leaves the rows as applying it once. */
  lemma ApplyInfoIdempotent(rows: seq<Row>, lcsc: string, info: PartInfo)
    ensures ApplyInfo(ApplyInfo(rows, lcsc, info), lcsc, info) == ApplyInfo(rows, lcsc, info)
  {
    var once := ApplyInfo(rows, lcsc, info);
    var twice := ApplyInfo(once, lcsc, info);
    forall i | 0 <= i < |rows| ensures twice[i] == once[i] {
      if rows[i].lcsc == lcsc {
        WithInfoIdempotent(rows[i], info);
      }
    }
  }

  /** Two rows sharing an identifier but not a quantity are priced independently. */
  lemma FanOutExample()
    ensures var info := PartInfo("C1000", "M", "P", "", "", 10,
                                 [PriceTier(1, Some(9), 0.10), PriceTier(10, Some(99), 0.08),
                                  PriceTier(100, None, 0.05)], "", "", "");
      var rows := [Row("a", "", "R1", "", "C1000", 5, None, Pending, None, None, None),
                   Row("b", "", "R2", "", "C1000", 50, None, Pending, None, None, None)];
      var r := ApplyInfo(rows, "C1000", info);
      r[0].unitPrice == Some(0.10) && r[0].totalPrice == Some(0.5)
      && r[1].unitPrice == Some(0.08) && r[1].totalPrice == Some(4.0)
  {
    var tiers := [PriceTier(1, Some(9), 0.10), PriceTier(10, Some(99), 0.08),
                  PriceTier(100, None, 0.05)];
    assert TierMatches(tiers[0], 5);
    assert TierMatches(tiers[1], 50) && !TierMatches(tiers[0], 50);
  }

  /** `setFetchStatus` sets the status on the rows with that identifier and only there. */
  lemma ApplyStatusEffect(rows: seq<Row>, lcsc: string, status: Status, message: Option<string>, i: nat)
    requires i < |rows|
    ensures var r := ApplyStatus(rows, lcsc, status, message)[i];
      && |ApplyStatus(rows, lcsc, status, message)| == |rows|
      && (rows[i].lcsc != lcsc ==> r == rows[i])
      && (rows[i].lcsc == lcsc ==>
            && r.fetchStatus == status
            && r == rows[i].(fetchStatus := status, errorMessage := r.errorMessage)
            && (r.errorMessage != rows[i].errorMessage ==> message.Some? && message.value != "")
            && (message.Some? && message.value != "" ==> r.errorMessage == message))
  {
  }

  // ----- updateRow / deleteRow -----

  /** `Partial<BomRowExtended>`: `None` is a key the patch does not contain. */
  datatype Patch = Patch(
    id: Option<string>,
    comment: Option<string>,
    designator: Option<string>,
    footprint: Option<string>,
    lcsc: Option<string>,
    quantity: Option<int>,
    lcscInfo: Option<PartInfo>,
    fetchStatus: Option<Status>,
    errorMessage: Option<string>,
    unitPrice: Option<real>,
    totalPrice: Option<real>)

  function Or<T>(o: Option<T>, d: T): T {
    if o.Some? then o.value else d
  }

  /** `Object.assign(row, patch)`. */
  function Assign(row: Row, p: Patch): Row
  {
    Row(Or(p.id, row.id), Or(p.comment, row.comment), Or(p.designator, row.designator),
        Or(p.footprint, row.footprint), Or(p.lcsc, row.lcsc), Or(p.quantity, row.quantity),
        if p.lcscInfo.Some? then p.lcscInfo else row.lcscInfo,
        Or(p.fetchStatus, row.fetchStatus),
        if p.errorMessage.Some? then p.errorMessage else row.errorMessage,
        if p.unitPrice.Some? then p.unitPrice else row.unitPrice,
        if p.totalPrice.Some? then p.totalPrice else row.totalPrice)
  }

  /** A key the patch carries replaces the field; any field the patch leaves out is kept. */
  lemma AssignFields(row: Row, p: Patch)
    ensures var r := Assign(row, p);
      && (if p.id.Some? then r.id == p.id.value else r.id == row.id)
      && (if p.comment.Some? then r.comment == p.comment.value else r.comment == row.comment)
      && (if p.designator.Some? then r.designator == p.designator.value else r.designator == row.designator)
      && (if p.footprint.Some? then r.footprint == p.footprint.value else r.footprint == row.footprint)
      && (if p.lcsc.Some? then r.lcsc == p.lcsc.value else r.lcsc == row.lcsc)
      && (if p.quantity.Some? then r.quantity == p.quantity.value else r.quantity == row.quantity)
      && (if p.lcscInfo.Some? then r.lcscInfo == p.lcscInfo else r.lcscInfo == row.lcscInfo)
      && (if p.fetchStatus.Some? then r.fetchStatus == p.fetchStatus.value else r.fetchStatus == row.fetchStatus)
      && (if p.errorMessage.Some? then r.errorMessage == p.errorMessage else r.errorMessage == row.errorMessage)
      && (if p.unitPrice.Some? then r.unitPrice == p.unitPrice else r.unitPrice == row.unitPrice)
      && (if p.totalPrice.Some? then r.totalPrice == p.totalPrice else r.totalPrice == row.totalPrice)
  {
  }

  /** The patch that carries no key. */
  const EmptyPatch := Patch(None, None, None, None, None, None, None, None, None, None, None)

  /** Assigning the empty patch changes nothing; assigning a patch twice is the same as once. */
  lemma AssignLaws(row: Row, p: Patch)
    ensures Assign(row, EmptyPatch) == row
    ensures Assign(Assign(row, p), p) == Assign(row, p)
  {
  }

  /** The assignment, then the reset that a patch carrying `lcsc` triggers. */
  function Patched(row: Row, p: Patch): Row {
    var r := Assign(row, p);
    if p.lcsc.Some? then
      r.(fetchStatus := BomParser.InitialStatus(p.lcsc.value), lcscInfo := None,
         unitPrice := None, totalPrice := None, errorMessage := None)
    else r
  }

  function FirstWithId(rows: seq<Row>, id: string): Option<nat> {
    FindIndex(rows, (r: Row) => r.id == id)
  }

  /** `updateRow` on the row list. */
  function UpdateRows(rows: seq<Row>, id: string, p: Patch): seq<Row> {
    match FirstWithId(rows, id)
    case None => rows
    case Some(k) => rows[k := Patched(rows[k], p)]
  }

  /** `deleteRow` on the row list. */
  function DeleteFirst(rows: seq<Row>, id: string): seq<Row> {
    match FirstWithId(rows, id)
    case None => rows
    case Some(k) => rows[..k] + rows[k + 1..]
  }

  /**
   * `updateRow` changes only the first row with the id, or nothing when no row
   * has it; a patch with `lcsc` recomputes the status from the new identifier
   * and clears info, prices and error.
   */
  lemma UpdateRowsEffect(rows: seq<Row>, id: string, p: Patch)
    ensures var r := UpdateRows(rows, id, p);
      && |r| == |rows|
      && ((forall i | 0 <= i < |rows| :: rows[i].id != id) ==> r == rows)
      && forall k | 0 <= k < |rows| && rows[k].id == id && (forall j | 0 <= j < k :: rows[j].id != id) ::
           && (forall i | 0 <= i < |rows| && i != k :: r[i] == rows[i])
           && r[k] == Patched(rows[k], p)
           && (p.lcsc.None? ==> r[k] == Assign(rows[k], p))
           && (p.lcsc.Some? ==>
                 && r[k].lcsc == p.lcsc.value
                 && (r[k].fetchStatus == Pending <==> StartsWithC(p.lcsc.value))
                 && (r[k].fetchStatus == Skipped <==> !StartsWithC(p.lcsc.value))
                 && r[k].lcscInfo.None? && r[k].unitPrice.None? && r[k].totalPrice.None?
                 && r[k].errorMessage.None?)
  {
  }

  /** A patch of the quantity alone leaves the stored prices as they were. */
  lemma QuantityPatchKeepsPrices(row: Row, q: int)
    ensures var r := Patched(row, EmptyPatch.(quantity := Some(q)));
      r.quantity == q && r.unitPrice == row.unitPrice && r.totalPrice == row.totalPrice
  {
  }

  /** `deleteRow` removes the first row with the id and keeps the others in order, or does nothing. */
  lemma DeleteFirstEffect(rows: seq<Row>, id: string)
    ensures var r := DeleteFirst(rows, id);
      && ((forall i | 0 <= i < |rows| :: rows[i].id != id) ==> r == rows)
      && forall k | 0 <= k < |rows| && rows[k].id == id && (forall j | 0 <= j < k :: rows[j].id != id) ::
           && |r| == |rows| - 1
           && (forall i | 0 <= i < k :: r[i] == rows[i])
           && (forall i | k <= i < |r| :: r[i] == rows[i + 1])
  {
    var f := FirstWithId(rows, id);
    if f.Some? {
      var k := f.value;
      var r := rows[..k] + rows[k + 1..];
      assert r == DeleteFirst(rows, id);
      assert |r| == |rows| - 1;
      assert forall i | 0 <= i < k :: r[i] == rows[i];
      assert forall i | k <= i < |r| :: r[i] == rows[i + 1];
      assert forall j | 0 <= j < |rows| && rows[j].id == id && (forall i | 0 <= i < j :: rows[i].id != id) :: j == k;
    }
  }

  // ----- derived queries -----

  /** `rows.map(r => r.lcsc).filter(lcsc => lcsc && lcsc.startsWith('C'))`. */
  function FetchableLcscs(rows: seq<Row>): (r: seq<string>)
    ensures forall k | 0 <= k < |r| :: StartsWithC(r[k])
    ensures forall k | 0 <= k < |r| :: exists i | 0 <= i < |rows| :: rows[i].lcsc == r[k]
    ensures forall i | 0 <= i < |rows| && StartsWithC(rows[i].lcsc) :: rows[i].lcsc in r
  {
    if rows == [] then []
    else
      var init := rows[..|rows| - 1];
      var last := rows[|rows| - 1];
      var p := FetchableLcscs(init);
      assert forall i | 0 <= i < |init| :: init[i] == rows[i];
      if StartsWithC(last.lcsc) then p + [last.lcsc] else p
  }

  /** The mapped filter keeps row order: it works row by row across a concatenation. */
  lemma {:induction false} FetchableLcscsAppend(a: seq<Row>, b: seq<Row>)
    ensures FetchableLcscs(a + b) == FetchableLcscs(a) + FetchableLcscs(b)
    decreases |b|
  {
    if b == [] {
      assert a + b == a;
    } else {
      var ab, init, x := a + b, b[..|b| - 1], b[|b| - 1];
      assert ab[..|ab| - 1] == a + init && ab[|ab| - 1] == x;
      FetchableLcscsSnoc(ab);
      FetchableLcscsSnoc(b);
      FetchableLcscsAppend(a, init);
    }
  }

  lemma FetchableLcscsSnoc(rows: seq<Row>)
    requires rows != []
    ensures FetchableLcscs(rows) == FetchableLcscs(rows[..|rows| - 1]) + (if StartsWithC(rows[|rows| - 1].lcsc) then [rows[|rows| - 1].lcsc] else [])
  {
  }

  lemma FetchableLcscsOne(row: Row)
    ensures FetchableLcscs([row]) == if StartsWithC(row.lcsc) then [row.lcsc] else []
  {
    assert [row][..0] == [];
  }

  /** `rows.filter(r => r.fetchStatus === 'pending')`. */
  function PendingRows(rows: seq<Row>): (r: seq<Row>)
    ensures forall k | 0 <= k < |r| :: r[k].fetchStatus == Pending && r[k] in rows
    ensures forall i | 0 <= i < |rows| && rows[i].fetchStatus == Pending :: rows[i] in r
  {
    if rows == [] then []
    else
      var init := rows[..|rows| - 1];
      var last := rows[|rows| - 1];
      assert forall i | 0 <= i < |init| :: init[i] == rows[i];
      if last.fetchStatus == Pending then PendingRows(init) + [last] else PendingRows(init)
  }

  /** The filter keeps row order: it works row by row across a concatenation. */
  lemma {:induction false} PendingRowsAppend(a: seq<Row>, b: seq<Row>)
    ensures PendingRows(a + b) == PendingRows(a) + PendingRows(b)
    decreases |b|
  {
    if b == [] {
      assert a + b == a;
    } else {
      var ab, init, x := a + b, b[..|b| - 1], b[|b| - 1];
      assert ab[..|ab| - 1] == a + init && ab[|ab| - 1] == x;
      PendingRowsSnoc(ab);
      PendingRowsSnoc(b);
      PendingRowsAppend(a, init);
    }
  }

  lemma PendingRowsSnoc(rows: seq<Row>)
    requires rows != []
    ensures PendingRows(rows) == PendingRows(rows[..|rows| - 1]) + (if rows[|rows| - 1].fetchStatus == Pending then [rows[|rows| - 1]] else [])
  {
  }

  lemma PendingRowsOne(row: Row)
    ensures PendingRows([row]) == if row.fetchStatus == Pending then [row] else []
  {
    assert [row][..0] == [];
  }

  /** The identifiers starting with 'C' of the pending rows, in row order and with repeats. */
  function PendingLcscs(rows: seq<Row>): (r: seq<string>)
    ensures forall k | 0 <= k < |r| :: StartsWithC(r[k])
    ensures forall k | 0 <= k < |r| ::
      exists i | 0 <= i < |rows| :: rows[i].lcsc == r[k] && rows[i].fetchStatus == Pending
    ensures forall i | 0 <= i < |rows| && StartsWithC(rows[i].lcsc) && rows[i].fetchStatus == Pending ::
      rows[i].lcsc in r
  {
    var pending := PendingRows(rows);
    assert forall k | 0 <= k < |pending| :: exists i | 0 <= i < |rows| :: rows[i] == pending[k];
    FetchableLcscs(pending)
  }

  /** `row.totalPrice || 0`. */
  function Contribution(row: Row): real {
    if row.totalPrice.Some? then row.totalPrice.value else 0.0
  }

  /** `rows.reduce((sum, row) => sum + (row.totalPrice || 0), 0)`. */
  function SumTotals(rows: seq<Row>): real {
    if rows == [] then 0.0 else SumTotals(rows[..|rows| - 1]) + Contribution(rows[|rows| - 1])
  }

  /** The total of a concatenation is the sum of the totals. */
  lemma {:induction false} SumTotalsAppend(a: seq<Row>, b: seq<Row>)
    ensures SumTotals(a + b) == SumTotals(a) + SumTotals(b)
    decreases |b|
  {
    if b == [] {
      assert a + b == a;
    } else {
      assert (a + b)[..|a + b| - 1] == a + b[..|b| - 1];
      SumTotalsAppend(a, b[..|b| - 1]);
    }
  }

  /** Rows without a total price add nothing. */
  lemma {:induction false} SumTotalsOfUnpriced(rows: seq<Row>)
    requires forall i | 0 <= i < |rows| :: rows[i].totalPrice.None?
    ensures SumTotals(rows) == 0.0
  {
    if rows != [] {
      SumTotalsOfUnpriced(rows[..|rows| - 1]);
    }
  }

  /** The total of a list is the total before position `k`, plus row `k`, plus the total after it. */
  lemma SumTotalsSplit(rows: seq<Row>, k: nat)
    requires k < |rows|
    ensures SumTotals(rows) == SumTotals(rows[..k]) + Contribution(rows[k]) + SumTotals(rows[k + 1..])
  {
    var before, row, after := rows[..k], rows[k], rows[k + 1..];
    assert rows == (before + [row]) + after;
    SumTotalsAppend(before + [row], after);
    SumTotalsAppend(before, [row]);
    assert [row][..0] == [];
  }

  lemma FirstWithIdIs(rows: seq<Row>, id: string, k: nat)
    requires k < |rows| && rows[k].id == id && forall j | 0 <= j < k :: rows[j].id != id
    ensures FirstWithId(rows, id) == Some(k)
  {
    var f := FirstWithId(rows, id);
    assert f.Some? ==> f.value <= k;
  }

  /** Deleting a row lowers the total cost by exactly what that row contributed. */
  lemma DeleteFirstTotal(rows: seq<Row>, id: string, k: nat)
    requires k < |rows| && rows[k].id == id && forall j | 0 <= j < k :: rows[j].id != id
    ensures SumTotals(DeleteFirst(rows, id)) == SumTotals(rows) - Contribution(rows[k])
  {
    FirstWithIdIs(rows, id, k);
    SumTotalsSplit(rows, k);
    SumTotalsAppend(rows[..k], rows[k + 1..]);
  }

  // ----- invariants that the fetch path keeps -----

  /** Row creation's rule: a row is skipped exactly when its identifier does not start with 'C'. */
  predicate SkipConsistent(rows: seq<Row>) {
    forall i | 0 <= i < |rows| :: rows[i].fetchStatus == Skipped <==> !StartsWithC(rows[i].lcsc)
  }

  predicate IdsDistinct(rows: seq<Row>) {
    forall i, j | 0 <= i < j < |rows| :: rows[i].id != rows[j].id
  }

  /** Loading a BOM establishes both invariants. */
  lemma ConvertToExtendedConsistent(rows: seq<OriginalRow>, clock: nat -> nat)
    ensures SkipConsistent(BomParser.ConvertToExtended(rows, clock))
    ensures IdsDistinct(BomParser.ConvertToExtended(rows, clock))
  {
  }

  /** Fan-out keyed by a fetchable identifier keeps the skip rule and the ids. */
  lemma FanOutKeepsInvariants(rows: seq<Row>, lcsc: string, info: PartInfo, status: Status, message: Option<string>)
    requires StartsWithC(lcsc) && status != Skipped
    requires SkipConsistent(rows) && IdsDistinct(rows)
    ensures SkipConsistent(ApplyInfo(rows, lcsc, info)) && IdsDistinct(ApplyInfo(rows, lcsc, info))
    ensures SkipConsistent(ApplyStatus(rows, lcsc, status, message))
    ensures IdsDistinct(ApplyStatus(rows, lcsc, status, message))
  {
  }

  /** `updateRow` keeps the skip rule unless the patch forces a status without an identifier. */
  lemma UpdateKeepsSkipRule(rows: seq<Row>, id: string, p: Patch)
    requires SkipConsistent(rows)
    requires p.lcsc.Some? || p.fetchStatus.None?
    ensures SkipConsistent(UpdateRows(rows, id, p))
  {
  }

  /** `deleteRow` keeps both invariants. */
  lemma DeleteKeepsInvariants(rows: seq<Row>, id: string)
    requires SkipConsistent(rows) && IdsDistinct(rows)
    ensures SkipConsistent(DeleteFirst(rows, id)) && IdsDistinct(DeleteFirst(rows, id))
  {
    match FirstWithId(rows, id)
    case None =>
    case Some(k) =>
      var r := DeleteFirst(rows, id);
      assert forall i | 0 <= i < |r| :: r[i] == (if i < k then rows[i] else rows[i + 1]);
  }

  // ----- the store -----

  datatype FetchProgress = FetchProgress(current: nat, total: nat)

  /** The store's state: rows, the loaded file's name, and the progress of a fetch run. */
  class Store {
    var rows: seq<Row>
    var originalFilename: Option<string>
    var fetchProgress: Option<FetchProgress>

    constructor()
      ensures rows == [] && originalFilename == None && fetchProgress == None
    {
      rows := [];
      originalFilename := None;
      fetchProgress := None;
    }

    /** `setRows`: a fresh row list; a missing or empty file name is stored as absent. */
    method SetRows(original: seq<OriginalRow>, filename: Option<string>, clock: nat -> nat)
      modifies this
      ensures rows == BomParser.ConvertToExtended(original, clock)
      ensures originalFilename == (if filename == Some("") then None else filename)
      ensures fetchProgress == None
    {
      rows := BomParser.ConvertToExtended(original, clock);
      originalFilename := if filename.Some? && filename.value != "" then filename else None;
      fetchProgress := None;
    }

    method UpdateRow(id: string, patch: Patch)
      modifies this
      ensures rows == UpdateRows(old(rows), id, patch)
      ensures originalFilename == old(originalFilename) && fetchProgress == old(fetchProgress)
    {
      var index := FirstWithId(rows, id);
      if index.Some? {
        rows := rows[index.value := Patched(rows[index.value], patch)];
      }
    }

    method DeleteRow(id: string)
      modifies this
      ensures rows == DeleteFirst(old(rows), id)
      ensures originalFilename == old(originalFilename) && fetchProgress == old(fetchProgress)
    {
      var index := FirstWithId(rows, id);
      if index.Some? {
        rows := rows[..index.value] + rows[index.value + 1..];
      }
    }

    /** `setLcscInfo`: visits every row and updates those with the identifier. */
    method SetLcscInfo(lcsc: string, info: PartInfo)
      modifies this
      ensures rows == ApplyInfo(old(rows), lcsc, info)
      ensures originalFilename == old(originalFilename) && fetchProgress == old(fetchProgress)
    {
      var i := 0;
      while i < |rows|
        invariant 0 <= i <= |rows| == |old(rows)|
        invariant forall k | 0 <= k < i :: rows[k] == ApplyInfo(old(rows), lcsc, info)[k]
        invariant forall k | i <= k < |rows| :: rows[k] == old(rows)[k]
        invariant originalFilename == old(originalFilename) && fetchProgress == old(fetchProgress)
      {
        if rows[i].lcsc == lcsc {
          rows := rows[i := WithInfo(rows[i], info)];
        }
        i := i + 1;
      }
    }

    /** `setFetchStatus`: visits every row and updates those with the identifier. */
    method SetFetchStatus(lcsc: string, status: Status, message: Option<string>)
      modifies this
      ensures rows == ApplyStatus(old(rows), lcsc, status, message)
      ensures originalFilename == old(originalFilename) && fetchProgress == old(fetchProgress)
    {
      var i := 0;
      while i < |rows|
        invariant 0 <= i <= |rows| == |old(rows)|
        invariant forall k | 0 <= k < i :: rows[k] == ApplyStatus(old(rows), lcsc, status, message)[k]
        invariant forall k | i <= k < |rows| :: rows[k] == old(rows)[k]
        invariant originalFilename == old(originalFilename) && fetchProgress == old(fetchProgress)
      {
        if rows[i].lcsc == lcsc {
          rows := rows[i := WithStatus(rows[i], status, message)];
        }
        i := i + 1;
      }
    }

    method SetFetchProgress(progress: Option<FetchProgress>)
      modifies this
      ensures fetchProgress == progress
      ensures rows == old(rows) && originalFilename == old(originalFilename)
    {
      fetchProgress := progress;
    }

    method ClearAll()
      modifies this
      ensures rows == [] && originalFilename == None && fetchProgress == None
    {
      rows := [];
      originalFilename := None;
      fetchProgress := None;
    }

    /** `getUniquePartNumbers`: each identifier starting with 'C' once, in first-occurrence order. */
    function UniquePartNumbers(): (r: seq<string>)
      reads this
      ensures NoDup(r)
      ensures forall k | 0 <= k < |r| :: StartsWithC(r[k])
      ensures forall k | 0 <= k < |r| :: exists i | 0 <= i < |rows| :: rows[i].lcsc == r[k]
      ensures forall i | 0 <= i < |rows| && StartsWithC(rows[i].lcsc) :: rows[i].lcsc in r
      ensures forall i, j | 0 <= i < j < |r| ::
        IndexOf(FetchableLcscs(rows), r[i]) < IndexOf(FetchableLcscs(rows), r[j])
    {
      DedupOrdered(FetchableLcscs(rows));
      Dedup(FetchableLcscs(rows))
    }

    /** `getPendingPartNumbers`: the same, restricted to rows that are pending. */
    function PendingPartNumbers(): (r: seq<string>)
      reads this
      ensures NoDup(r)
      ensures forall k | 0 <= k < |r| :: StartsWithC(r[k])
      ensures forall k | 0 <= k < |r| ::
        exists i | 0 <= i < |rows| :: rows[i].lcsc == r[k] && rows[i].fetchStatus == Pending
      ensures forall i | 0 <= i < |rows| && StartsWithC(rows[i].lcsc) && rows[i].fetchStatus == Pending ::
        rows[i].lcsc in r
      ensures forall i, j | 0 <= i < j < |r| ::
        IndexOf(PendingLcscs(rows), r[i]) < IndexOf(PendingLcscs(rows), r[j])
    {
      DedupOrdered(PendingLcscs(rows));
      Dedup(PendingLcscs(rows))
    }

    /** `getTotalCost`. */
    function TotalCost(): real
      reads this
    {
      SumTotals(rows)
    }
  }
}
