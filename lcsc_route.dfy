/**
 * src/app/api/lcsc/route.ts: the server-side lookup endpoint. It validates the
 * requested part number, asks the upstream component search for it (the
 * upstream exchange is a parameter), picks the exact match and normalises it
 * into a part record.
 */
module LcscRoute {
  import opened Utils
  import opened Text
  import opened BomTypes
  import LcscApi

  // ----- price tiers -----

  /** One entry of the upstream `componentPrices` list; `endNumber == -1` is an open upper end. */
  datatype UpstreamPrice = UpstreamPrice(startNumber: int, endNumber: int, productPrice: real)

  predicate SortedByStart(s: seq<UpstreamPrice>) {
    forall i, j | 0 <= i < j < |s| :: s[i].startNumber <= s[j].startNumber
  }

  /** The entries of `s` whose start is `key`, in their order in `s`. */
  function WithStart(s: seq<UpstreamPrice>, key: int): (r: seq<UpstreamPrice>)
    ensures |r| <= |s|
  {
    if s == [] then []
    else WithStart(s[..|s| - 1], key) + (if s[|s| - 1].startNumber == key then [s[|s| - 1]] else [])
  }

  lemma {:induction false} WithStartAppend(a: seq<UpstreamPrice>, b: seq<UpstreamPrice>, key: int)
    ensures WithStart(a + b, key) == WithStart(a, key) + WithStart(b, key)
  {
    if b != [] {
      assert (a + b)[..|a + b| - 1] == a + b[..|b| - 1];
      assert (a + b)[|a + b| - 1] == b[|b| - 1];
      WithStartAppend(a, b[..|b| - 1], key);
    } else {
      assert a + b == a;
    }
  }

  lemma {:induction false} WithStartOfLarger(s: seq<UpstreamPrice>, key: int)
    requires forall i | 0 <= i < |s| :: s[i].startNumber > key
    ensures WithStart(s, key) == []
  {
    if s != [] {
      WithStartOfLarger(s[..|s| - 1], key);
    }
  }

  /** Where a stable insertion puts `x` into sorted `t`: before the first entry with a larger start. */
  function InsertPos(x: UpstreamPrice, t: seq<UpstreamPrice>): (p: nat)
    ensures p <= |t|
    ensures forall j | 0 <= j < p :: t[j].startNumber <= x.startNumber
    ensures p < |t| ==> t[p].startNumber > x.startNumber
  {
    if t == [] || t[0].startNumber > x.startNumber then 0 else InsertPos(x, t[1..]) + 1
  }

  function Insert(x: UpstreamPrice, t: seq<UpstreamPrice>): seq<UpstreamPrice> {
    var p := InsertPos(x, t);
    t[..p] + [x] + t[p..]
  }

  /**
   * `priceList.sort((a, b) => a.startNumber - b.startNumber)`: a stable sort,
   * as `Array.prototype.sort` is.
   */
  function SortByStart(s: seq<UpstreamPrice>): (r: seq<UpstreamPrice>)
    ensures |r| == |s|
  {
    if s == [] then [] else Insert(s[|s| - 1], SortByStart(s[..|s| - 1]))
  }

  /** In a sorted list, the entries before the insertion point are at most `x`, and those from it on are larger. */
  lemma InsertPosSplits(x: UpstreamPrice, t: seq<UpstreamPrice>)
    requires SortedByStart(t)
    ensures var p := InsertPos(x, t);
      && (forall i | 0 <= i < |t[..p]| :: t[..p][i].startNumber <= x.startNumber)
      && (forall j | 0 <= j < |t[p..]| :: x.startNumber < t[p..][j].startNumber)
  {
    var p := InsertPos(x, t);
    forall j | 0 <= j < |t[p..]| ensures x.startNumber < t[p..][j].startNumber {
      assert t[p..][j] == t[p + j];
      if j > 0 { assert t[p].startNumber <= t[p + j].startNumber; }
    }
  }

  lemma SortedSlices(t: seq<UpstreamPrice>, p: nat)
    requires SortedByStart(t) && p <= |t|
    ensures SortedByStart(t[..p]) && SortedByStart(t[p..])
  {
    assert forall i | 0 <= i < p :: t[..p][i] == t[i];
    assert forall i | 0 <= i < |t| - p :: t[p..][i] == t[p + i];
  }

  /** A sorted list, an entry no smaller than it, and a sorted list of larger entries, make a sorted list. */
  lemma SortedAround(a: seq<UpstreamPrice>, x: UpstreamPrice, b: seq<UpstreamPrice>)
    requires SortedByStart(a) && SortedByStart(b)
    requires forall i | 0 <= i < |a| :: a[i].startNumber <= x.startNumber
    requires forall j | 0 <= j < |b| :: x.startNumber < b[j].startNumber
    ensures SortedByStart(a + [x] + b)
  {
    var r := a + [x] + b;
    var n := |a|;
    forall i, j | 0 <= i < j < |r| ensures r[i].startNumber <= r[j].startNumber {
      if j < n {
        assert r[i] == a[i] && r[j] == a[j];
      } else if j == n {
        assert r[i] == a[i] && r[j] == x;
      } else if i < n {
        assert r[i] == a[i] && r[j] == b[j - n - 1];
      } else if i == n {
        assert r[i] == x && r[j] == b[j - n - 1];
      } else {
        assert r[i] == b[i - n - 1] && r[j] == b[j - n - 1];
      }
    }
  }

  lemma InsertKeepsSorted(x: UpstreamPrice, t: seq<UpstreamPrice>)
    requires SortedByStart(t)
    ensures SortedByStart(Insert(x, t))
  {
    var p := InsertPos(x, t);
    SortedSlices(t, p);
    InsertPosSplits(x, t);
    SortedAround(t[..p], x, t[p..]);
  }

  lemma InsertAddsOne(x: UpstreamPrice, t: seq<UpstreamPrice>)
    ensures multiset(Insert(x, t)) == multiset(t) + multiset{x}
  {
    var p := InsertPos(x, t);
    var left, right := t[..p], t[p..];
    assert t == left + right;
    assert Insert(x, t) == left + [x] + right;
  }

  /** The entries with a given start, before the insertion point, at it, and after it. */
  lemma WithStartOfInsert(x: UpstreamPrice, t: seq<UpstreamPrice>, key: int)
    ensures var p := InsertPos(x, t);
      && WithStart(Insert(x, t), key) ==
           WithStart(t[..p], key) + (if x.startNumber == key then [x] else []) + WithStart(t[p..], key)
      && WithStart(t, key) == WithStart(t[..p], key) + WithStart(t[p..], key)
  {
    var p := InsertPos(x, t);
    var left, right := t[..p], t[p..];
    assert t == left + right;
    WithStartAppend(left, right, key);
    WithStartAppend(left + [x], right, key);
    WithStartAppend(left, [x], key);
    assert WithStart([x], key) == WithStart([], key) + (if x.startNumber == key then [x] else []) by {
      assert [x][..0] == [];
    }
  }

  /** Inserting `x` puts it after every entry with the same start. */
  lemma InsertKeepsOrderOfEqualStarts(x: UpstreamPrice, t: seq<UpstreamPrice>, key: int)
    requires SortedByStart(t)
    ensures WithStart(Insert(x, t), key) ==
              WithStart(t, key) + (if x.startNumber == key then [x] else [])
  {
    var p := InsertPos(x, t);
    var left, right := t[..p], t[p..];
    WithStartOfInsert(x, t, key);
    InsertPosSplits(x, t);
    if x.startNumber == key {
      WithStartOfLarger(right, key);
      assert WithStart(Insert(x, t), key) == WithStart(left, key) + [x] + [];
    } else if x.startNumber < key {
      WithStartNone(left, key);
      assert WithStart(Insert(x, t), key) == [] + [] + WithStart(right, key);
    } else {
      WithStartNone(right, key);
      assert WithStart(Insert(x, t), key) == WithStart(left, key) + [] + [];
    }
  }

  lemma {:induction false} WithStartNone(s: seq<UpstreamPrice>, key: int)
    requires forall i | 0 <= i < |s| :: s[i].startNumber != key
    ensures WithStart(s, key) == []
  {
    if s != [] {
      WithStartNone(s[..|s| - 1], key);
    }
  }

  /**
   * The sort orders the entries by start, is a permutation of its input, and
   * is stable: entries with equal starts keep their input order.
   */
  lemma {:induction false} SortByStartCorrect(s: seq<UpstreamPrice>)
    ensures SortedByStart(SortByStart(s))
    ensures multiset(SortByStart(s)) == multiset(s)
    ensures forall key :: WithStart(SortByStart(s), key) == WithStart(s, key)
  {
    if s != [] {
      var init := s[..|s| - 1];
      var x := s[|s| - 1];
      SortByStartCorrect(init);
      InsertKeepsSorted(x, SortByStart(init));
      InsertAddsOne(x, SortByStart(init));
      assert s == init + [x];
      forall key ensures WithStart(SortByStart(s), key) == WithStart(s, key) {
        InsertKeepsOrderOfEqualStarts(x, SortByStart(init), key);
      }
    }
  }

  /** The tier for one upstream entry. */
  function Tier(p: UpstreamPrice): PriceTier {
    PriceTier(p.startNumber, if p.endNumber == -1 then None else Some(p.endNumber), p.productPrice)
  }

  /** Each entry turned into a tier, in order. */
  function Tiers(s: seq<UpstreamPrice>): (r: seq<PriceTier>)
    ensures |r| == |s| && forall i | 0 <= i < |s| :: r[i] == Tier(s[i])
  {
    seq(|s|, i requires 0 <= i < |s| => Tier(s[i]))
  }

  /** Reordering the entries reorders the tiers: the same tiers occur. */
  lemma TiersOfPermutation(s: seq<UpstreamPrice>, t: seq<UpstreamPrice>)
    requires multiset(s) == multiset(t)
    ensures forall i | 0 <= i < |t| :: exists j | 0 <= j < |s| :: Tiers(t)[i] == Tier(s[j])
    ensures forall j | 0 <= j < |s| :: Tier(s[j]) in Tiers(t)
  {
    forall i | 0 <= i < |t| ensures exists j | 0 <= j < |s| :: Tiers(t)[i] == Tier(s[j]) {
      assert t[i] in multiset(s);
      var j :| 0 <= j < |s| && s[j] == t[i];
    }
    forall j | 0 <= j < |s| ensures Tier(s[j]) in Tiers(t) {
      assert s[j] in multiset(t);
      var i :| 0 <= i < |t| && t[i] == s[j];
      assert Tiers(t)[i] == Tier(s[j]);
    }
  }

  lemma TiersAppend(a: seq<UpstreamPrice>, b: seq<UpstreamPrice>)
    ensures Tiers(a + b) == Tiers(a) + Tiers(b)
  {
    assert forall i | 0 <= i < |a + b| :: (a + b)[i] == if i < |a| then a[i] else b[i - |a|];
  }

  /** Sorting reorders the tiers and keeps every one of them, repeats included. */
  lemma {:induction false} TiersOfSortByStart(s: seq<UpstreamPrice>)
    ensures multiset(Tiers(SortByStart(s))) == multiset(Tiers(s))
  {
    if s != [] {
      var init := s[..|s| - 1];
      var x := s[|s| - 1];
      var t := SortByStart(init);
      var p := InsertPos(x, t);
      TiersOfSortByStart(init);
      assert s == init + [x];
      TiersAppend(init, [x]);
      assert t == t[..p] + t[p..];
      TiersAppend(t[..p], t[p..]);
      TiersAppend(t[..p], [x]);
      TiersAppend(t[..p] + [x], t[p..]);
    }
  }

  /** The tiers of `ts` whose minimum quantity is `key`, in their order in `ts`. */
  function WithMin(ts: seq<PriceTier>, key: int): (r: seq<PriceTier>)
    ensures |r| <= |ts|
  {
    if ts == [] then []
    else WithMin(ts[..|ts| - 1], key) + (if ts[|ts| - 1].minQty == key then [ts[|ts| - 1]] else [])
  }

  /** Picking the tiers of one start commutes with turning entries into tiers. */
  lemma {:induction false} TiersWithStart(s: seq<UpstreamPrice>, key: int)
    ensures WithMin(Tiers(s), key) == Tiers(WithStart(s, key))
  {
    if s != [] {
      var init := s[..|s| - 1];
      var x := s[|s| - 1];
      TiersWithStart(init, key);
      assert Tiers(s)[..|s| - 1] == Tiers(init);
      TiersAppend(WithStart(init, key), if x.startNumber == key then [x] else []);
    }
  }

  /** `parsePrices`: no list gives no tiers; otherwise the entries sorted by start, each turned into a tier. */
  function ParsePrices(priceList: Option<seq<UpstreamPrice>>): (r: seq<PriceTier>)
    ensures priceList.None? ==> r == []
    ensures priceList.Some? ==> |r| == |priceList.value|
    ensures forall i, j | 0 <= i < j < |r| :: r[i].minQty <= r[j].minQty
    ensures forall i | 0 <= i < |r| :: exists j | 0 <= j < |priceList.value| :: r[i] == Tier(priceList.value[j])
    ensures priceList.Some? ==> forall j | 0 <= j < |priceList.value| :: Tier(priceList.value[j]) in r
    ensures priceList.Some? ==> multiset(r) == multiset(Tiers(priceList.value))
    ensures priceList.Some? ==> forall key :: WithMin(r, key) == Tiers(WithStart(priceList.value, key))
  {
    if priceList.None? || priceList.value == [] then []
    else
      var s := priceList.value;
      SortByStartCorrect(s);
      TiersOfPermutation(s, SortByStart(s));
      TiersOfSortByStart(s);
      assert forall key :: WithMin(Tiers(SortByStart(s)), key) == Tiers(WithStart(s, key)) by {
        forall key ensures WithMin(Tiers(SortByStart(s)), key) == Tiers(WithStart(s, key)) {
          TiersWithStart(SortByStart(s), key);
        }
      }
      Tiers(SortByStart(s))
  }

  /** An upstream tier list given out of order is returned sorted, with -1 read as an open end. */
  lemma ParsePricesExample()
    ensures ParsePrices(Some([UpstreamPrice(100, -1, 0.05), UpstreamPrice(1, 99, 0.10)]))
            == [PriceTier(1, Some(99), 0.10), PriceTier(100, None, 0.05)]
  {
    var a, b := UpstreamPrice(100, -1, 0.05), UpstreamPrice(1, 99, 0.10);
    assert [a, b][..1] == [a];
    assert SortByStart([a]) == [a];
    assert InsertPos(b, [a]) == 0;
    assert SortByStart([a, b]) == [b, a];
  }

  // ----- the endpoint -----

  /** One upstream search hit; an empty string stands for a missing or empty field. */
  datatype Component = Component(
    componentCode: string,
    componentBrandEn: string,
    componentModelEn: string,
    describe: string,
    componentSpecificationEn: string,
    stockCount: Option<int>,
    componentPrices: Option<seq<UpstreamPrice>>,
    dataManualUrl: string,
    minImageAccessId: string,
    lcscGoodsUrl: string)

  /** The upstream search answer; `list` is absent when any object on the path to it is. */
  datatype SearchResponse = SearchResponse(code: int, list: Option<seq<Component>>)

  /** What the upstream exchange produced: a thrown value, a non-2xx status, or a parsed body. */
  datatype Upstream = UpstreamThrew(thrown: Thrown) | UpstreamNotOk(status: nat) | UpstreamBody(data: SearchResponse)

  datatype ReplyBody = ErrorReply(error: string) | PartReply(info: PartInfo)

  datatype Reply = Reply(status: nat, body: ReplyBody)

  const ImageBase := "https://assets.jlcpcb.com/attachments/"
  const ProductBase := "https://www.lcsc.com/product-detail/"

  /** The normalised part record for an upstream hit, with the endpoint's defaults for missing fields. */
  function Normalise(c: Component): (info: PartInfo)
    ensures info.partNumber == c.componentCode
    ensures info.manufacturer == (if c.componentBrandEn == "" then "Unknown" else c.componentBrandEn)
    ensures info.mpn == c.componentModelEn && info.description == c.describe
    ensures info.package == c.componentSpecificationEn && info.datasheet == c.dataManualUrl
    ensures info.stock == (if c.stockCount.Some? then c.stockCount.value else 0)
    ensures info.prices == ParsePrices(c.componentPrices)
    ensures info.imageUrl == (if c.minImageAccessId == "" then "" else ImageBase + c.minImageAccessId)
    ensures info.url == (if c.lcscGoodsUrl == "" then ProductBase + c.componentCode + ".html" else c.lcscGoodsUrl)
  {
    PartInfo(
      c.componentCode,
      if c.componentBrandEn != "" then c.componentBrandEn else "Unknown",
      c.componentModelEn,
      c.describe,
      c.componentSpecificationEn,
      if c.stockCount.Some? then c.stockCount.value else 0,
      ParsePrices(c.componentPrices),
      c.dataManualUrl,
      if c.minImageAccessId != "" then ImageBase + c.minImageAccessId else "",
      if c.lcscGoodsUrl != "" then c.lcscGoodsUrl else ProductBase + c.componentCode + ".html")
  }

  /** The normalised record always names a manufacturer and a product page, and its tiers are ordered. */
  lemma NormaliseDefaults(c: Component)
    ensures Normalise(c).manufacturer != [] && Normalise(c).url != []
    ensures forall i, j | 0 <= i < j < |Normalise(c).prices| ::
              Normalise(c).prices[i].minQty <= Normalise(c).prices[j].minQty
  {
  }

  const PartRequired := "Part number is required"
  const InvalidFormat := "Invalid LCSC part number format"
  const NotFound := "Part not found"

  /** The message of the 500 answer for a value caught by the handler. */
  function CaughtMessage(t: Thrown): string {
    match t
    case Raised(e) => e.message
    case RaisedValue(_) => "Failed to fetch part info"
  }

  function ExactMatch(part: string): Component -> bool {
    (c: Component) => c.componentCode == part
  }

  /**
   * `GET /api/lcsc?part=...`. `part` is the query parameter (absent or not);
   * `upstream` is what the upstream search produced for it. The upstream is
   * consulted only for a well-formed part number.
   */
  function HandleGet(part: Option<string>, upstream: Upstream): (r: Reply)
    ensures r.status in {200, 400, 404, 500}
    ensures r.status == 200 <==> r.body.PartReply?
    ensures (part.None? || part.value == "") ==> r == Reply(400, ErrorReply(PartRequired))
    ensures part.Some? && part.value != "" && !IsPartNumber(part.value) ==> r == Reply(400, ErrorReply(InvalidFormat))
    ensures r.status == 400 <==> part.None? || !IsPartNumber(part.value)
    ensures part.Some? && IsPartNumber(part.value) && upstream.UpstreamThrew? ==>
              r == Reply(500, ErrorReply(CaughtMessage(upstream.thrown)))
    ensures part.Some? && IsPartNumber(part.value) && upstream.UpstreamNotOk? ==>
              r == Reply(500, ErrorReply("JLCPCB API error: " + NatToString(upstream.status)))
    ensures r.status == 404 ==> r.body == ErrorReply(NotFound)
    ensures r.status == 200 ==>
              && part.Some? && IsPartNumber(part.value) && upstream.UpstreamBody?
              && upstream.data.code == 200 && upstream.data.list.Some?
              && (exists k | 0 <= k < |upstream.data.list.value| ::
                    && upstream.data.list.value[k].componentCode == part.value
                    && (forall j | 0 <= j < k :: upstream.data.list.value[j].componentCode != part.value)
                    && r.body.info == Normalise(upstream.data.list.value[k]))
              && r.body.info.partNumber == part.value
    ensures part.Some? && IsPartNumber(part.value) && upstream.UpstreamBody? && upstream.data.code == 200
            && upstream.data.list.Some?
            && (exists k | 0 <= k < |upstream.data.list.value| :: upstream.data.list.value[k].componentCode == part.value)
            ==> r.status == 200
    ensures part.Some? && IsPartNumber(part.value) && upstream.UpstreamBody?
            && !(upstream.data.code == 200 && upstream.data.list.Some?
                 && exists k | 0 <= k < |upstream.data.list.value| :: upstream.data.list.value[k].componentCode == part.value)
            ==> r == Reply(404, ErrorReply(NotFound))
    ensures r.status == 500 ==> part.Some? && IsPartNumber(part.value) && !upstream.UpstreamBody?
  {
    if part.None? || part.value == "" then Reply(400, ErrorReply(PartRequired))
    else if !IsPartNumber(part.value) then Reply(400, ErrorReply(InvalidFormat))
    else match upstream
      case UpstreamThrew(t) => Reply(500, ErrorReply(CaughtMessage(t)))
      case UpstreamNotOk(status) => Reply(500, ErrorReply("JLCPCB API error: " + NatToString(status)))
      case UpstreamBody(data) =>
        if data.code != 200 || data.list.None? || data.list.value == [] then Reply(404, ErrorReply(NotFound))
        else match FindIndex(data.list.value, ExactMatch(part.value))
          case None => Reply(404, ErrorReply(NotFound))
          case Some(k) => Reply(200, PartReply(Normalise(data.list.value[k])))
  }

  /** What the client reads from the endpoint's reply. */
  function AsResponse(r: Reply): LcscApi.Response {
    match r.body
    case PartReply(info) => LcscApi.PartJson(info)
    case ErrorReply(e) => LcscApi.NotOk(r.status, LcscApi.ErrorJson(if e == "" then None else Some(e)))
  }

  /**
   * The client over the endpoint: a lookup succeeds exactly when the endpoint
   * found the exact part, and then the record is for that very part number;
   * an identifier that starts with 'C' but is not `C` plus digits (fetchable
   * for the store, rejected here) always fails with the format error.
   */
  lemma ClientOverEndpoint(part: string, upstream: Upstream)
    ensures var o := LcscApi.FetchLcscPart(AsResponse(HandleGet(Some(part), upstream)));
      && (o.Fetched? <==> HandleGet(Some(part), upstream).status == 200)
      && (o.Fetched? ==> o.info.partNumber == part && IsPartNumber(part))
      && (StartsWithC(part) && !IsPartNumber(part) ==>
            o == Failed(Raised(LcscApiError(InvalidFormat, 400))))
  {
    var r := HandleGet(Some(part), upstream);
    LcscApi.FetchLcscPartOutcome(AsResponse(r));
    if StartsWithC(part) && !IsPartNumber(part) {
      assert AsResponse(r) == LcscApi.NotOk(400, LcscApi.ErrorJson(Some(InvalidFormat)));
    }
  }
}
