/**
 * The BOM row, price tier, part info and fetch status types
 * (src/lib/bom/types.ts), together with the two identifier tests the code
 * uses and the error values that flow through the fetch path.
 */
module BomTypes {
  import opened Utils
  import opened Text

  /** `FetchStatus`. */
  datatype Status = Pending | Loading | Success | Error | Skipped

  /** One quantity band; `maxQty == None` is an open upper end. */
  datatype PriceTier = PriceTier(minQty: int, maxQty: Option<int>, price: real)

  /** `LcscPartInfo`: the normalised distributor record. */
  datatype PartInfo = PartInfo(
    partNumber: string,
    manufacturer: string,
    mpn: string,
    description: string,
    package: string,
    stock: int,
    prices: seq<PriceTier>,
    datasheet: string,
    imageUrl: string,
    url: string)

  /** `BomRowOriginal`: one line of the uploaded BOM. */
  datatype OriginalRow = OriginalRow(
    comment: string,
    designator: string,
    footprint: string,
    lcsc: string,
    quantity: int)

  /** `BomRowExtended`: a BOM line with its id and enrichment state. */
  datatype Row = Row(
    id: string,
    comment: string,
    designator: string,
    footprint: string,
    lcsc: string,
    quantity: int,
    lcscInfo: Option<PartInfo>,
    fetchStatus: Status,
    errorMessage: Option<string>,
    unitPrice: Option<real>,
    totalPrice: Option<real>)

  /** `lcsc && lcsc.startsWith('C')`: the test the store and row creation use. */
  predicate StartsWithC(s: string) {
    |s| > 0 && s[0] == 'C'
  }

  /** `/^C\d+$/`: the test the validator and the proxy endpoint use. */
  predicate IsPartNumber(s: string) {
    |s| >= 2 && s[0] == 'C' && AllDigits(s[1..])
  }

  /** An `Error` object: a plain one, or an `LcscApiError` carrying the HTTP status. */
  datatype ErrorValue = PlainError(message: string) | LcscApiError(message: string, statusCode: nat)

  /** What a `catch` receives: an `Error`, or any other value (with its `String(e)` text). */
  datatype Thrown = Raised(error: ErrorValue) | RaisedValue(text: string)

  /** The outcome of one awaited `fetchLcscPart` call. */
  datatype Outcome = Fetched(info: PartInfo) | Failed(thrown: Thrown)
}
