/// The metadata record stored in every entry directory's `.bookshelf.metadata`
/// file, and the outcomes shared by the listing and the add command.
module Records {

  datatype Option<+T> = None | Some(value: T)

  datatype Result<+T> = Ok(value: T) | Err(error: Error)

  /** The ways the listing, the traversal and the add command end abnormally. */
  datatype Error =
    | ShelfNotFound                            // iterdir on a shelf that does not exist
    | NotADirectory                            // iterdir on a shelf that is a plain file
    | MetadataUnreadable                       // the metadata file cannot be opened or parsed
    | NoPriceHistory                           // price_history[-1] on an empty history
    | FoilAndEtched                            // add called with both --foil and --etched
    | NoMatchingPrinting(labels: seq<string>)  // no printing label starts with the cardset
    | AmbiguousPrinting(labels: seq<string>)   // several printing labels start with it
    | NoPrintings                              // the printing search has no usable data
    | PriceNotANumber                          // the price key is present but null

  /** One price_history element: {'date': ..., 'price': ..., 'currency': ...}. */
  datatype PricePoint = PricePoint(date: string, price: nat, currency: string)

  /** The record an entry directory holds; `finish` is None when JSON null. */
  datatype Metadata = Metadata(
    bookshelfType: string,
    version: string,
    name: string,
    oracleId: string,
    scryfallId: string,
    setCode: string,
    collectorNumber: string,
    finish: Option<string>,
    priceHistory: seq<PricePoint>)

  /** `metadata['price_history'][-1]['price']`, failing on an empty history. */
  function LatestPrice(m: Metadata): (r: Result<nat>)
    ensures r.Ok? <==> |m.priceHistory| > 0
    ensures r.Err? ==> r.error == NoPriceHistory
    ensures r.Ok? ==> r.value == m.priceHistory[|m.priceHistory| - 1].price
  {
    if |m.priceHistory| == 0 then Err(NoPriceHistory)
    else Ok(m.priceHistory[|m.priceHistory| - 1].price)
  }

  /** Python truthiness of an optional string: None and "" are false. */
  predicate Truthy(s: Option<string>)
  {
    s.Some? && s.value != ""
  }
}
