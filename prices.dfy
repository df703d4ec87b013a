/** The latest-price table (`fetch_prices`), the lookup of one item's
    quote under the key `str(item_id)`, and the one-shot `get_price`. */
module Prices {
  import opened Wrappers
  import Decimal
  import Catalog
  import Messages

  datatype Quote = Quote(low: int, high: int)

  /** A reply of the latest-price endpoint: HTTP status and the `data`
      object, keyed by the decimal text of an item id. */
  datatype PriceResponse = PriceResponse(status: int, data: map<string, Quote>)

  /** `fetch_prices`: the `data` field on status 200, otherwise `{}`. */
  function FetchPrices(resp: PriceResponse): (table: map<string, Quote>)
    ensures resp.status != 200 ==> table == map[]
    ensures resp.status == 200 ==> table == resp.data
  {
    if resp.status == 200 then resp.data else map[]
  }

  /** `str(item_id)`, the key of an item in the price table. */
  function PriceKey(id: int): string {
    Decimal.IntToString(id)
  }

  /** Distinct ids never share a price-table entry. */
  lemma PriceKeyInjective(a: int, b: int)
    requires PriceKey(a) == PriceKey(b)
    ensures a == b
  {
    Decimal.ParseIntRoundTrip(a);
    Decimal.ParseIntRoundTrip(b);
  }

  /** `if not price_data or str(item_id) not in price_data`: the quote is
      missing exactly when the key is absent; the emptiness test adds
      nothing, since a present key makes the table non-empty. */
  function QuoteFor(table: map<string, Quote>, id: int): (q: Option<Quote>)
    ensures q.None? <==> PriceKey(id) !in table
    ensures q.Some? ==> q.value == table[PriceKey(id)]
  {
    if table == map[] || PriceKey(id) !in table then None else Some(table[PriceKey(id)])
  }

  /** What `get_price` writes: either the status label (an error) or the
      result label (the quote). */
  datatype PriceView = StatusShown(status: string) | ResultShown(result: string)

  /** `get_price` for the typed name, given the reply the price request
      would get. An unresolved name is reported without consulting the
      reply, so no price request is made for it. */
  function GetPrice(d: Catalog.ItemDict, name: string, resp: PriceResponse): (v: PriceView)
    ensures Catalog.ResolveItem(d, name).None? ==> v == StatusShown(Messages.ITEM_NOT_FOUND)
    ensures Catalog.ResolveItem(d, name).Some? ==>
      var id := Catalog.ResolveItem(d, name).value;
      match QuoteFor(FetchPrices(resp), id)
      case None => v == StatusShown(Messages.PRICE_UNAVAILABLE)
      case Some(q) => v == ResultShown(Messages.ResultText(name, q.low, q.high))
  {
    match Catalog.ResolveItem(d, name)
    case None => StatusShown(Messages.ITEM_NOT_FOUND)
    case Some(id) =>
      var table := FetchPrices(resp);
      if table == map[] || PriceKey(id) !in table then StatusShown(Messages.PRICE_UNAVAILABLE)
      else
        var q := table[PriceKey(id)];
        ResultShown(Messages.ResultText(name, q.low, q.high))
  }

  /** End to end: fetch the catalog, resolve a name, fetch the table. For
      a name whose last record has a non-zero id present in the table, the
      result shows exactly that id's quote. */
  lemma GetPriceOfCatalogItem(mapping: Catalog.MappingResponse, k: nat, resp: PriceResponse)
    requires mapping.status == 200 && k < |mapping.items|
    requires forall j :: k < j < |mapping.items| ==> mapping.items[j].name != mapping.items[k].name
    requires mapping.items[k].id != 0
    requires resp.status == 200 && PriceKey(mapping.items[k].id) in resp.data
    ensures
      var item := mapping.items[k];
      var q := resp.data[PriceKey(item.id)];
      GetPrice(Catalog.FetchItemData(mapping), item.name, resp)
        == ResultShown(Messages.ResultText(item.name, q.low, q.high))
  {
    Catalog.ResolveFetched(mapping, k);
  }
}
