/** The item catalog: `fetch_item_data` turns the mapping endpoint's list
    of `{name, id}` records into the `item_dict` name-to-id dictionary,
    and `item_dict.get(name)` with a falsiness test resolves a name. */
module Catalog {
  import opened Wrappers

  datatype ItemRecord = ItemRecord(name: string, id: int)

  /** A reply of the mapping endpoint: HTTP status and the parsed list. */
  datatype MappingResponse = MappingResponse(status: int, items: seq<ItemRecord>)

  /** A Python dict from names to ids: the keys in insertion order and
      the mapping itself. */
  datatype ItemDict = ItemDict(names: seq<string>, ids: map<string, int>)

  ghost predicate Valid(d: ItemDict) {
    && (forall i, j :: 0 <= i < j < |d.names| ==> d.names[i] != d.names[j])
    && (forall n :: n in d.names <==> n in d.ids)
  }

  const EMPTY := ItemDict([], map[])

  /** `d[name] = id`: a new key goes to the end of the key order, an
      existing key keeps its place and takes the new value. */
  function Put(d: ItemDict, name: string, id: int): (r: ItemDict)
    requires Valid(d)
    ensures Valid(r)
  {
    if name in d.ids then ItemDict(d.names, d.ids[name := id])
    else ItemDict(d.names + [name], d.ids[name := id])
  }

  /** `{item["name"]: item["id"] for item in items}`. */
  function FromRecords(items: seq<ItemRecord>): (r: ItemDict)
    ensures Valid(r)
  {
    if items == [] then EMPTY
    else Put(FromRecords(items[..|items| - 1]), items[|items| - 1].name, items[|items| - 1].id)
  }

  /** `fetch_item_data`: the comprehension on status 200, otherwise `{}`. */
  function FetchItemData(resp: MappingResponse): (r: ItemDict)
    ensures Valid(r)
    ensures resp.status == 200 ==> r == FromRecords(resp.items)
    ensures resp.status != 200 ==> r == EMPTY
  {
    if resp.status == 200 then FromRecords(resp.items) else EMPTY
  }

  /** The keys of the catalog are exactly the names in the response. */
  lemma {:induction false} CatalogKeys(items: seq<ItemRecord>, n: string)
    ensures n in FromRecords(items).ids <==> exists k :: 0 <= k < |items| && items[k].name == n
  {
    if items != [] {
      var init := items[..|items| - 1];
      CatalogKeys(init, n);
      if n in FromRecords(init).ids {
        var k :| 0 <= k < |init| && init[k].name == n;
        assert items[k].name == n;
      }
      if k :| 0 <= k < |items| && items[k].name == n {
        if k < |init| {
          assert init[k].name == n;
        }
      }
    }
  }

  /** The last record carrying a name decides its id (last write wins). */
  lemma {:induction false} CatalogLastWins(items: seq<ItemRecord>, k: nat)
    requires k < |items|
    requires forall j :: k < j < |items| ==> items[j].name != items[k].name
    ensures items[k].name in FromRecords(items).ids
    ensures FromRecords(items).ids[items[k].name] == items[k].id
  {
    if k < |items| - 1 {
      var init := items[..|items| - 1];
      assert init[k] == items[k];
      CatalogLastWins(init, k);
    }
  }

  /** `item_dict.get(name)` followed by `if not item_id`: a missing name
      and a name mapped to the falsy id 0 are both "not found". */
  function ResolveItem(d: ItemDict, name: string): (r: Option<int>)
    ensures r.None? <==> name !in d.ids || d.ids[name] == 0
    ensures r.Some? ==> r.value == d.ids[name] && r.value != 0
  {
    if name in d.ids && d.ids[name] != 0 then Some(d.ids[name]) else None
  }

  /** End to end: a name whose last record has a non-zero id resolves
      to that id in the fetched catalog. */
  lemma ResolveFetched(resp: MappingResponse, k: nat)
    requires resp.status == 200 && k < |resp.items|
    requires forall j :: k < j < |resp.items| ==> resp.items[j].name != resp.items[k].name
    requires resp.items[k].id != 0
    ensures ResolveItem(FetchItemData(resp), resp.items[k].name) == Some(resp.items[k].id)
  {
    CatalogLastWins(resp.items, k);
  }
}
