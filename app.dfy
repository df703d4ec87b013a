/** The tracker's handlers over the state they update in place: the
    catalog loaded at launch, the drop-down list, the `monitoring` flag,
    the two buttons, the two labels, the polling loop, the price requests
    made and the events shown. */
module App {
  import Catalog
  import Search
  import Prices
  import Monitor
  import Validation
  import Messages

  class Tracker {
    const catalog: Catalog.ItemDict
    var dropdown: seq<string>
    var monitoring: bool
    var startEnabled: bool
    var stopEnabled: bool
    var status: string
    var result: string
    var loop: Monitor.Loop
    var fetches: nat
    var events: seq<Monitor.Event>

    /** The monitoring part of the state. */
    function Snapshot(): Monitor.State
      reads this
    {
      Monitor.State(monitoring, startEnabled, stopEnabled, status, result, loop, fetches, events)
    }

    /** The buttons reflect the flag: Start is enabled exactly when
        monitoring is off, Stop exactly when it is on. */
    ghost predicate Valid()
      reads this
    {
      Monitor.ButtonsFollowFlag(Snapshot())
    }

    /** Launch: `item_dict = fetch_item_data()`, the window with Stop
        disabled, and the drop-down filled by `search_items()` with an
        empty query. */
    constructor (mapping: Catalog.MappingResponse)
      ensures catalog == Catalog.FetchItemData(mapping)
      ensures dropdown == Search.SearchItems(catalog, "")
      ensures Snapshot() == Monitor.INITIAL
      ensures Valid()
    {
      catalog := Catalog.FetchItemData(mapping);
      dropdown := Search.SearchItems(Catalog.FetchItemData(mapping), "");
      monitoring, startEnabled, stopEnabled := false, true, false;
      status, result := "", "";
      loop, fetches, events := Monitor.Idle, 0, [];
    }

    /** `search_items`: the drop-down shows the matching names. */
    method SearchItems(query: string)
      requires Valid()
      modifies this`dropdown
      ensures Valid()
      ensures dropdown == Search.SearchItems(catalog, query)
    {
      dropdown := Search.SearchItems(catalog, query);
    }

    /** `get_price`: writes the status or the result label, and makes a
        price request only for a name that resolves. */
    method GetPrice(name: string, resp: Prices.PriceResponse)
      requires Valid()
      modifies this`status, this`result, this`fetches
      ensures Valid()
      ensures match Prices.GetPrice(catalog, name, resp)
        case StatusShown(text) => status == text && result == old(result)
        case ResultShown(text) => result == text && status == old(status)
      ensures fetches == old(fetches) + (if Catalog.ResolveItem(catalog, name).Some? then 1 else 0)
    {
      var view := Prices.GetPrice(catalog, name, resp);
      if Catalog.ResolveItem(catalog, name).Some? {
        fetches := fetches + 1;
      }
      match view
      case StatusShown(text) => status := text;
      case ResultShown(text) => result := text;
    }

    /** The head of `monitor_price`: validation and, on acceptance, the
        flag, the buttons and the start of the loop. */
    method MonitorPrice(name: string, lowText: string, highText: string) returns (accepted: bool)
      requires Valid()
      modifies this
      ensures Valid()
      ensures accepted == Validation.ValidateRequest(catalog, name, lowText, highText).Ok?
      ensures Snapshot() == Monitor.Start(old(Snapshot()), catalog, name, lowText, highText)
      ensures dropdown == old(dropdown)
    {
      var next := Monitor.Start(Snapshot(), catalog, name, lowText, highText);
      accepted := Validation.ValidateRequest(catalog, name, lowText, highText).Ok?;
      monitoring, startEnabled, stopEnabled := next.monitoring, next.startEnabled, next.stopEnabled;
      status, loop := next.status, next.loop;
    }

    /** One pass of the `while monitoring:` loop. */
    method Poll(resp: Prices.PriceResponse)
      requires Valid()
      modifies this
      ensures Valid()
      ensures Snapshot() == Monitor.Tick(old(Snapshot()), resp)
      ensures dropdown == old(dropdown)
    {
      var next := Monitor.Tick(Snapshot(), resp);
      status, result, loop := next.status, next.result, next.loop;
      fetches, events := next.fetches, next.events;
    }

    /** `stop_monitoring`. */
    method StopMonitoring()
      requires Valid()
      modifies this
      ensures Valid()
      ensures Snapshot() == Monitor.Stop(old(Snapshot()))
      ensures dropdown == old(dropdown)
    {
      monitoring := false;
      startEnabled := true;
      stopEnabled := false;
      status := Messages.MONITORING_STOPPED;
    }

    /** The `while monitoring:` loop fed one reply per pass, run until it
        ends or the replies run out; `passes` is how many it used. */
    method RunLoop(feed: seq<Prices.PriceResponse>) returns (passes: nat)
      requires Valid()
      modifies this
      ensures Valid()
      ensures passes <= |feed|
      ensures Snapshot() == Monitor.RunPolls(old(Snapshot()), feed[..passes])
      ensures passes < |feed| ==> loop.Idle?
      ensures dropdown == old(dropdown)
    {
      passes := 0;
      while passes < |feed| && loop.Polling?
        invariant passes <= |feed|
        invariant Snapshot() == Monitor.RunPolls(old(Snapshot()), feed[..passes])
        invariant dropdown == old(dropdown)
        invariant Valid()
      {
        assert feed[..passes + 1][..passes] == feed[..passes];
        Poll(feed[passes]);
        passes := passes + 1;
      }
    }
  }
}
