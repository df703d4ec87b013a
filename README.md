# GE price tracker — a Dafny model of its decision logic

The tracker is a desktop tool for the Old School RuneScape Grand Exchange.
At launch it loads the catalog of item names and ids. It filters that catalog
as the user types. It shows the latest low and high prices of the chosen
item. It can also poll those prices and raise a desktop notification when a
low or high threshold is reached. This project models what the tracker
decides, not how it draws, and proves what those decisions promise:

- `Catalog` models the catalog built by `fetch_item_data`, as an
  insertion-ordered Python dict with last-write-wins values. It also models
  name resolution through `item_dict.get`, where the falsy id 0 counts as
  "not found".
- `Search` models `search_items`: code-point string order, `sorted` as an
  insertion sort, and the case-insensitive substring filter.
- `Prices` models `fetch_prices`, the quote lookup under the key
  `str(item_id)`, and the one-shot `get_price`.
- `Validation` models the ordered rejections at the head of `monitor_price`.
- `Monitor` models the monitoring state machine as pure transitions:
  validation and start, one pass of the `while monitoring:` loop, and
  `stop_monitoring`. Its alerts are inclusive and independent.
- `App.Tracker` is a class holding that state as fields. Its handler methods
  are each proved equal to the matching transition. Each also keeps the class
  invariant `Valid()`: the buttons follow the `monitoring` flag.
- `Decimal` models `str(n)`, a simplified `int(text)`, and the `{n:,}`
  thousands-separator format. `Text` holds the string helpers: ASCII
  lower-casing, `in`, and the icon title.

HTTP replies are parameters: a status code plus the parsed JSON. A
notification is an event appended to a log. The 60-second sleep and the
thread are replaced by explicit passes of the loop, and a Stop click can
come between any two passes.

Where the program's behaviour is easy to misread, the model follows the
program:
- A threshold may be negative, because `int("-5")` is accepted.
- A failed request is only a non-200 status. An exception from
  `requests.get` is not caught.
- A pass that finds no data ends the loop but leaves `monitoring` set. Start
  stays disabled and Stop stays enabled.
- The Start handler itself does not refuse a second start. Only the disabled
  button prevents one, and `Monitor.Apply` models that.

## Model

| member | source | states |
|---|---|---|
| `Catalog.FetchItemData` | price-tracker.py:34-39 | the result is a well-formed dict; status 200 gives the dict built from the response's records (`FromRecords`, whose keys and values `CatalogKeys` and `CatalogLastWins` state), any other status the empty catalog |
| `Catalog.CatalogKeys` | price-tracker.py:38 | a name is a catalog key exactly when some record of the response carries it |
| `Catalog.CatalogLastWins` | price-tracker.py:38 | a name maps to the id of the last record carrying it |
| `Catalog.ResolveItem` | price-tracker.py:143-146 | a name resolves exactly when it is a key with a non-zero id, and then to that id; id 0 is "not found" |
| `Catalog.ResolveFetched` | price-tracker.py:170-171 | in a fetched catalog, a name whose last record has a non-zero id resolves to that id |
| `Text.LowerIsLowered` | price-tracker.py:49 | lower-casing keeps the length, turns each capital 'A'..'Z' into the small letter at the same place in 'a'..'z', keeps every other character, and is idempotent |
| `Text.MatchIgnoresCase` | price-tracker.py:49-51 | whether a name matches the query does not change when ASCII letters of either change case |
| `Text.ContainsIff` | price-tracker.py:51 | the substring scan succeeds exactly when the query occurs at some position |
| `Text.ContainsEmpty` | price-tracker.py:51 | the empty query occurs in every name |
| `Text.IconTitleSpec` | price-tracker.py:78 | the icon title has the name's length, no space, every space replaced by '_' and every other character kept |
| `Search.StrLessTotal` | price-tracker.py:51 | the string order used by `sorted` is total: equal, less or greater |
| `Search.StrLessTransitive` | price-tracker.py:51 | the string order is transitive |
| `Search.InsertSpec` | price-tracker.py:51 | inserting adds exactly one occurrence, keeps sortedness and keeps distinctness for a new name |
| `Search.SortSpec` | price-tracker.py:51 | `sorted` returns an ascending permutation of its input |
| `Search.SortNoDup` | price-tracker.py:51 | `sorted` of duplicate-free names (dict keys) is duplicate-free |
| `Search.Filter` | price-tracker.py:51 | the comprehension keeps exactly the names whose lower-cased form contains the query |
| `Search.FilterKeepsOrder` | price-tracker.py:51 | filtering keeps an ascending list ascending and a duplicate-free list duplicate-free |
| `Search.SearchItemsSpec` | price-tracker.py:49-53 | the drop-down is strictly ascending and holds exactly the catalog names containing the query case-insensitively |
| `Search.SearchEmptyQuery` | price-tracker.py:307 | with an empty query the drop-down lists every catalog name |
| `Decimal.Digits` | price-tracker.py:149 | the decimal digits of a number are non-empty digits without a leading zero, "0" for zero |
| `Decimal.ParseIntRoundTrip` | price-tracker.py:184-185 | `int(str(n)) == n` for every integer (see "## Left out" for the 4300-digit limit) |
| `Decimal.WithCommasSpec` | price-tracker.py:159 | deleting the commas of `{n:,}` gives `str(n)`; '-' leads exactly for negatives; the first group has 1-3 digits and each later group 3 |
| `Decimal.WithCommasParses` | price-tracker.py:208 | a displayed price with its commas deleted parses back to the price |
| `Decimal.WithCommasInjective` | price-tracker.py:208 | distinct prices are displayed differently |
| `Decimal.WithCommasHasNoSpace` | price-tracker.py:159 | `{n:,}` holds no space or line break |
| `Messages.ResultText` | price-tracker.py:159 | the result label is the item name, "\nLow: ", the low price as `{low_price:,}` (`WithCommas`, reading back as the low price), " coins\nHigh: ", the high price likewise, and " coins" |
| `Messages.ResultTextDeterminesPrices` | price-tracker.py:208 | the result label for an item determines both its low and its high price |
| `Messages.AlertTitle` | price-tracker.py:212 | the notification title is the item name followed by " Price Alert" |
| `Messages.LowAlertText` | price-tracker.py:213 | the low-alert message reads "Low Price Alert: ", the price as `{low_price:,}` (`WithCommas`), " coins", and the price parses back from it |
| `Messages.HighAlertText` | price-tracker.py:218 | the high-alert message reads "High Price Alert: ", the price as `{high_price:,}` (`WithCommas`), " coins", and the price parses back from it |
| `Prices.FetchPrices` | price-tracker.py:60-63 | the table is the reply's `data` on status 200 and empty otherwise |
| `Prices.PriceKeyInjective` | price-tracker.py:149 | distinct ids have distinct price-table keys |
| `Prices.QuoteFor` | price-tracker.py:149-155 | the quote is missing exactly when `str(item_id)` is not a key (the emptiness test adds nothing), and is otherwise that entry |
| `Prices.GetPrice` | price-tracker.py:142-159 | an unresolved name shows "Item not found!" whatever the price reply; a missing entry shows "Price data unavailable."; otherwise the result shows the name and both prices |
| `Prices.GetPriceOfCatalogItem` | price-tracker.py:142-159 | catalog, then resolve, then price table: a catalog item present in the table shows exactly its own quote |
| `Validation.ParseThreshold` | price-tracker.py:184-189 | an empty entry is unset, a number is that number, anything else is a ValueError |
| `Validation.ValidateRequest` | price-tracker.py:169-189 | rejections in order: unknown item, then both entries empty, then an unparsable entry; an accepted session has the resolved id and at least one threshold |
| `Validation.ZeroIsAThreshold` | price-tracker.py:178-185 | "0" is accepted as a threshold and is not taken as empty |
| `Monitor.Alerts` | price-tracker.py:210-219 | a low alert iff the low threshold is set and low <= it; a high alert iff the high threshold is set and high >= it; no other notification; at most two, low first |
| `Monitor.Start` | price-tracker.py:169-194 | a rejection only writes its message; acceptance sets the flag, disables Start, enables Stop and starts the loop; no price request either way |
| `Monitor.Tick` | price-tracker.py:197-221 | a cleared flag ends the loop without a request; missing data ends it with the unavailable status and the flag still set; a quote shows one update followed by its alerts |
| `Monitor.Stop` | price-tracker.py:231-240 | clears the flag, enables Start, disables Stop, shows "Monitoring stopped."; the result label, loop, request count and events are unchanged |
| `Monitor.ButtonsFollowFlagAlways` | price-tracker.py:191-240 | in every run from launch, Start is enabled exactly when monitoring is off and Stop exactly when it is on |
| `Monitor.PollsWhileStoppedAreSilent` | price-tracker.py:197 | with the flag off, passes make no request and show nothing, and the first ends the loop |
| `Monitor.NothingAfterStop` | price-tracker.py:236-237 | after a stop that falls between passes, no update or alert is shown and no request is made |
| `Monitor.IdleLoopStaysIdle` | price-tracker.py:199-201 | a loop that has exited stays exited |
| `Monitor.StuckUntilStop` | price-tracker.py:199-201 | after a data-unavailable exit, until Stop is pressed no pass of the loop and no Start click makes a request or shows anything: the flag stays set and Start stays disabled |
| `Monitor.UnavailableLeavesFlagSet` | price-tracker.py:199-201 | a pass with no data ends the loop with the flag still set and Start still disabled |
| `Monitor.OneLowAlert` | price-tracker.py:211-219 | thresholds 100/200 and quote 90/150 raise exactly the low alert |
| `Monitor.LowAlertsOnLaterTicks` | price-tracker.py:211-214 | low threshold 100 and lows 150, 100, 50 raise no alert, then one, then one |
| `App.Tracker.constructor` | price-tracker.py:42 | the catalog is the fetched one, the drop-down lists it all, Start is enabled and Stop disabled |
| `App.Tracker.SearchItems` | price-tracker.py:44-53 | the drop-down becomes the search result |
| `App.Tracker.GetPrice` | price-tracker.py:136-159 | writes the label `get_price` writes, and makes a request only for a resolved name |
| `App.Tracker.MonitorPrice` | price-tracker.py:161-194 | accepted exactly when validation passes; the new state is `Monitor.Start` of the old |
| `App.Tracker.Poll` | price-tracker.py:197-221 | the new state is `Monitor.Tick` of the old |
| `App.Tracker.StopMonitoring` | price-tracker.py:231-240 | the new state is `Monitor.Stop` of the old |
| `App.Tracker.RunLoop` | price-tracker.py:196-221 | runs passes until the loop ends or the replies run out; the state is that of `Monitor.RunPolls` on the replies used |

## Left out

- GUI construction and rendering are left out (lines 24-27 and 246-310). Only the label texts, the button enablement and the drop-down values are kept. The label colours are left out.
- HTTP requests are left out. Each reply is a parameter: its status and parsed JSON. An exception raised by `requests.get` is not modelled. It would abort the launch or end the monitoring thread.
- A reply whose JSON lacks `data`, or has a null or non-integer `low`/`high`, is not modelled. Prices are integers here.
- The thread of `start_monitoring` and the `time.sleep(60)` are not modelled. The loop is a sequence of passes, and Stop can fall between any two of them.
- Monitor.NothingAfterStop: a pass is atomic here. In the program, a Stop that lands after a pass has tested the flag (line 197) does not prevent that pass from completing: its price request (line 198), its result label (line 208) and its notifications (lines 211-219) still happen after Stop.
- Only one loop exists in this model. The program can run two: Stop, then a new Start while the old loop sleeps, lets the old thread wake with the flag set and keep polling. The model replaces the old loop instead.
- The notification timeout of 5 seconds is not modelled. A notification is an event with its title and message.
- `update_item_icon` is left out apart from its title transform. That covers the wiki request, the page JSON, Pillow decoding, the LANCZOS resize and the debug print.
- Validation.ParseThreshold: accepts only an optional sign followed by ASCII digits. Python's `int` also strips surrounding whitespace and accepts underscores and non-ASCII digits. It also raises ValueError on a digit run longer than 4300 digits (CPython's integer string conversion limit), so such an entry shows "Invalid price values!" in the program but is accepted by the model.
- Decimal.ParseIntRoundTrip: the same 4300-digit limit makes `str(n)` and `f"{n:,}"` raise for an integer of more than 4300 digits; the model's `IntToString` and `WithCommas` are total, so the round trip and the formatting lemmas cover integers the program cannot print.
- Search.SearchItemsSpec: lower-casing covers ASCII letters only, not Unicode `str.lower`.
