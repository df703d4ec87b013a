/** The monitoring state machine of `monitor_price` and `stop_monitoring`:
    the `monitoring` flag, the enablement of the Start and Stop buttons,
    the status and result labels, whether a polling loop is running, the
    number of price requests made and the events shown to the user. */
module Monitor {
  import opened Wrappers
  import Catalog
  import Prices
  import Validation
  import Messages

  /** What the user sees appear: a new result label, or a notification. */
  datatype Event = PriceShown(text: string) | Notified(title: string, message: string)

  /** Whether a `monitor_price` loop is running, and for which session. */
  datatype Loop = Idle | Polling(session: Validation.Session)

  datatype State = State(
    monitoring: bool,
    startEnabled: bool,
    stopEnabled: bool,
    status: string,
    result: string,
    loop: Loop,
    fetches: nat,
    events: seq<Event>)

  /** At launch: Start enabled, Stop disabled, both labels empty. */
  const INITIAL := State(false, true, false, "", "", Idle, 0, [])

  function LowAlertEvent(s: Validation.Session, q: Prices.Quote): Event {
    Notified(Messages.AlertTitle(s.itemName), Messages.LowAlertText(q.low))
  }

  function HighAlertEvent(s: Validation.Session, q: Prices.Quote): Event {
    Notified(Messages.AlertTitle(s.itemName), Messages.HighAlertText(q.high))
  }

  /** The notifications of one tick. Both bounds are inclusive, the two
      checks are independent, and the low alert comes first. */
  function Alerts(s: Validation.Session, q: Prices.Quote): (es: seq<Event>)
    ensures |es| <= 2
    ensures LowAlertEvent(s, q) in es <==>
      s.thresholds.low.Some? && q.low <= s.thresholds.low.value
    ensures HighAlertEvent(s, q) in es <==>
      s.thresholds.high.Some? && q.high >= s.thresholds.high.value
    ensures forall e :: e in es ==> e == LowAlertEvent(s, q) || e == HighAlertEvent(s, q)
    ensures |es| == 2 ==> es == [LowAlertEvent(s, q), HighAlertEvent(s, q)]
  {
    var lowEvent, highEvent := LowAlertEvent(s, q), HighAlertEvent(s, q);
    var t := s.thresholds;
    var lowFires := t.low.Some? && q.low <= t.low.value;
    var highFires := t.high.Some? && q.high >= t.high.value;
    AlertEventsDiffer(s, q);
    Choose(lowEvent, highEvent, lowFires, highFires);
    (if lowFires then [lowEvent] else []) + (if highFires then [highEvent] else [])
  }

  /** Keeping each of two distinct values or not. */
  lemma Choose<T>(x: T, y: T, keepX: bool, keepY: bool)
    requires x != y
    ensures var es := (if keepX then [x] else []) + (if keepY then [y] else []);
      && |es| <= 2
      && (x in es <==> keepX) && (y in es <==> keepY)
      && (forall e :: e in es ==> e == x || e == y)
      && (|es| == 2 ==> es == [x, y])
  {
  }

  lemma AlertEventsDiffer(s: Validation.Session, q: Prices.Quote)
    ensures LowAlertEvent(s, q) != HighAlertEvent(s, q)
  {
    assert Messages.LowAlertText(q.low)[0] == 'L';
    assert Messages.HighAlertText(q.high)[0] == 'H';
  }

  /** `monitor_price` up to its loop. A rejection only writes its message
      to the status label; acceptance sets the flag, swaps the buttons and
      starts the loop. Neither makes a price request. */
  function Start(st: State, d: Catalog.ItemDict, name: string, lowText: string, highText: string)
    : (r: State)
    ensures r.fetches == st.fetches && r.events == st.events && r.result == st.result
    ensures match Validation.ValidateRequest(d, name, lowText, highText)
      case Err(e) => r == st.(status := Validation.RejectionText(e))
      case Ok(s) =>
        && r.monitoring && !r.startEnabled && r.stopEnabled
        && r.status == Messages.MONITORING_STARTED
        && r.loop == Polling(s)
  {
    match Validation.ValidateRequest(d, name, lowText, highText)
    case Err(e) => st.(status := Validation.RejectionText(e))
    case Ok(s) =>
      st.(monitoring := true, startEnabled := false, stopEnabled := true,
          status := Messages.MONITORING_STARTED, loop := Polling(s))
  }

  /** One pass of `while monitoring:` with the reply its price request
      would get. A loop that finds the flag cleared ends without a request;
      otherwise one request is made, and missing data ends the loop with
      the unavailable status, leaving the flag and the buttons as they
      were, while a quote shows one price update and then its alerts. */
  function Tick(st: State, resp: Prices.PriceResponse): (r: State)
    ensures r.monitoring == st.monitoring
    ensures r.startEnabled == st.startEnabled && r.stopEnabled == st.stopEnabled
    ensures st.loop.Idle? ==> r == st
    ensures st.loop.Polling? && !st.monitoring ==> r == st.(loop := Idle)
    ensures st.loop.Polling? && st.monitoring ==>
      var s := st.loop.session;
      && r.fetches == st.fetches + 1
      && match Prices.QuoteFor(Prices.FetchPrices(resp), s.itemId)
         case None =>
           r == st.(fetches := r.fetches, status := Messages.PRICE_UNAVAILABLE, loop := Idle)
         case Some(q) =>
           && r.loop == st.loop && r.status == st.status
           && r.result == Messages.ResultText(s.itemName, q.low, q.high)
           && r.events == st.events + [PriceShown(r.result)] + Alerts(s, q)
  {
    match st.loop
    case Idle => st
    case Polling(s) =>
      if !st.monitoring then st.(loop := Idle)
      else
        var table := Prices.FetchPrices(resp);
        var key := Prices.PriceKey(s.itemId);
        if table == map[] || key !in table then
          st.(fetches := st.fetches + 1, status := Messages.PRICE_UNAVAILABLE, loop := Idle)
        else
          var q := table[key];
          var text := Messages.ResultText(s.itemName, q.low, q.high);
          st.(fetches := st.fetches + 1, result := text,
              events := st.events + [PriceShown(text)] + Alerts(s, q))
  }

  /** `stop_monitoring`: clears the flag, enables Start, disables Stop. A
      running loop ends at its next check of the flag. */
  function Stop(st: State): (r: State)
    ensures !r.monitoring && r.startEnabled && !r.stopEnabled
    ensures r.status == Messages.MONITORING_STOPPED
    ensures r.result == st.result && r.loop == st.loop
    ensures r.fetches == st.fetches && r.events == st.events
  {
    st.(monitoring := false, startEnabled := true, stopEnabled := false,
        status := Messages.MONITORING_STOPPED)
  }

  /** Successive passes of the loop, one per reply. */
  function RunPolls(st: State, feed: seq<Prices.PriceResponse>): State {
    if feed == [] then st else Tick(RunPolls(st, feed[..|feed| - 1]), feed[|feed| - 1])
  }

  /** What can happen next: a pass of the loop, or a click on a button. */
  datatype Step =
    | Poll(resp: Prices.PriceResponse)
    | PressStart(name: string, lowText: string, highText: string)
    | PressStop

  /** A click on a disabled button does nothing. */
  function Apply(d: Catalog.ItemDict, st: State, step: Step): State {
    match step
    case Poll(resp) => Tick(st, resp)
    case PressStart(name, lowText, highText) =>
      if st.startEnabled then Start(st, d, name, lowText, highText) else st
    case PressStop => if st.stopEnabled then Stop(st) else st
  }

  function Run(d: Catalog.ItemDict, st: State, steps: seq<Step>): State {
    if steps == [] then st else Apply(d, Run(d, st, steps[..|steps| - 1]), steps[|steps| - 1])
  }

  /** The buttons always reflect the flag: Start is enabled exactly when
      monitoring is off, Stop exactly when it is on. */
  ghost predicate ButtonsFollowFlag(st: State) {
    st.startEnabled == !st.monitoring && st.stopEnabled == st.monitoring
  }

  lemma {:induction false} ButtonsFollowFlagAlways(d: Catalog.ItemDict, steps: seq<Step>)
    ensures ButtonsFollowFlag(Run(d, INITIAL, steps))
  {
    if steps != [] {
      ButtonsFollowFlagAlways(d, steps[..|steps| - 1]);
    }
  }

  /** Once the flag is off, passes of the loop make no request and show
      nothing; the first one ends the loop. */
  lemma {:induction false} PollsWhileStoppedAreSilent(st: State, feed: seq<Prices.PriceResponse>)
    requires !st.monitoring
    ensures RunPolls(st, feed).events == st.events
    ensures RunPolls(st, feed).fetches == st.fetches
    ensures !RunPolls(st, feed).monitoring
    ensures feed != [] ==> RunPolls(st, feed).loop.Idle?
  {
    if feed != [] {
      PollsWhileStoppedAreSilent(st, feed[..|feed| - 1]);
    }
  }

  /** After `stop_monitoring`, no update or alert appears and no request
      is made, even if the loop was still running. */
  lemma NothingAfterStop(st: State, feed: seq<Prices.PriceResponse>)
    ensures RunPolls(Stop(st), feed).events == st.events
    ensures RunPolls(Stop(st), feed).fetches == st.fetches
  {
    PollsWhileStoppedAreSilent(Stop(st), feed);
  }

  /** A loop that has ended stays ended under further passes. */
  lemma {:induction false} IdleLoopStaysIdle(st: State, feed: seq<Prices.PriceResponse>)
    requires st.loop.Idle?
    ensures RunPolls(st, feed) == st
  {
    if feed != [] {
      IdleLoopStaysIdle(st, feed[..|feed| - 1]);
    }
  }

  /** After missing data ended the loop, the flag is still on and Start is
      still disabled: until the user presses Stop, no pass of the loop and
      no Start click makes a request or shows anything. (Get Price and
      typing in the search box are not steps here and still work.) */
  lemma {:induction false} StuckUntilStop(d: Catalog.ItemDict, st: State, steps: seq<Step>)
    requires ButtonsFollowFlag(st) && st.monitoring && st.loop.Idle?
    requires forall i :: 0 <= i < |steps| ==> !steps[i].PressStop?
    ensures Run(d, st, steps).monitoring && !Run(d, st, steps).startEnabled
    ensures Run(d, st, steps).loop.Idle?
    ensures Run(d, st, steps).events == st.events
    ensures Run(d, st, steps).fetches == st.fetches
  {
    if steps != [] {
      StuckUntilStop(d, st, steps[..|steps| - 1]);
    }
  }

  /** A pass that finds no data for the item ends the loop but leaves the
      session armed; the result above shows how long that lasts. */
  lemma UnavailableLeavesFlagSet(st: State, resp: Prices.PriceResponse)
    requires ButtonsFollowFlag(st) && st.monitoring && st.loop.Polling?
    requires Prices.PriceKey(st.loop.session.itemId) !in Prices.FetchPrices(resp)
    ensures Tick(st, resp).monitoring && !Tick(st, resp).startEnabled
    ensures Tick(st, resp).loop.Idle? && Tick(st, resp).events == st.events
    ensures Tick(st, resp).status == Messages.PRICE_UNAVAILABLE
  {
  }

  /** Thresholds low 100 and high 200 with a quote of 90 and 150: exactly
      the low alert. */
  lemma OneLowAlert(name: string, id: int)
    ensures
      var s := Validation.Session(name, id, Validation.Thresholds(Some(100), Some(200)));
      Alerts(s, Prices.Quote(90, 150)) == [LowAlertEvent(s, Prices.Quote(90, 150))]
  {
  }

  /** Low threshold 100 alone, low prices 150, 100, 50 on successive
      ticks: no alert on the first, one on each of the others. */
  lemma LowAlertsOnLaterTicks(name: string, id: int, high: int)
    ensures
      var s := Validation.Session(name, id, Validation.Thresholds(Some(100), None));
      && Alerts(s, Prices.Quote(150, high)) == []
      && Alerts(s, Prices.Quote(100, high)) == [LowAlertEvent(s, Prices.Quote(100, high))]
      && Alerts(s, Prices.Quote(50, high)) == [LowAlertEvent(s, Prices.Quote(50, high))]
  {
    var s := Validation.Session(name, id, Validation.Thresholds(Some(100), None));
    assert Alerts(s, Prices.Quote(150, high)) == [];
    assert Alerts(s, Prices.Quote(100, high)) == [LowAlertEvent(s, Prices.Quote(100, high))];
    assert Alerts(s, Prices.Quote(50, high)) == [LowAlertEvent(s, Prices.Quote(50, high))];
  }
}
