/** The head of `monitor_price`: the checks made on the selected item and
    the two alert entries before monitoring may start. */
module Validation {
  import opened Wrappers
  import Decimal
  import Catalog
  import Messages

  /** Alert thresholds; None is an empty entry. */
  datatype Thresholds = Thresholds(low: Option<int>, high: Option<int>)

  /** What a monitoring loop polls for. */
  datatype Session = Session(itemName: string, itemId: int, thresholds: Thresholds)

  datatype Rejection = ItemNotFound | NoThreshold | InvalidThreshold

  function RejectionText(e: Rejection): string {
    match e
    case ItemNotFound => Messages.ITEM_NOT_FOUND
    case NoThreshold => Messages.NO_THRESHOLD
    case InvalidThreshold => Messages.INVALID_PRICES
  }

  /** `int(text) if text else None`: Some(None) for an empty entry,
      Some(Some(v)) for a number, None for a ValueError. */
  function ParseThreshold(text: string): (r: Option<Option<int>>)
    ensures text == "" ==> r == Some(None)
    ensures text != "" ==> (r.None? <==> Decimal.ParseInt(text).None?)
    ensures text != "" && Decimal.ParseInt(text).Some? ==> r == Some(Decimal.ParseInt(text))
  {
    if text == "" then Some(None)
    else match Decimal.ParseInt(text)
      case None => None
      case Some(v) => Some(Some(v))
  }

  /** The three rejections of `monitor_price`, in the order it makes them:
      unknown item, then both entries empty, then an entry that does not
      parse. */
  function ValidateRequest(d: Catalog.ItemDict, name: string, lowText: string, highText: string)
    : (r: Result<Session, Rejection>)
    ensures r == Err(ItemNotFound) <==> Catalog.ResolveItem(d, name).None?
    ensures r == Err(NoThreshold) <==>
      Catalog.ResolveItem(d, name).Some? && lowText == "" && highText == ""
    ensures r == Err(InvalidThreshold) <==>
      && Catalog.ResolveItem(d, name).Some?
      && (lowText != "" || highText != "")
      && ((lowText != "" && Decimal.ParseInt(lowText).None?) || (highText != "" && Decimal.ParseInt(highText).None?))
    ensures r.Ok? ==>
      && r.value.itemName == name
      && Catalog.ResolveItem(d, name) == Some(r.value.itemId)
      && (r.value.thresholds.low.Some? || r.value.thresholds.high.Some?)
      && r.value.thresholds.low == (if lowText == "" then None else Decimal.ParseInt(lowText))
      && r.value.thresholds.high == (if highText == "" then None else Decimal.ParseInt(highText))
  {
    match Catalog.ResolveItem(d, name)
    case None => Err(ItemNotFound)
    case Some(id) =>
      if lowText == "" && highText == "" then Err(NoThreshold)
      else
        match (ParseThreshold(lowText), ParseThreshold(highText))
        case (Some(low), Some(high)) => Ok(Session(name, id, Thresholds(low, high)))
        case _ => Err(InvalidThreshold)
  }

  /** "0" is a threshold, not an empty entry. */
  lemma ZeroIsAThreshold(d: Catalog.ItemDict, name: string)
    requires Catalog.ResolveItem(d, name).Some?
    ensures ValidateRequest(d, name, "0", "").Ok?
    ensures ValidateRequest(d, name, "0", "").value.thresholds == Thresholds(Some(0), None)
  {
  }
}
