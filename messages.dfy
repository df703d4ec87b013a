/** The texts the tracker writes into its status and result labels and
    into its desktop notifications. */
module Messages {
  import opened Wrappers
  import Decimal

  const ITEM_NOT_FOUND := "Item not found! Select a valid item."
  const NO_THRESHOLD := "Enter at least a Low or High price."
  const INVALID_PRICES := "Invalid price values!"
  const PRICE_UNAVAILABLE := "Price data unavailable."
  const MONITORING_STARTED := "Monitoring started..."
  const MONITORING_STOPPED := "Monitoring stopped."

  /** The result label: the item name, then the low and high prices with
      thousands separators (`WithCommas`, whose meaning `WithCommasSpec`
      states). */
  function ResultText(name: string, low: int, high: int): (r: string)
    ensures |r| >= |name| + 6 && r[..|name| + 6] == name + "\nLow: "
    ensures |r| >= 6 && r[|r| - 6..] == " coins"
    ensures exists a, b {:trigger Decimal.StripCommas(a), Decimal.StripCommas(b)} ::
      && r == name + "\nLow: " + a + " coins\nHigh: " + b + " coins"
      && a == Decimal.WithCommas(low) && b == Decimal.WithCommas(high)
      && Decimal.ParseInt(Decimal.StripCommas(a)) == Some(low)
      && Decimal.ParseInt(Decimal.StripCommas(b)) == Some(high)
  {
    var a, b := Decimal.WithCommas(low), Decimal.WithCommas(high);
    Decimal.WithCommasParses(low);
    Decimal.WithCommasParses(high);
    assert Decimal.ParseInt(Decimal.StripCommas(a)) == Some(low);
    assert Decimal.ParseInt(Decimal.StripCommas(b)) == Some(high);
    name + "\nLow: " + a + " coins\nHigh: " + b + " coins"
  }

  /** Two joins of a space-free head and a tail opening with a space agree
      only when heads and tails agree. */
  lemma SplitAtSpace(w1: string, t1: string, w2: string, t2: string)
    requires w1 + t1 == w2 + t2
    requires forall i :: 0 <= i < |w1| ==> w1[i] != ' '
    requires forall i :: 0 <= i < |w2| ==> w2[i] != ' '
    requires |t1| > 0 && t1[0] == ' ' && |t2| > 0 && t2[0] == ' '
    ensures w1 == w2 && t1 == t2
  {
    var x := w1 + t1;
    assert x[|w1|] == ' ' && x[|w2|] == ' ';
    assert w1 == x[..|w1|] && w2 == x[..|w2|];
    assert t1 == x[|w1|..] && t2 == x[|w2|..];
  }

  /** The part of the result label after the name and "\nLow: ". */
  function PricesPart(low: int, high: int): string {
    Decimal.WithCommas(low) + (" coins\nHigh: " + Decimal.WithCommas(high) + " coins")
  }

  lemma ResultTextSplit(name: string, low: int, high: int)
    ensures ResultText(name, low, high) == (name + "\nLow: ") + PricesPart(low, high)
  {
  }

  lemma PricesPartDeterminesPrices(a: int, b: int, c: int, d: int)
    requires PricesPart(a, b) == PricesPart(c, d)
    ensures a == c && b == d
  {
    var m, e := " coins\nHigh: ", " coins";
    var wa, wb, wc, wd := Decimal.WithCommas(a), Decimal.WithCommas(b), Decimal.WithCommas(c), Decimal.WithCommas(d);
    Decimal.WithCommasHasNoSpace(a);
    Decimal.WithCommasHasNoSpace(c);
    SplitAtSpace(wa, m + wb + e, wc, m + wd + e);
    Decimal.WithCommasInjective(a, c);
    assert wb + e == wd + e by {
      assert wb + e == (m + wb + e)[|m|..];
      assert wd + e == (m + wd + e)[|m|..];
    }
    Decimal.WithCommasHasNoSpace(b);
    Decimal.WithCommasHasNoSpace(d);
    SplitAtSpace(wb, e, wd, e);
    Decimal.WithCommasInjective(b, d);
  }

  /** The result label determines both prices. */
  lemma ResultTextDeterminesPrices(name: string, a: int, b: int, c: int, d: int)
    requires ResultText(name, a, b) == ResultText(name, c, d)
    ensures a == c && b == d
  {
    var p := name + "\nLow: ";
    ResultTextSplit(name, a, b);
    ResultTextSplit(name, c, d);
    var r := ResultText(name, a, b);
    assert PricesPart(a, b) == r[|p|..];
    assert PricesPart(c, d) == r[|p|..];
    PricesPartDeterminesPrices(a, b, c, d);
  }

  /** The notification title names the item. */
  function AlertTitle(name: string): (r: string)
    ensures |r| == |name| + 12 && r[..|name|] == name
    ensures r[|name|..] == " Price Alert"
  {
    name + " Price Alert"
  }

  /** The low-price notification, from which the price can be read back. */
  function LowAlertText(low: int): (r: string)
    ensures |r| >= 23 && r[..17] == "Low Price Alert: " && r[|r| - 6..] == " coins"
    ensures r[17..|r| - 6] == Decimal.WithCommas(low)
    ensures Decimal.ParseInt(Decimal.StripCommas(r[17..|r| - 6])) == Some(low)
  {
    var r := "Low Price Alert: " + Decimal.WithCommas(low) + " coins";
    assert r[17..|r| - 6] == Decimal.WithCommas(low);
    Decimal.WithCommasParses(low);
    r
  }

  /** The high-price notification, from which the price can be read back. */
  function HighAlertText(high: int): (r: string)
    ensures |r| >= 24 && r[..18] == "High Price Alert: " && r[|r| - 6..] == " coins"
    ensures r[18..|r| - 6] == Decimal.WithCommas(high)
    ensures Decimal.ParseInt(Decimal.StripCommas(r[18..|r| - 6])) == Some(high)
  {
    var r := "High Price Alert: " + Decimal.WithCommas(high) + " coins";
    assert r[18..|r| - 6] == Decimal.WithCommas(high);
    Decimal.WithCommasParses(high);
    r
  }
}
