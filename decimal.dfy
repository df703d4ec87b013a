/** Decimal text of integers: Python's `str(n)` (the price-table key),
    a simplified `int(text)` (the alert thresholds) and the `{n:,}`
    thousands-separator format used for displayed prices. */
module Decimal {
  import opened Wrappers

  predicate IsDigit(c: char) {
    '0' <= c <= '9'
  }

  predicate AllDigits(s: string) {
    forall i :: 0 <= i < |s| ==> IsDigit(s[i])
  }

  function DigitValue(c: char): nat
    requires IsDigit(c)
  {
    c as int - '0' as int
  }

  /** The character of one decimal digit; DigitValue undoes it. */
  function DigitChar(d: nat): (c: char)
    requires d < 10
    ensures IsDigit(c) && DigitValue(c) == d
  {
    ('0' as int + d) as char
  }

  /** The decimal digits of a natural number, most significant first,
      with no leading zero. */
  function Digits(n: nat): (s: string)
    ensures |s| >= 1 && AllDigits(s)
    ensures n > 0 ==> s[0] != '0'
    ensures n == 0 ==> s == "0"
  {
    if n < 10 then [DigitChar(n)] else Digits(n / 10) + [DigitChar(n % 10)]
  }

  /** The number a string of digits denotes. */
  function DigitsValue(s: string): nat
    requires AllDigits(s)
  {
    if s == [] then 0 else DigitsValue(s[..|s| - 1]) * 10 + DigitValue(s[|s| - 1])
  }

  /** Python's `str(n)` for an int: an optional '-' and the digits. */
  function IntToString(n: int): string {
    if n < 0 then "-" + Digits(-n) else Digits(n)
  }

  /** Python's `int(text)` restricted to an optional sign followed by
      one or more ASCII digits; anything else is a ValueError (None). */
  function ParseInt(s: string): Option<int> {
    if |s| > 0 && (s[0] == '-' || s[0] == '+') then
      var body := s[1..];
      if |body| > 0 && AllDigits(body) then
        var v: int := DigitsValue(body);
        Some(if s[0] == '-' then -v else v)
      else None
    else if |s| > 0 && AllDigits(s) then Some(DigitsValue(s))
    else None
  }

  lemma {:induction false} DigitsRoundTrip(n: nat)
    ensures DigitsValue(Digits(n)) == n
  {
    if n >= 10 {
      DigitsRoundTrip(n / 10);
      var s := Digits(n);
      assert s[..|s| - 1] == Digits(n / 10);
    }
  }

  /** Parsing what `str` prints gives the number back. */
  lemma ParseIntRoundTrip(n: int)
    ensures ParseInt(IntToString(n)) == Some(n)
  {
    var s := IntToString(n);
    if n < 0 {
      DigitsRoundTrip(-n);
      assert s[0] == '-' && s[1..] == Digits(-n);
    } else {
      DigitsRoundTrip(n);
      assert s == Digits(n) && IsDigit(s[0]);
    }
  }

  /** Inserts a comma before every complete group of three digits,
      counting from the right. */
  function Group(ds: string): string
    decreases |ds|
  {
    if |ds| <= 3 then ds else Group(ds[..|ds| - 3]) + "," + ds[|ds| - 3..]
  }

  /** Python's `f"{n:,}"` for an int. */
  function WithCommas(n: int): string {
    if n < 0 then "-" + Group(Digits(-n)) else Group(Digits(n))
  }

  /** The string with every comma deleted. */
  function StripCommas(s: string): string {
    if s == [] then []
    else StripCommas(s[..|s| - 1]) + (if s[|s| - 1] == ',' then [] else [s[|s| - 1]])
  }

  /** Commas stand exactly where a multiple of four characters remains
      to the end, so the first group holds one to three digits, every
      later group exactly three, and every other character is a digit. */
  ghost predicate WellGrouped(r: string) {
    && |r| % 4 != 0
    && (forall i :: 0 <= i < |r| ==> (r[i] == ',' <==> (|r| - i) % 4 == 0))
    && (forall i :: 0 <= i < |r| && r[i] != ',' ==> IsDigit(r[i]))
  }

  lemma {:induction false} StripCommasAppend(a: string, b: string)
    ensures StripCommas(a + b) == StripCommas(a) + StripCommas(b)
    decreases |b|
  {
    if b != [] {
      var b' := b[..|b| - 1];
      assert (a + b)[..|a + b| - 1] == a + b';
      StripCommasAppend(a, b');
    } else {
      assert a + b == a;
    }
  }

  lemma {:induction false} StripCommasDigits(s: string)
    requires AllDigits(s)
    ensures StripCommas(s) == s
    decreases |s|
  {
    if s != [] {
      StripCommasDigits(s[..|s| - 1]);
    }
  }

  lemma {:induction false} GroupStrip(ds: string)
    requires AllDigits(ds)
    ensures StripCommas(Group(ds)) == ds
    decreases |ds|
  {
    if |ds| <= 3 {
      StripCommasDigits(ds);
    } else {
      var p, t := ds[..|ds| - 3], ds[|ds| - 3..];
      assert AllDigits(p) by {
        forall i | 0 <= i < |p| ensures IsDigit(p[i]) { assert p[i] == ds[i]; }
      }
      assert AllDigits(t) by {
        forall i | 0 <= i < |t| ensures IsDigit(t[i]) { assert t[i] == ds[|ds| - 3 + i]; }
      }
      var g := Group(p);
      assert Group(ds) == (g + ",") + t;
      GroupStrip(p);
      StripCommasAppend(g + ",", t);
      StripCommasAppend(g, ",");
      assert StripCommas(",") == [] by {
        assert ","[..0] == [];
      }
      StripCommasDigits(t);
      calc {
        StripCommas(Group(ds));
        StripCommas(g + ",") + StripCommas(t);
        StripCommas(g) + StripCommas(",") + t;
        p + t;
        { assert p + t == ds; }
        ds;
      }
    }
  }

  lemma ShiftByFour(a: int)
    ensures (a + 4) % 4 == a % 4
  {
  }

  /** Appending a comma and three digits to a well-grouped string keeps it
      well grouped. */
  lemma GroupStep(g: string, t: string)
    requires WellGrouped(g) && |t| == 3 && AllDigits(t)
    ensures WellGrouped(g + "," + t)
  {
    var r := g + "," + t;
    assert |r| == |g| + 4;
    ShiftByFour(|g|);
    forall i | 0 <= i < |r|
      ensures r[i] == ',' <==> (|r| - i) % 4 == 0
      ensures r[i] != ',' ==> IsDigit(r[i])
    {
      if i < |g| {
        assert r[i] == g[i];
        ShiftByFour(|g| - i);
      } else if i > |g| {
        assert r[i] == t[i - |g| - 1];
        assert 1 <= |r| - i <= 3;
      }
    }
  }

  lemma {:induction false} GroupWellGrouped(ds: string)
    requires |ds| >= 1 && AllDigits(ds)
    ensures WellGrouped(Group(ds))
    decreases |ds|
  {
    if |ds| > 3 {
      var p, t := ds[..|ds| - 3], ds[|ds| - 3..];
      GroupWellGrouped(p);
      GroupStep(Group(p), t);
    } else {
      assert 1 <= |ds| <= 3;
      forall i | 0 <= i < |ds| ensures ds[i] == ',' <==> (|ds| - i) % 4 == 0 {
        assert 1 <= |ds| - i <= 3;
      }
    }
  }

  /** A well-grouped string starts with a digit. */
  lemma WellGroupedStartsWithDigit(r: string)
    requires WellGrouped(r)
    ensures |r| > 0 && IsDigit(r[0])
  {
    assert |r| != 0;
    assert (|r| - 0) % 4 != 0;
  }

  /** `{n:,}`: deleting the commas gives `str(n)`; after an optional
      leading '-' (present exactly for negative n) the digits are grouped
      in threes from the right. */
  lemma WithCommasSpec(n: int)
    ensures StripCommas(WithCommas(n)) == IntToString(n)
    ensures n < 0 <==> (|WithCommas(n)| > 0 && WithCommas(n)[0] == '-')
    ensures WellGrouped(if n < 0 then WithCommas(n)[1..] else WithCommas(n))
  {
    var m := if n < 0 then -n else n;
    var g := Group(Digits(m));
    GroupStrip(Digits(m));
    GroupWellGrouped(Digits(m));
    WellGroupedStartsWithDigit(g);
    if n < 0 {
      assert WithCommas(n) == "-" + g;
      StripCommasAppend("-", g);
      assert StripCommas("-") == "-" by {
        assert "-"[..0] == [];
      }
      assert WithCommas(n)[1..] == g;
    } else {
      assert WithCommas(n) == g;
    }
  }

  /** `{n:,}` is made of digits, commas and a leading '-' only: it holds
      no space or line break. */
  lemma WithCommasHasNoSpace(n: int)
    ensures forall i :: 0 <= i < |WithCommas(n)| ==>
      WithCommas(n)[i] != ' ' && WithCommas(n)[i] != '\n'
  {
    WithCommasSpec(n);
    var w := WithCommas(n);
    var g := if n < 0 then w[1..] else w;
    forall i | 0 <= i < |w| ensures w[i] != ' ' && w[i] != '\n' {
      if n < 0 && i > 0 {
        assert w[i] == g[i - 1];
      }
    }
  }

  /** A displayed price, with its commas deleted, parses back to the price. */
  lemma WithCommasParses(n: int)
    ensures ParseInt(StripCommas(WithCommas(n))) == Some(n)
  {
    WithCommasSpec(n);
    ParseIntRoundTrip(n);
  }

  /** Distinct prices are displayed differently. */
  lemma WithCommasInjective(a: int, b: int)
    requires WithCommas(a) == WithCommas(b)
    ensures a == b
  {
    WithCommasParses(a);
    WithCommasParses(b);
  }
}
