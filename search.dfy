/** `search_items`: the catalog names, sorted as Python sorts strings,
    that contain the lower-cased query in their lower-cased form. */
module Search {
  import Text
  import Catalog

  /** Python's `<` on strings: lexicographic by code point, a proper
      prefix before its extensions. */
  predicate StrLess(a: string, b: string)
    decreases |a|
  {
    if a == [] then b != []
    else if b == [] then false
    else if a[0] != b[0] then a[0] < b[0]
    else StrLess(a[1..], b[1..])
  }

  predicate StrLeq(a: string, b: string) {
    a == b || StrLess(a, b)
  }

  lemma {:induction false} StrLessIrreflexive(a: string)
    ensures !StrLess(a, a)
    decreases |a|
  {
    if a != [] {
      StrLessIrreflexive(a[1..]);
    }
  }

  lemma {:induction false} StrLessTransitive(a: string, b: string, c: string)
    requires StrLess(a, b) && StrLess(b, c)
    ensures StrLess(a, c)
    decreases |a|
  {
    if a != [] && a[0] == b[0] && b[0] == c[0] {
      StrLessTransitive(a[1..], b[1..], c[1..]);
    }
  }

  lemma {:induction false} StrLessTotal(a: string, b: string)
    ensures a == b || StrLess(a, b) || StrLess(b, a)
    decreases |a|
  {
    if a != [] && b != [] && a[0] == b[0] {
      StrLessTotal(a[1..], b[1..]);
      if a[1..] == b[1..] {
        assert a == [a[0]] + a[1..] && b == [b[0]] + b[1..];
      }
    }
  }

  lemma StrLeqTransitive(a: string, b: string, c: string)
    requires StrLeq(a, b) && StrLeq(b, c)
    ensures StrLeq(a, c)
  {
    if a != b && b != c {
      StrLessTransitive(a, b, c);
    }
  }

  ghost predicate Sorted(s: seq<string>) {
    forall i, j :: 0 <= i < j < |s| ==> StrLeq(s[i], s[j])
  }

  ghost predicate NoDup(s: seq<string>) {
    forall i, j :: 0 <= i < j < |s| ==> s[i] != s[j]
  }

  lemma SortedCons(a: string, s: seq<string>)
    ensures Sorted([a] + s) <==> Sorted(s) && forall y :: y in s ==> StrLeq(a, y)
  {
    var r := [a] + s;
    if Sorted(r) {
      forall i, j | 0 <= i < j < |s| ensures StrLeq(s[i], s[j]) {
        assert s[i] == r[i + 1] && s[j] == r[j + 1];
      }
      forall y | y in s ensures StrLeq(a, y) {
        var j :| 0 <= j < |s| && s[j] == y;
        assert r[0] == a && r[j + 1] == y;
        assert StrLeq(r[0], r[j + 1]);
      }
    }
    if Sorted(s) && forall y :: y in s ==> StrLeq(a, y) {
      forall i, j | 0 <= i < j < |r| ensures StrLeq(r[i], r[j]) {
        assert r[j] == s[j - 1];
        if i > 0 {
          assert r[i] == s[i - 1];
        }
      }
    }
  }

  lemma NoDupCons(a: string, s: seq<string>)
    ensures NoDup([a] + s) <==> a !in s && NoDup(s)
  {
    var r := [a] + s;
    if NoDup(r) {
      forall i, j | 0 <= i < j < |s| ensures s[i] != s[j] {
        assert s[i] == r[i + 1] && s[j] == r[j + 1];
      }
      forall j | 0 <= j < |s| ensures s[j] != a {
        assert r[0] == a && r[j + 1] == s[j];
      }
    }
    if a !in s && NoDup(s) {
      forall i, j | 0 <= i < j < |r| ensures r[i] != r[j] {
        assert r[j] == s[j - 1];
        if i > 0 {
          assert r[i] == s[i - 1];
        }
      }
    }
  }

  /** Places `x` before the first element it does not exceed. */
  function Insert(x: string, s: seq<string>): seq<string> {
    if s == [] then [x]
    else if StrLeq(x, s[0]) then [x] + s
    else [s[0]] + Insert(x, s[1..])
  }

  /** `sorted(names)`, by insertion. */
  function Sort(s: seq<string>): seq<string> {
    if s == [] then [] else Insert(s[0], Sort(s[1..]))
  }

  /** Inserting adds `x` and nothing else, keeps a sorted sequence
      sorted, and keeps it duplicate-free when `x` is new. */
  lemma {:induction false} InsertSpec(x: string, s: seq<string>)
    ensures multiset(Insert(x, s)) == multiset(s) + multiset{x}
    ensures Sorted(s) ==> Sorted(Insert(x, s))
    ensures NoDup(s) && x !in s ==> NoDup(Insert(x, s))
    decreases |s|
  {
    if s == [] {
    } else if StrLeq(x, s[0]) {
      assert s == [s[0]] + s[1..];
      if Sorted(s) {
        SortedCons(s[0], s[1..]);
        forall y | y in s ensures StrLeq(x, y) {
          StrLeqTransitive(x, s[0], y);
        }
        SortedCons(x, s);
      }
      NoDupCons(x, s);
    } else {
      var rest := Insert(x, s[1..]);
      InsertSpec(x, s[1..]);
      assert s == [s[0]] + s[1..];
      assert forall y :: y in rest <==> y == x || y in s[1..] by {
        forall y ensures y in rest <==> y == x || y in s[1..] {
          assert y in rest <==> y in multiset(rest);
          assert y in s[1..] <==> y in multiset(s[1..]);
        }
      }
      SortedCons(s[0], s[1..]);
      SortedCons(s[0], rest);
      if Sorted(s) {
        StrLessTotal(x, s[0]);
      }
      NoDupCons(s[0], s[1..]);
      NoDupCons(s[0], rest);
    }
  }

  /** `sorted` returns an ascending permutation of its input, free of
      duplicates when the input is. */
  lemma {:induction false} SortSpec(s: seq<string>)
    ensures multiset(Sort(s)) == multiset(s)
    ensures Sorted(Sort(s))
    decreases |s|
  {
    if s != [] {
      SortSpec(s[1..]);
      InsertSpec(s[0], Sort(s[1..]));
      assert s == [s[0]] + s[1..];
    }
  }

  /** `sorted` of duplicate-free names is duplicate-free. */
  lemma {:induction false} SortNoDup(s: seq<string>)
    requires NoDup(s)
    ensures NoDup(Sort(s))
    decreases |s|
  {
    if s != [] {
      var rest := Sort(s[1..]);
      assert s == [s[0]] + s[1..];
      NoDupCons(s[0], s[1..]);
      SortNoDup(s[1..]);
      SortSpec(s[1..]);
      assert s[0] !in multiset(rest);
      InsertSpec(s[0], rest);
    }
  }

  /** The name matches the already lower-cased query. */
  predicate Matches(name: string, loweredQuery: string) {
    Text.Contains(Text.Lower(name), loweredQuery)
  }

  /** `[item for item in names if query in item.lower()]`: keeps exactly
      the matching names. */
  function Filter(names: seq<string>, loweredQuery: string): (r: seq<string>)
    ensures forall n :: n in r <==> n in names && Matches(n, loweredQuery)
  {
    if names == [] then []
    else
      assert names == [names[0]] + names[1..];
      (if Matches(names[0], loweredQuery) then [names[0]] else [])
        + Filter(names[1..], loweredQuery)
  }

  /** Filtering keeps order and distinctness. */
  lemma {:induction false} FilterKeepsOrder(names: seq<string>, loweredQuery: string)
    ensures Sorted(names) ==> Sorted(Filter(names, loweredQuery))
    ensures NoDup(names) ==> NoDup(Filter(names, loweredQuery))
    decreases |names|
  {
    if names != [] {
      var rest := Filter(names[1..], loweredQuery);
      FilterKeepsOrder(names[1..], loweredQuery);
      assert names == [names[0]] + names[1..];
      SortedCons(names[0], names[1..]);
      NoDupCons(names[0], names[1..]);
      if Matches(names[0], loweredQuery) {
        SortedCons(names[0], rest);
        NoDupCons(names[0], rest);
      }
    }
  }

  /** `search_items` on the catalog `d` and the typed text `query`. */
  function SearchItems(d: Catalog.ItemDict, query: string): seq<string> {
    Filter(Sort(d.names), Text.Lower(query))
  }

  /** The drop-down list: strictly ascending (so no name twice), and
      holding exactly the catalog names whose lower-cased form contains
      the lower-cased query. */
  lemma SearchItemsSpec(d: Catalog.ItemDict, query: string)
    requires Catalog.Valid(d)
    ensures forall i, j :: 0 <= i < j < |SearchItems(d, query)| ==>
      StrLess(SearchItems(d, query)[i], SearchItems(d, query)[j])
    ensures NoDup(SearchItems(d, query))
    ensures forall n :: n in SearchItems(d, query) <==>
      n in d.ids && Text.Contains(Text.Lower(n), Text.Lower(query))
  {
    var sorted := Sort(d.names);
    var r := SearchItems(d, query);
    SortSpec(d.names);
    SortNoDup(d.names);
    FilterKeepsOrder(sorted, Text.Lower(query));
    forall n ensures n in sorted <==> n in d.names {
      assert n in sorted <==> n in multiset(sorted);
      assert n in d.names <==> n in multiset(d.names);
    }
    forall i, j | 0 <= i < j < |r| ensures r[i] != r[j] {
      StrLessIrreflexive(r[i]);
    }
  }

  /** An empty query lists every catalog name. */
  lemma SearchEmptyQuery(d: Catalog.ItemDict)
    requires Catalog.Valid(d)
    ensures forall n :: n in SearchItems(d, "") <==> n in d.ids
  {
    SearchItemsSpec(d, "");
    forall n | n in d.ids ensures Text.Contains(Text.Lower(n), Text.Lower("")) {
      Text.ContainsEmpty(Text.Lower(n));
    }
  }
}
