/** String helpers the tracker takes from Python's `str`: lower-casing,
    the `in` substring test, and the icon title's `replace(" ", "_")`. */
module Text {

  /** ASCII lower-casing of one character. */
  function LowerChar(c: char): char {
    if 'A' <= c <= 'Z' then (c as int + 32) as char else c
  }

  /** `s.lower()` on ASCII letters. */
  function Lower(s: string): string {
    seq(|s|, i requires 0 <= i < |s| => LowerChar(s[i]))
  }

  const UPPER := "ABCDEFGHIJKLMNOPQRSTUVWXYZ"
  const LOWER := "abcdefghijklmnopqrstuvwxyz"

  /** The k-th capital lowers to the k-th small letter; every other
      character is kept. */
  lemma LowerCharSpec(c: char)
    ensures forall k :: 0 <= k < 26 && c == UPPER[k] ==> LowerChar(c) == LOWER[k]
    ensures !('A' <= c <= 'Z') ==> LowerChar(c) == c
  {
    forall k | 0 <= k < 26 && c == UPPER[k] ensures LowerChar(c) == LOWER[k] {
      assert UPPER[k] as int == 'A' as int + k;
      assert LOWER[k] as int == 'a' as int + k;
    }
  }

  /** Lower-casing keeps the length, turns each capital into the small
      letter at the same place in the alphabet, keeps every other
      character, and is idempotent. */
  lemma LowerIsLowered(s: string)
    ensures |Lower(s)| == |s|
    ensures forall i, k :: 0 <= i < |s| && 0 <= k < 26 && s[i] == UPPER[k] ==> Lower(s)[i] == LOWER[k]
    ensures forall i :: 0 <= i < |s| && !('A' <= s[i] <= 'Z') ==> Lower(s)[i] == s[i]
    ensures Lower(Lower(s)) == Lower(s)
  {
    forall i | 0 <= i < |s| {
      LowerCharSpec(s[i]);
    }
  }

  /** The two strings differ at most in the case of ASCII letters. */
  ghost predicate SameIgnoringCase(a: string, b: string) {
    && |a| == |b|
    && forall i :: 0 <= i < |a| ==>
         (a[i] == b[i] ||
          exists k :: 0 <= k < 26 && ((a[i] == UPPER[k] && b[i] == LOWER[k]) || (a[i] == LOWER[k] && b[i] == UPPER[k])))
  }

  lemma LowerCharIgnoresCase(x: char, y: char, k: int)
    requires 0 <= k < 26
    requires (x == UPPER[k] && y == LOWER[k]) || (x == LOWER[k] && y == UPPER[k])
    ensures LowerChar(x) == LowerChar(y)
  {
    LowerCharSpec(UPPER[k]);
    LowerCharSpec(LOWER[k]);
    assert LOWER[k] as int == 'a' as int + k;
  }

  lemma LowerIgnoresCase(a: string, b: string)
    requires SameIgnoringCase(a, b)
    ensures Lower(a) == Lower(b)
  {
    forall i | 0 <= i < |a| ensures LowerChar(a[i]) == LowerChar(b[i]) {
      if a[i] != b[i] {
        var k :| 0 <= k < 26 && ((a[i] == UPPER[k] && b[i] == LOWER[k]) || (a[i] == LOWER[k] && b[i] == UPPER[k]));
        LowerCharIgnoresCase(a[i], b[i], k);
      }
    }
  }

  /** Whether a name matches a query does not depend on the case of the
      ASCII letters of either. */
  lemma MatchIgnoresCase(name: string, name': string, query: string, query': string)
    requires SameIgnoringCase(name, name') && SameIgnoringCase(query, query')
    ensures Contains(Lower(name), Lower(query)) == Contains(Lower(name'), Lower(query'))
  {
    LowerIgnoresCase(name, name');
    LowerIgnoresCase(query, query');
  }

  predicate StartsWith(s: string, q: string) {
    |q| <= |s| && s[..|q|] == q
  }

  /** Python's `q in s` for strings, by scanning the start positions. */
  predicate Contains(s: string, q: string)
    decreases |s|
  {
    StartsWith(s, q) || (s != [] && Contains(s[1..], q))
  }

  /** `q` occurs in `s` at position `i`. */
  ghost predicate OccursAt(s: string, q: string, i: int) {
    0 <= i && i + |q| <= |s| && s[i..i + |q|] == q
  }

  /** Occurrences in the tail are the occurrences one place further on. */
  lemma OccursInTail(s: string, q: string, i: nat)
    requires s != []
    ensures OccursAt(s[1..], q, i) <==> OccursAt(s, q, i + 1)
  {
    if i + |q| <= |s[1..]| {
      assert s[1..][i..i + |q|] == s[i + 1..i + 1 + |q|];
    }
  }

  /** The scan finds `q` exactly when it occurs somewhere in `s`. */
  lemma {:induction false} ContainsIff(s: string, q: string)
    ensures Contains(s, q) <==> exists i :: OccursAt(s, q, i)
    decreases |s|
  {
    if StartsWith(s, q) {
      assert OccursAt(s, q, 0);
    } else if s == [] {
      assert !OccursAt(s, q, 0);
    } else {
      ContainsIff(s[1..], q);
      if Contains(s[1..], q) {
        var i :| OccursAt(s[1..], q, i);
        OccursInTail(s, q, i);
      }
      if i :| OccursAt(s, q, i) {
        assert i != 0;
        OccursInTail(s, q, i - 1);
      }
    }
  }

  /** The empty query is contained in every string. */
  lemma ContainsEmpty(s: string)
    ensures Contains(s, "")
  {
  }

  /** `name.replace(" ", "_")`, the wiki page title of an item icon. */
  function IconTitle(name: string): string {
    seq(|name|, i requires 0 <= i < |name| => if name[i] == ' ' then '_' else name[i])
  }

  /** The title has no space, the same length, and keeps every other
      character in place. */
  lemma IconTitleSpec(name: string)
    ensures |IconTitle(name)| == |name|
    ensures ' ' !in IconTitle(name)
    ensures forall i :: 0 <= i < |name| && name[i] != ' ' ==> IconTitle(name)[i] == name[i]
    ensures forall i :: 0 <= i < |name| && name[i] == ' ' ==> IconTitle(name)[i] == '_'
  {
  }
}
