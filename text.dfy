/**
 * Text helpers the synthesizer relies on: joining with a separator (strings.Join),
 * substring search (strings.Contains, bytes.SplitN), decimal formatting of integers
 * (fmt's %d) and the lexicographic order on strings that sort.Strings uses.
 */
module Text {
  import opened Wrappers

  /** `parts` joined with `sep` between consecutive elements, as strings.Join does. */
  function Join(parts: seq<string>, sep: string): string
    decreases |parts|
  {
    if parts == [] then ""
    else if |parts| == 1 then parts[0]
    else Join(parts[..|parts| - 1], sep) + sep + parts[|parts| - 1]
  }

  /** A join is empty only when there is nothing to join, or one empty part. */
  lemma JoinEmpty(parts: seq<string>, sep: string)
    requires sep != ""
    ensures Join(parts, sep) == "" <==> parts == [] || (|parts| == 1 && parts[0] == "")
  {
  }

  /** Every part of a join occurs in it. */
  lemma {:induction false} JoinContainsPart(parts: seq<string>, sep: string, i: nat)
    requires i < |parts|
    ensures Contains(Join(parts, sep), parts[i])
  {
    var n := |parts|;
    if n == 1 {
      assert OccursAt(parts[0], parts[0], 0);
    } else if i == n - 1 {
      var pre := Join(parts[..n - 1], sep) + sep;
      assert Join(parts, sep) == pre + parts[i];
      assert OccursAt(Join(parts, sep), parts[i], |pre|);
    } else {
      var pre := Join(parts[..n - 1], sep);
      JoinContainsPart(parts[..n - 1], sep, i);
      assert parts[..n - 1][i] == parts[i];
      var j: nat :| j <= |pre| && OccursAt(pre, parts[i], j);
      OccursInPrefix(pre, sep + parts[n - 1], parts[i], j);
      assert Join(parts, sep) == pre + (sep + parts[n - 1]);
    }
  }

  /** With at least two parts, the separator occurs in the join. */
  lemma JoinContainsSeparator(parts: seq<string>, sep: string)
    requires |parts| >= 2
    ensures Contains(Join(parts, sep), sep)
  {
    var pre := Join(parts[..|parts| - 1], sep);
    assert Join(parts, sep) == pre + sep + parts[|parts| - 1];
    assert OccursAt(Join(parts, sep), sep, |pre|);
  }

  /** `sub` occurs in `s` starting at index `i`. */
  predicate OccursAt(s: string, sub: string, i: nat)
  {
    i + |sub| <= |s| && s[i..i + |sub|] == sub
  }

  /** strings.Contains: `sub` occurs somewhere in `s`. */
  predicate Contains(s: string, sub: string)
  {
    exists i: nat | i <= |s| :: OccursAt(s, sub, i)
  }

  /** An occurrence in `a` is still an occurrence, at the same index, in `a + b`. */
  lemma OccursInPrefix(a: string, b: string, sub: string, i: nat)
    requires OccursAt(a, sub, i)
    ensures OccursAt(a + b, sub, i)
  {
    assert (a + b)[i..i + |sub|] == a[i..i + |sub|];
  }

  /**
   * The index of the first occurrence of `sub` in `s` at or after `from`, if any.
   * This is the search bytes.SplitN(s, sub, 2) performs before cutting.
   */
  function FirstOccurrence(s: string, sub: string, from: nat): (r: Option<nat>)
    requires from <= |s|
    decreases |s| - from
    ensures r.Some? ==> from <= r.value && OccursAt(s, sub, r.value)
    ensures r.Some? ==> forall j: nat :: from <= j < r.value ==> !OccursAt(s, sub, j)
    ensures r.None? ==> forall j: nat :: from <= j ==> !OccursAt(s, sub, j)
  {
    if OccursAt(s, sub, from) then Some(from)
    else if from + |sub| >= |s| then
      assert forall j: nat :: from < j ==> !OccursAt(s, sub, j);
      None
    else FirstOccurrence(s, sub, from + 1)
  }

  /** The decimal digit `d` as a character. */
  function DigitChar(d: nat): (c: char)
    requires d < 10
    ensures '0' <= c <= '9' && c as int - '0' as int == d
  {
    (d + '0' as int) as char
  }

  /** The decimal digits of `n`, most significant first, without leading zeros. */
  function Digits(n: nat): (r: string)
    decreases n
    ensures |r| >= 1
    ensures forall i :: 0 <= i < |r| ==> '0' <= r[i] <= '9'
  {
    if n < 10 then [DigitChar(n)] else Digits(n / 10) + [DigitChar(n % 10)]
  }

  /** An integer in decimal, with a leading '-' when negative, as fmt's %d prints it. */
  function FormatInt(i: int): (r: string)
    ensures r != ""
    ensures r[0] == '-' <==> i < 0
    ensures IsDecimal(r) && ParseInt(r) == i
  {
    if i < 0 then
      DigitsRoundTrip(-i);
      var r := "-" + Digits(-i);
      assert r[1..] == Digits(-i);
      assert forall k :: 1 <= k < |r| ==> r[k] == Digits(-i)[k - 1];
      r
    else
      DigitsRoundTrip(i);
      Digits(i)
  }

  /** The value of a string of decimal digits, read most significant first. */
  function DigitsValue(s: string): nat
    requires forall i :: 0 <= i < |s| ==> '0' <= s[i] <= '9'
  {
    if s == [] then 0
    else DigitsValue(s[..|s| - 1]) * 10 + (s[|s| - 1] as int - '0' as int)
  }

  /** Decimal digits, optionally after a minus sign. */
  predicate IsDecimal(s: string)
  {
    && s != []
    && (s[0] == '-' ==> forall i :: 1 <= i < |s| ==> '0' <= s[i] <= '9')
    && (s[0] != '-' ==> forall i :: 0 <= i < |s| ==> '0' <= s[i] <= '9')
  }

  /** Reads back what FormatInt prints. */
  function ParseInt(s: string): int
    requires IsDecimal(s)
  {
    if s[0] == '-' then -(DigitsValue(s[1..]) as int) else DigitsValue(s)
  }

  lemma {:induction false} DigitsRoundTrip(n: nat)
    ensures DigitsValue(Digits(n)) == n
    decreases n
  {
    if n >= 10 {
      DigitsRoundTrip(n / 10);
      var d := Digits(n);
      assert d[..|d| - 1] == Digits(n / 10);
    }
  }

  /**
   * Lexicographic order on strings, element by element, a proper prefix first.
   * On characters this is the order Go's string comparison gives on their UTF-8 bytes.
   */
  predicate LexLeq(a: string, b: string)
    decreases |a|
  {
    a == [] || (b != [] && (a[0] < b[0] || (a[0] == b[0] && LexLeq(a[1..], b[1..]))))
  }

  lemma {:induction false} LexLeqReflexive(a: string)
    ensures LexLeq(a, a)
    decreases |a|
  {
    if a != [] { LexLeqReflexive(a[1..]); }
  }

  lemma {:induction false} LexLeqTotal(a: string, b: string)
    ensures LexLeq(a, b) || LexLeq(b, a)
    decreases |a|
  {
    if a != [] && b != [] && a[0] == b[0] { LexLeqTotal(a[1..], b[1..]); }
  }

  lemma {:induction false} LexLeqAntisymmetric(a: string, b: string)
    requires LexLeq(a, b) && LexLeq(b, a)
    ensures a == b
    decreases |a|
  {
    if a != [] && b != [] {
      LexLeqAntisymmetric(a[1..], b[1..]);
      assert a == [a[0]] + a[1..] && b == [b[0]] + b[1..];
    }
  }

  lemma {:induction false} LexLeqTransitive(a: string, b: string, c: string)
    requires LexLeq(a, b) && LexLeq(b, c)
    ensures LexLeq(a, c)
    decreases |a|
  {
    if a != [] && b != [] && c != [] && a[0] == b[0] && b[0] == c[0] {
      LexLeqTransitive(a[1..], b[1..], c[1..]);
    }
  }

  /** `s` is in ascending lexicographic order. */
  predicate Sorted(s: seq<string>)
  {
    forall i, j :: 0 <= i < j < |s| ==> LexLeq(s[i], s[j])
  }

  /** The head of a sorted sequence is below each of its elements. */
  lemma SortedHeadLeq(s: seq<string>, x: string)
    requires Sorted(s) && x in s
    ensures LexLeq(s[0], x)
  {
    var k :| 0 <= k < |s| && s[k] == x;
    if k == 0 { LexLeqReflexive(x); }
  }

  /** Removing the head keeps a sequence sorted. */
  lemma SortedTail(s: seq<string>)
    requires Sorted(s) && s != []
    ensures Sorted(s[1..])
  {
    forall i, j | 0 <= i < j < |s| - 1 ensures LexLeq(s[1..][i], s[1..][j]) {
      assert s[1..][i] == s[i + 1] && s[1..][j] == s[j + 1];
    }
  }

  /** Two sequences with the same head and the same multiset have tails with the same multiset. */
  lemma MultisetTail(a: seq<string>, b: seq<string>)
    requires a != [] && b != [] && a[0] == b[0]
    requires multiset(a) == multiset(b)
    ensures multiset(a[1..]) == multiset(b[1..])
  {
    assert a == [a[0]] + a[1..];
    assert b == [b[0]] + b[1..];
    calc {
      multiset(a[1..]);
      multiset(a) - multiset{a[0]};
      multiset(b) - multiset{b[0]};
      multiset(b[1..]);
    }
  }

  /**
   * There is only one sorted arrangement of a multiset of strings, so the order in which
   * the inputs were listed cannot change the order they are replayed in.
   */
  lemma {:induction false} SortedUnique(a: seq<string>, b: seq<string>)
    requires Sorted(a) && Sorted(b)
    requires multiset(a) == multiset(b)
    ensures a == b
    decreases |a|
  {
    assert |a| == |multiset(a)| == |multiset(b)| == |b|;
    if a != [] {
      assert a[0] in multiset(b) && b[0] in multiset(a);
      SortedHeadLeq(b, a[0]);
      SortedHeadLeq(a, b[0]);
      LexLeqAntisymmetric(a[0], b[0]);
      MultisetTail(a, b);
      SortedTail(a);
      SortedTail(b);
      SortedUnique(a[1..], b[1..]);
      assert a == [a[0]] + a[1..] && b == [b[0]] + b[1..];
    }
  }
}
