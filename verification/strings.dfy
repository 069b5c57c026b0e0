/**
 * The pieces of java.lang.String and java.util.TreeSet<String> that the
 * cluster code relies on: the natural (compareTo) order of strings, sorted
 * duplicate-free arrays, String.split on a one-character separator, joining
 * with a delimiter as a StringBuilder loop does, and decimal rendering of a
 * long.
 */
module JavaStrings {

  // ---------------------------------------------------------------------
  // String.compareTo: lexicographic on UTF-16 code units, a proper prefix
  // comes first
  // ---------------------------------------------------------------------

  /**
   * Where a character's UTF-16 encoding falls among all encodings: code
   * units below the surrogates stand for themselves, a supplementary
   * character (two units, the first a high surrogate 0xD800-0xDBFF) comes
   * next, and the units 0xE000-0xFFFF come last. Since UTF-16 is prefix
   * free, comparing two strings' code units compares the ranks of their
   * first differing characters.
   */
  function Utf16Rank(c: char): (r: int)
    ensures c as int < 0xD800 ==> r == c as int
    ensures 0xD800 <= r <==> c as int >= 0xD800
  {
    if c as int < 0xD800 then c as int
    else if c as int >= 0x1_0000 then c as int - 0x1_0000 + 0xD800
    else c as int + 0x10_0000
  }

  /** Distinct characters have distinct encodings, and within each block the rank follows the code point. */
  lemma Utf16RankOrder(a: char, b: char)
    ensures a != b ==> Utf16Rank(a) != Utf16Rank(b)
    ensures (a as int < 0x1_0000) == (b as int < 0x1_0000) ==> (Utf16Rank(a) < Utf16Rank(b) <==> a < b)
  {
  }

  /** A supplementary character sorts before one from 0xE000-0xFFFF, as its high surrogate is lower. */
  lemma SupplementaryBeforeUpperBmp(a: char, b: char)
    requires a as int >= 0x1_0000 && 0xE000 <= b as int < 0x1_0000
    ensures Less([a], [b]) && !Less([b], [a])
  {
  }

  predicate Less(a: string, b: string)
    decreases |a|
  {
    if |a| == 0 then |b| > 0
    else if |b| == 0 then false
    else if a[0] != b[0] then Utf16Rank(a[0]) < Utf16Rank(b[0])
    else Less(a[1..], b[1..])
  }

  lemma {:induction false} LessIrreflexive(a: string)
    ensures !Less(a, a)
    decreases |a|
  {
    if |a| > 0 {
      LessIrreflexive(a[1..]);
    }
  }

  lemma {:induction false} LessTransitive(a: string, b: string, c: string)
    requires Less(a, b) && Less(b, c)
    ensures Less(a, c)
    decreases |a|
  {
    if |a| > 0 && |b| > 0 && |c| > 0 && a[0] == b[0] && b[0] == c[0] {
      LessTransitive(a[1..], b[1..], c[1..]);
    }
  }

  lemma {:induction false} LessTotal(a: string, b: string)
    requires a != b
    ensures Less(a, b) || Less(b, a)
    decreases |a|
  {
    if |a| > 0 && |b| > 0 && a[0] == b[0] {
      assert a == [a[0]] + a[1..] && b == [b[0]] + b[1..];
      LessTotal(a[1..], b[1..]);
    }
  }

  lemma {:induction false} LessAsymmetric(a: string, b: string)
    ensures !(Less(a, b) && Less(b, a))
    decreases |a|
  {
    if |a| > 0 && |b| > 0 && a[0] == b[0] {
      LessAsymmetric(a[1..], b[1..]);
    }
  }

  // ---------------------------------------------------------------------
  // TreeSet<String>.toArray(): the strictly ascending array of a set
  // ---------------------------------------------------------------------

  predicate StrictlySorted(s: seq<string>)
  {
    forall i, j :: 0 <= i < j < |s| ==> Less(s[i], s[j])
  }

  /** `s` is what a TreeSet holding exactly `elems` yields from toArray(). */
  ghost predicate SortedSetOf(s: seq<string>, elems: set<string>)
  {
    StrictlySorted(s) && (forall x :: x in s <==> x in elems)
  }

  /**
   * A set has exactly one strictly ascending array: whatever order and
   * duplicates went into the TreeSet, toArray() gives the same result.
   */
  lemma {:induction false} SortedSetUnique(a: seq<string>, b: seq<string>, elems: set<string>)
    requires SortedSetOf(a, elems) && SortedSetOf(b, elems)
    ensures a == b
    decreases |a|
  {
    HeadIsMember(a);
    HeadIsMember(b);
    if |a| > 0 && |b| > 0 {
      SortedHeadLeast(a, b[0]);
      SortedHeadLeast(b, a[0]);
      LessAsymmetric(a[0], b[0]);
      assert a[0] == b[0];
      var rest := elems - {a[0]};
      forall x
        ensures x in a[1..] <==> x in rest
      {
        if x in a[1..] {
          var k :| 1 <= k < |a| && a[k] == x;
          LessIrreflexive(x);
        }
        if x in a && x != a[0] {
          var k :| 0 <= k < |a| && a[k] == x;
          assert a[1..][k - 1] == x;
        }
      }
      forall x
        ensures x in b[1..] <==> x in rest
      {
        if x in b[1..] {
          var k :| 1 <= k < |b| && b[k] == x;
          LessIrreflexive(x);
        }
        if x in b && x != b[0] {
          var k :| 0 <= k < |b| && b[k] == x;
          assert b[1..][k - 1] == x;
        }
      }
      SortedSetUnique(a[1..], b[1..], rest);
      assert a == [a[0]] + a[1..] && b == [b[0]] + b[1..];
    }
  }

  lemma HeadIsMember(s: seq<string>)
    ensures |s| > 0 ==> s[0] in s
  {
  }

  /** The head of a strictly ascending array is below every other element. */
  lemma SortedHeadLeast(s: seq<string>, x: string)
    requires StrictlySorted(s) && x in s
    ensures x == s[0] || Less(s[0], x)
  {
    var k :| 0 <= k < |s| && s[k] == x;
  }

  /**
   * TreeSet.add on the sorted array: keeps it strictly ascending, adds `x`
   * unless it is already present.
   */
  method InsertSorted(s: seq<string>, x: string) returns (r: seq<string>)
    requires StrictlySorted(s)
    ensures StrictlySorted(r)
    ensures forall y :: y in r <==> y in s || y == x
    ensures x in s ==> r == s
  {
    var i := 0;
    while i < |s| && Less(s[i], x)
      invariant 0 <= i <= |s|
      invariant forall k :: 0 <= k < i ==> Less(s[k], x)
    {
      i := i + 1;
    }
    if i < |s| && s[i] == x {
      r := s;
    } else {
      r := s[..i] + [x] + s[i..];
      assert i < |s| ==> Less(x, s[i]) by {
        if i < |s| {
          LessTotal(s[i], x);
        }
      }
      forall p, q | 0 <= p < q < |r|
        ensures Less(r[p], r[q])
      {
        if q < i {
        } else if p < i && q == i {
        } else if p < i {
          assert Less(s[p], x) && Less(x, s[i]);
          LessTransitive(s[p], x, s[i]);
          if q - 1 > i {
            LessTransitive(s[p], s[i], s[q - 1]);
          }
        } else if p == i {
          if q - 1 > i {
            LessTransitive(x, s[i], s[q - 1]);
          }
        } else {
        }
      }
      if i < |s| {
        forall k | i < k < |s|
          ensures Less(x, s[k])
        {
          LessTransitive(x, s[i], s[k]);
        }
      }
      forall k | 0 <= k < |s|
        ensures s[k] != x
      {
        LessIrreflexive(x);
      }
    }
  }

  /**
   * `new TreeSet<String>()` followed by `addAll(xs)` and `toArray()`.
   */
  method SortedDistinct(xs: seq<string>) returns (r: seq<string>)
    ensures SortedSetOf(r, set x | x in xs)
  {
    r := [];
    var n := 0;
    while n < |xs|
      invariant 0 <= n <= |xs|
      invariant SortedSetOf(r, set x | x in xs[..n])
    {
      r := InsertSorted(r, xs[n]);
      assert xs[..n + 1] == xs[..n] + [xs[n]];
      n := n + 1;
    }
    assert xs[..n] == xs;
  }

  /** TreeSet.remove on the sorted array. */
  method RemoveSorted(s: seq<string>, x: string) returns (r: seq<string>)
    requires StrictlySorted(s)
    ensures StrictlySorted(r)
    ensures forall y :: y in r <==> y in s && y != x
  {
    var i := 0;
    while i < |s| && s[i] != x
      invariant 0 <= i <= |s|
      invariant x !in s[..i]
    {
      i := i + 1;
    }
    if i == |s| {
      assert s[..i] == s;
      r := s;
    } else {
      r := s[..i] + s[i + 1..];
      assert |r| == |s| - 1;
      assert forall k :: 0 <= k < i ==> r[k] == s[k];
      assert forall k :: i <= k < |r| ==> r[k] == s[k + 1];
      forall p, q | 0 <= p < q < |r|
        ensures Less(r[p], r[q])
      {
        var p' := if p < i then p else p + 1;
        var q' := if q < i then q else q + 1;
        assert r[p] == s[p'] && r[q] == s[q'] && p' < q';
      }
      forall k | 0 <= k < |r|
        ensures r[k] != x
      {
        LessIrreflexive(x);
        var k' := if k < i then k else k + 1;
        assert r[k] == s[k'] && k' != i;
      }
      forall y | y in s && y != x
        ensures y in r
      {
        var k :| 0 <= k < |s| && s[k] == y;
        if k < i {
          assert r[k] == y;
        } else {
          assert r[k - 1] == y;
        }
      }
      forall y | y in r
        ensures y in s
      {
        var k :| 0 <= k < |r| && r[k] == y;
        var k' := if k < i then k else k + 1;
        assert s[k'] == y;
      }
    }
  }

  // ---------------------------------------------------------------------
  // Joining with a delimiter (the StringBuilder loops) and String.split
  // ---------------------------------------------------------------------

  /** `t0 + d + t1 + d + ... + tn`, and "" for no tokens. */
  function Join(tokens: seq<string>, d: char): string
  {
    if |tokens| == 0 then ""
    else if |tokens| == 1 then tokens[0]
    else tokens[0] + [d] + Join(tokens[1..], d)
  }

  /** Position of the first `d` in `s`, or -1. */
  function IndexOf(s: string, d: char): (r: int)
    ensures -1 <= r < |s|
    ensures r >= 0 ==> s[r] == d && d !in s[..r]
    ensures r == -1 <==> d !in s
  {
    if |s| == 0 then -1
    else if s[0] == d then 0
    else
      var k := IndexOf(s[1..], d);
      assert k >= 0 ==> s[..k + 1] == [s[0]] + s[1..][..k];
      if k < 0 then -1 else k + 1
  }

  /** Every field between separators, empty fields included. */
  function Fields(s: string, d: char): (r: seq<string>)
    ensures |r| >= 1
    ensures forall k :: 0 <= k < |r| ==> d !in r[k]
    decreases |s|
  {
    var i := IndexOf(s, d);
    if i < 0 then [s] else [s[..i]] + Fields(s[i + 1..], d)
  }

  function DropTrailingEmpty(fs: seq<string>): (r: seq<string>)
    ensures |r| <= |fs| && r == fs[..|r|]
    ensures |r| > 0 ==> r[|r| - 1] != ""
  {
    if |fs| > 0 && fs[|fs| - 1] == "" then DropTrailingEmpty(fs[..|fs| - 1]) else fs
  }

  /**
   * `s.split(String.valueOf(d))` for a separator that is not a regular
   * expression metacharacter: a string without the separator gives the
   * one-element array `[s]` (so "" gives `[""]`); otherwise the fields,
   * with trailing empty fields discarded.
   */
  function Split(s: string, d: char): seq<string>
  {
    if d !in s then [s] else DropTrailingEmpty(Fields(s, d))
  }

  lemma SplitFieldsFree(s: string, d: char)
    ensures forall k :: 0 <= k < |Split(s, d)| ==> d !in Split(s, d)[k]
  {
  }

  /** The first separator found is the one at `i` when none comes before it. */
  lemma {:induction false} IndexOfFirst(s: string, d: char, i: nat)
    requires i < |s| && s[i] == d
    requires forall k :: 0 <= k < i ==> s[k] != d
    ensures IndexOf(s, d) == i
  {
    if i > 0 {
      IndexOfFirst(s[1..], d, i - 1);
    }
  }

  lemma {:induction false} FieldsOfJoin(tokens: seq<string>, d: char)
    requires |tokens| >= 1
    requires forall k :: 0 <= k < |tokens| ==> d !in tokens[k]
    ensures Fields(Join(tokens, d), d) == tokens
    decreases |tokens|
  {
    if |tokens| > 1 {
      var s := Join(tokens, d);
      var t := tokens[0];
      var rest := Join(tokens[1..], d);
      assert s == t + [d] + rest;
      assert forall k :: 0 <= k < |t| ==> s[k] == t[k];
      IndexOfFirst(s, d, |t|);
      assert s[..|t|] == t;
      assert s[|t| + 1..] == rest;
      FieldsOfJoin(tokens[1..], d);
      assert tokens == [t] + tokens[1..];
    }
  }

  /**
   * Splitting a colon-joined list of non-empty names that contain no colon
   * gives back the names: the replica-choice strings built with a delimiter
   * and split by their readers are a round trip.
   */
  lemma {:induction false} SplitJoin(tokens: seq<string>, d: char)
    requires |tokens| >= 1
    requires forall k :: 0 <= k < |tokens| ==> tokens[k] != "" && d !in tokens[k]
    ensures Split(Join(tokens, d), d) == tokens
  {
    if |tokens| == 1 {
    } else {
      var s := Join(tokens, d);
      assert s == tokens[0] + [d] + Join(tokens[1..], d);
      assert s[|tokens[0]|] == d;
      FieldsOfJoin(tokens, d);
    }
  }

  // ---------------------------------------------------------------------
  // Long.toString for non-negative values
  // ---------------------------------------------------------------------

  function DigitChar(n: nat): (c: char)
    requires n < 10
    ensures '0' <= c <= '9' && c as int - '0' as int == n
  {
    ['0', '1', '2', '3', '4', '5', '6', '7', '8', '9'][n]
  }

  function Decimal(n: nat): (r: string)
    ensures |r| >= 1
    ensures forall k :: 0 <= k < |r| ==> '0' <= r[k] <= '9'
  {
    if n < 10 then [DigitChar(n)] else Decimal(n / 10) + [DigitChar(n % 10)]
  }
}
