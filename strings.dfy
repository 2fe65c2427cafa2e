/**
 * Character-level helpers the core relies on: Python's code-point string
 * ordering and `sorted`, `str.replace`, `str.endswith`, `str.lower` on the
 * ".zip" suffix test, and `str()` of an integer.
 */
module Strings {

  /** Python's `a <= b` on strings: lexicographic over code points. */
  predicate Below(a: string, b: string)
    decreases |a|
  {
    |a| == 0 || (|b| > 0 && (a[0] < b[0] || (a[0] == b[0] && Below(a[1..], b[1..]))))
  }

  lemma {:induction false} BelowTotal(a: string, b: string)
    ensures Below(a, b) || Below(b, a)
    decreases |a|
  {
    if |a| > 0 && |b| > 0 && a[0] == b[0] {
      BelowTotal(a[1..], b[1..]);
    }
  }

  lemma {:induction false} BelowAntisymmetric(a: string, b: string)
    requires Below(a, b) && Below(b, a)
    ensures a == b
    decreases |a|
  {
    if |a| > 0 {
      BelowAntisymmetric(a[1..], b[1..]);
      assert a == [a[0]] + a[1..] && b == [b[0]] + b[1..];
    }
  }

  lemma {:induction false} BelowTransitive(a: string, b: string, c: string)
    requires Below(a, b) && Below(b, c)
    ensures Below(a, c)
    decreases |a|
  {
    if |a| > 0 && a[0] == b[0] && b[0] == c[0] {
      BelowTransitive(a[1..], b[1..], c[1..]);
    }
  }

  /** Every element is strictly below the next one: sorted, no duplicates. */
  predicate StrictlySorted(s: seq<string>) {
    forall i, j :: 0 <= i < j < |s| ==> Below(s[i], s[j]) && s[i] != s[j]
  }

  predicate Sorted(s: seq<string>) {
    forall i, j :: 0 <= i < j < |s| ==> Below(s[i], s[j])
  }

  predicate Distinct<T(==)>(s: seq<T>) {
    forall i, j :: 0 <= i < j < |s| ==> s[i] != s[j]
  }

  function Insert(x: string, s: seq<string>): (r: seq<string>)
    requires Sorted(s)
    ensures Sorted(r)
    ensures |r| == |s| + 1
    ensures r[0] == x || (|s| > 0 && r[0] == s[0])
    decreases |s|
  {
    if |s| == 0 then [x]
    else if Below(x, s[0]) then
      ConsSorted(x, s);
      [x] + s
    else
      var rest := Insert(x, s[1..]);
      BelowTotal(x, s[0]);
      assert s == [s[0]] + s[1..];
      assert |rest| == 0 || Below(s[0], rest[0]) by {
        if |s| > 1 && rest[0] == s[1..][0] {
          assert s[1..][0] == s[1];
        }
      }
      ConsSorted(s[0], rest);
      [s[0]] + rest
  }

  /** Inserting adds exactly the one string. */
  lemma {:induction false} InsertPermutes(x: string, s: seq<string>)
    requires Sorted(s)
    ensures multiset(Insert(x, s)) == multiset(s) + multiset{x}
    decreases |s|
  {
    if |s| > 0 && !Below(x, s[0]) {
      InsertPermutes(x, s[1..]);
      assert s == [s[0]] + s[1..];
    }
  }

  /** A string below the head of a sorted list goes in front of it. */
  lemma ConsSorted(x: string, s: seq<string>)
    requires Sorted(s) && (|s| == 0 || Below(x, s[0]))
    ensures Sorted([x] + s)
  {
    var r := [x] + s;
    forall i, j | 0 <= i < j < |r| ensures Below(r[i], r[j]) {
      if i == 0 && j > 1 {
        BelowTransitive(x, s[0], s[j - 1]);
      }
    }
  }

  /** Python's `sorted` on a list of strings (insertion sort). */
  function Sort(s: seq<string>): (r: seq<string>)
    ensures Sorted(r)
    ensures |r| == |s|
    decreases |s|
  {
    if |s| == 0 then []
    else Insert(s[|s| - 1], Sort(s[..|s| - 1]))
  }

  /** Sorting rearranges the strings and neither adds nor drops any. */
  lemma {:induction false} SortPermutes(s: seq<string>)
    ensures multiset(Sort(s)) == multiset(s)
    decreases |s|
  {
    if |s| > 0 {
      var t := s[..|s| - 1];
      SortPermutes(t);
      InsertPermutes(s[|s| - 1], Sort(t));
      assert s == t + [s[|s| - 1]];
    }
  }

  lemma {:induction false} SortDistinct(s: seq<string>)
    requires Distinct(s)
    ensures StrictlySorted(Sort(s))
    ensures |Sort(s)| == |s|
    ensures forall x :: x in Sort(s) <==> x in s
  {
    var r := Sort(s);
    SortPermutes(s);
    assert forall x :: x in r <==> x in s by {
      forall x ensures x in r <==> x in s {
        assert x in r <==> x in multiset(r);
        assert x in s <==> x in multiset(s);
      }
    }
    MultisetDistinct(s);
    CountAtMostOneDistinct(r);
  }

  lemma {:induction false} CountAtMostOneDistinct<T>(s: seq<T>)
    requires forall x :: multiset(s)[x] <= 1
    ensures Distinct(s)
  {
    if |s| > 0 {
      var t := s[..|s| - 1];
      assert s == t + [s[|s| - 1]];
      assert multiset(s) == multiset(t) + multiset{s[|s| - 1]};
      forall x ensures multiset(t)[x] <= 1 {
        assert multiset(s)[x] == multiset(t)[x] + multiset{s[|s| - 1]}[x];
      }
      CountAtMostOneDistinct(t);
      assert s[|s| - 1] !in t by {
        assert multiset(s)[s[|s| - 1]] == multiset(t)[s[|s| - 1]] + 1;
      }
    }
  }

  lemma {:induction false} MultisetDistinct<T>(s: seq<T>)
    requires Distinct(s)
    ensures forall x :: multiset(s)[x] <= 1
  {
    if |s| > 0 {
      var t := s[..|s| - 1];
      assert s == t + [s[|s| - 1]];
      assert Distinct(t);
      MultisetDistinct(t);
      assert s[|s| - 1] !in t;
    }
  }

  /** A strictly sorted list is determined by its elements: this is why
      sorting makes the canonical forms independent of insertion order. */
  lemma {:induction false} StrictlySortedUnique(a: seq<string>, b: seq<string>)
    requires StrictlySorted(a) && StrictlySorted(b)
    requires forall x :: x in a <==> x in b
    ensures a == b
    decreases |a|
  {
    assert |a| > 0 ==> a[0] in b;
    assert |b| > 0 ==> b[0] in a;
    if |a| > 0 {
      if a[0] != b[0] {
        assert a[0] in b;
        assert b[0] in a;
        var i :| 0 <= i < |b| && b[i] == a[0];
        var j :| 0 <= j < |a| && a[j] == b[0];
        assert i > 0 && j > 0;
        assert Below(b[0], a[0]) && Below(a[0], b[0]);
        BelowAntisymmetric(a[0], b[0]);
        assert false;
      }
      forall x ensures x in a[1..] <==> x in b[1..] {
        if x in a[1..] {
          var i :| 1 <= i < |a| && a[i] == x;
          assert x != a[0];
          assert x in b;
        }
        if x in b[1..] {
          var i :| 1 <= i < |b| && b[i] == x;
          assert x != b[0];
          assert x in a;
        }
      }
      StrictlySortedUnique(a[1..], b[1..]);
      assert a == [a[0]] + a[1..] && b == [b[0]] + b[1..];
    }
  }

  /** Python's `s.replace(old, new)` for a single character. */
  function ReplaceChar(s: string, from: char, to: char): (r: string)
    ensures |r| == |s|
    ensures forall i :: 0 <= i < |s| ==> r[i] == (if s[i] == from then to else s[i])
  {
    if |s| == 0 then []
    else [if s[0] == from then to else s[0]] + ReplaceChar(s[1..], from, to)
  }

  predicate EndsWith(s: string, suffix: string) {
    |suffix| <= |s| && s[|s| - |suffix|..] == suffix
  }

  /** `str.lower()` restricted to the ASCII letters. */
  function LowerAscii(s: string): (r: string)
    ensures |r| == |s|
    ensures forall i :: 0 <= i < |s| && 'A' <= s[i] <= 'Z' ==> r[i] == (s[i] as int + 32) as char
    ensures forall i :: 0 <= i < |s| && !('A' <= s[i] <= 'Z') ==> r[i] == s[i]
  {
    if |s| == 0 then []
    else [if 'A' <= s[0] <= 'Z' then (s[0] as int + 32) as char else s[0]] + LowerAscii(s[1..])
  }

  function DigitChar(d: nat): char
    requires d < 10
  {
    "0123456789"[d]
  }

  function NatToString(n: nat): (r: string)
    ensures |r| > 0
    decreases n
  {
    if n < 10 then [DigitChar(n)] else NatToString(n / 10) + [DigitChar(n % 10)]
  }

  /** Python's `str(i)` for an integer. */
  function IntToString(i: int): (r: string)
    ensures |r| > 0
  {
    if i < 0 then "-" + NatToString(-i) else NatToString(i)
  }
}
