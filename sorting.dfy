/**
 * Python's ordering of str values (lexicographic by code point, a proper prefix first) and
 * sorted() on a list of strings, characterised as the one ascending permutation of its input.
 */
module Sorting {

  /** a < b on Python strings. */
  predicate Below(a: string, b: string)
    decreases |a|
  {
    if a == [] then b != []
    else if b == [] then false
    else if a[0] != b[0] then a[0] < b[0]
    else Below(a[1..], b[1..])
  }

  /** a <= b on Python strings. */
  predicate AtMost(a: string, b: string)
  {
    a == b || Below(a, b)
  }

  lemma {:induction false} BelowIrreflexive(a: string)
    ensures !Below(a, a)
    decreases |a|
  {
    if a != [] {
      BelowIrreflexive(a[1..]);
    }
  }

  /** Any two strings compare one way or the other. */
  lemma {:induction false} BelowTotal(a: string, b: string)
    ensures a == b || Below(a, b) || Below(b, a)
    decreases |a|
  {
    if a != [] && b != [] && a[0] == b[0] {
      BelowTotal(a[1..], b[1..]);
      if a[1..] == b[1..] {
        assert a == [a[0]] + a[1..] && b == [b[0]] + b[1..];
      }
    }
  }

  lemma {:induction false} BelowAsymmetric(a: string, b: string)
    requires Below(a, b)
    ensures !Below(b, a) && a != b
    decreases |a|
  {
    if a != [] && b != [] && a[0] == b[0] {
      BelowAsymmetric(a[1..], b[1..]);
    }
    if a == b {
      BelowIrreflexive(a);
    }
  }

  lemma {:induction false} BelowTransitive(a: string, b: string, c: string)
    requires Below(a, b) && Below(b, c)
    ensures Below(a, c)
    decreases |a|
  {
    if a != [] && a[0] == b[0] && b[0] == c[0] {
      BelowTransitive(a[1..], b[1..], c[1..]);
    }
  }

  lemma AtMostTransitive(a: string, b: string, c: string)
    requires AtMost(a, b) && AtMost(b, c)
    ensures AtMost(a, c)
  {
    if a != b && b != c {
      BelowTransitive(a, b, c);
    }
  }

  /** Ascending under AtMost. */
  predicate Sorted(s: seq<string>)
  {
    forall i, j :: 0 <= i < j < |s| ==> AtMost(s[i], s[j])
  }

  /** Strictly ascending: sorted without repeats. */
  predicate Increasing(s: seq<string>)
  {
    forall i, j :: 0 <= i < j < |s| ==> Below(s[i], s[j])
  }

  /** A string at most the head of a sorted list may go in front of it. */
  lemma SortedCons(x: string, s: seq<string>)
    requires Sorted(s) && (s == [] || AtMost(x, s[0]))
    ensures Sorted([x] + s)
  {
    forall j | 0 <= j < |s| ensures AtMost(x, s[j]) {
      if j > 0 {
        AtMostTransitive(x, s[0], s[j]);
      }
    }
  }

  /** Below every element of rest means at most each of them. */
  lemma SortedAfterHead(h: string, x: string, s: seq<string>, rest: seq<string>)
    requires Sorted([h] + s) && Below(h, x) && multiset(rest) == multiset(s) + multiset{x}
    requires Sorted(rest)
    ensures Sorted([h] + rest)
  {
    var t := [h] + s;
    forall j | 0 <= j < |rest| ensures AtMost(h, rest[j]) {
      assert rest[j] in multiset(rest);
      if rest[j] != x {
        assert rest[j] in multiset(s);
        var k :| 0 <= k < |s| && s[k] == rest[j];
        assert t[0] == h && t[k + 1] == s[k];
      }
    }
  }

  /** x placed into sorted s after every element below it. */
  function Insert(x: string, s: seq<string>): (r: seq<string>)
    requires Sorted(s)
    ensures multiset(r) == multiset(s) + multiset{x}
    ensures Sorted(r)
  {
    if s == [] then [x]
    else if AtMost(x, s[0]) then
      SortedCons(x, s);
      [x] + s
    else
      BelowTotal(x, s[0]);
      assert s == [s[0]] + s[1..];
      var rest := Insert(x, s[1..]);
      SortedAfterHead(s[0], x, s[1..], rest);
      [s[0]] + rest
  }

  /** sorted(s) for a list of strings. */
  function Sort(s: seq<string>): (r: seq<string>)
    ensures multiset(r) == multiset(s)
    ensures Sorted(r)
  {
    if s == [] then []
    else
      assert s == s[..|s| - 1] + [s[|s| - 1]];
      Insert(s[|s| - 1], Sort(s[..|s| - 1]))
  }

  /** The head of an ascending list is at most each of its elements. */
  lemma HeadLeast(s: seq<string>, x: string)
    requires Sorted(s) && x in multiset(s)
    ensures AtMost(s[0], x)
  {
    var k :| 0 <= k < |s| && s[k] == x;
  }

  lemma TailMultiset(s: seq<string>)
    requires s != []
    ensures multiset(s[1..]) == multiset(s) - multiset{s[0]}
  {
    assert s == [s[0]] + s[1..];
  }

  /** Two ascending arrangements of the same strings are the same list, so Sort is sorted() whatever algorithm computes it. */
  lemma {:induction false} SortedUnique(a: seq<string>, b: seq<string>)
    requires Sorted(a) && Sorted(b) && multiset(a) == multiset(b)
    ensures a == b
    decreases |a|
  {
    if a != [] {
      assert a[0] in multiset(a);
      assert b != [];
      assert b[0] in multiset(b);
      HeadLeast(a, b[0]);
      HeadLeast(b, a[0]);
      if a[0] != b[0] {
        BelowAsymmetric(a[0], b[0]);
        assert false;
      }
      TailMultiset(a);
      TailMultiset(b);
      SortedUnique(a[1..], b[1..]);
      assert a == [a[0]] + a[1..] && b == [b[0]] + b[1..];
    }
  }

  /** Sorting strings without repeats gives a strictly ascending list. */
  lemma SortedDistinctIncreasing(s: seq<string>)
    requires Sorted(s)
    requires forall i, j :: 0 <= i < j < |s| ==> s[i] != s[j]
    ensures Increasing(s)
  {
  }
  /** No string occurs twice. */
  predicate Distinct(s: seq<string>)
  {
    forall i, j :: 0 <= i < j < |s| ==> s[i] != s[j]
  }

  /** In a list without repeats every string occurs once or not at all. */
  lemma {:induction false} DistinctCount(s: seq<string>, x: string)
    requires Distinct(s)
    ensures multiset(s)[x] == if x in s then 1 else 0
    decreases |s|
  {
    if s != [] {
      var p := s[..|s| - 1];
      assert s == p + [s[|s| - 1]];
      DistinctCount(p, x);
    }
  }

  /** A string standing at two places is counted at least twice. */
  lemma RepeatCount(s: seq<string>, i: nat, j: nat)
    requires i < j < |s| && s[i] == s[j]
    ensures multiset(s)[s[i]] >= 2
  {
    assert s == s[..i] + [s[i]] + s[i + 1..j] + [s[j]] + s[j + 1..];
  }

  /** Sorting a list without repeats gives a strictly ascending list. */
  lemma SortDistinct(s: seq<string>)
    requires Distinct(s)
    ensures Distinct(Sort(s)) && Increasing(Sort(s))
  {
    var r := Sort(s);
    forall i, j | 0 <= i < j < |r| ensures r[i] != r[j] {
      if r[i] == r[j] {
        RepeatCount(r, i, j);
        DistinctCount(s, r[i]);
        assert false;
      }
    }
    SortedDistinctIncreasing(r);
  }

  /** Two lists without repeats holding the same strings sort to the same list. */
  lemma SameElementsSort(a: seq<string>, b: seq<string>)
    requires Distinct(a) && Distinct(b)
    requires forall x :: x in a <==> x in b
    ensures Sort(a) == Sort(b)
  {
    forall x ensures multiset(a)[x] == multiset(b)[x] {
      DistinctCount(a, x);
      DistinctCount(b, x);
    }
    assert multiset(a) == multiset(b);
    SortedUnique(Sort(a), Sort(b));
  }
}
