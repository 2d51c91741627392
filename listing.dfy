/** The order `sort.Strings` puts registry keys in, and a sort that
    produces it. Go compares strings byte by byte in UTF-8, which orders
    them exactly as comparing their characters' code points does. */
module Listing {

  /** Lexicographic "strictly before" on strings. */
  predicate Less(a: string, b: string)
    decreases |a|
  {
    if a == [] then b != []
    else if b == [] then false
    else if a[0] != b[0] then a[0] < b[0]
    else Less(a[1..], b[1..])
  }

  lemma {:induction false} LessIrreflexive(a: string)
    ensures !Less(a, a)
    decreases |a|
  {
    if a != [] { LessIrreflexive(a[1..]); }
  }

  lemma {:induction false} LessTransitive(a: string, b: string, c: string)
    requires Less(a, b) && Less(b, c)
    ensures Less(a, c)
    decreases |a|
  {
    if a != [] && b != [] && c != [] && a[0] == b[0] && b[0] == c[0] {
      LessTransitive(a[1..], b[1..], c[1..]);
    }
  }

  /** Distinct strings are always ordered one way or the other, and never both. */
  lemma {:induction false} LessTotal(a: string, b: string)
    requires a != b
    ensures Less(a, b) != Less(b, a)
    decreases |a|
  {
    if a != [] && b != [] && a[0] == b[0] {
      assert a == [a[0]] + a[1..] && b == [b[0]] + b[1..];
      LessTotal(a[1..], b[1..]);
    }
  }

  /** Every element is strictly before every later one. */
  ghost predicate StrictlySorted(s: seq<string>) {
    forall i, j :: 0 <= i < j < |s| ==> Less(s[i], s[j])
  }

  ghost predicate Distinct(s: seq<string>) {
    forall i, j :: 0 <= i < j < |s| ==> s[i] != s[j]
  }

  /** Puts x in front of the first element it is before. */
  function Insert(s: seq<string>, x: string): (r: seq<string>)
    ensures multiset(r) == multiset(s) + multiset{x}
  {
    if s == [] || Less(x, s[0]) then [x] + s
    else
      assert s == [s[0]] + s[1..];
      [s[0]] + Insert(s[1..], x)
  }

  /** An insertion sort: the model of `sort.Strings`. */
  function SortStrings(s: seq<string>): (r: seq<string>)
    ensures multiset(r) == multiset(s)
  {
    if s == [] then []
    else
      assert s == [s[0]] + s[1..];
      Insert(SortStrings(s[1..]), s[0])
  }

  lemma {:induction false} InsertSorted(s: seq<string>, x: string)
    requires StrictlySorted(s) && x !in s
    ensures StrictlySorted(Insert(s, x))
  {
    var r := Insert(s, x);
    if s == [] {
    } else if Less(x, s[0]) {
      forall i, j | 0 <= i < j < |r| ensures Less(r[i], r[j]) {
        if i == 0 && j > 1 { LessTransitive(x, s[0], s[j - 1]); }
      }
    } else {
      LessTotal(x, s[0]);
      var t := Insert(s[1..], x);
      InsertSorted(s[1..], x);
      assert r == [s[0]] + t;
      forall k | 0 <= k < |t| ensures Less(s[0], t[k]) {
        assert t[k] in multiset(t);
        if t[k] != x {
          var m :| 1 <= m < |s| && s[m] == t[k];
        }
      }
    }
  }

  /** Sorting distinct keys yields them in strictly ascending order. */
  lemma {:induction false} SortStringsSorted(s: seq<string>)
    requires Distinct(s)
    ensures StrictlySorted(SortStrings(s))
  {
    if s != [] {
      SortStringsSorted(s[1..]);
      var t, x := SortStrings(s[1..]), s[0];
      assert x !in s[1..];
      assert x !in multiset(t);
      InsertSorted(t, x);
    }
  }

  /** Sorting keeps exactly the elements it was given, and their number. */
  lemma SortStringsKeeps(s: seq<string>)
    ensures |SortStrings(s)| == |s|
    ensures forall k :: k in SortStrings(s) <==> k in s
  {
    var r := SortStrings(s);
    assert |multiset(r)| == |multiset(s)|;
    forall k ensures k in r <==> k in s {
      assert k in r <==> k in multiset(r);
      assert k in s <==> k in multiset(s);
    }
  }

  /** A strictly sorted sequence is fixed by its elements: the listing
      does not depend on the order the keys were collected in. */
  lemma {:induction false} SortedUnique(a: seq<string>, b: seq<string>)
    requires StrictlySorted(a) && StrictlySorted(b)
    requires forall x :: x in a <==> x in b
    ensures a == b
    decreases |a|
  {
    if a == [] {
      assert forall i :: 0 <= i < |b| ==> b[i] in b;
    } else {
      assert a[0] in a;
      assert b[0] in b;
      if a[0] != b[0] {
        var j :| 0 <= j < |b| && b[j] == a[0];
        var k :| 0 <= k < |a| && a[k] == b[0];
        LessTransitive(a[0], b[0], a[0]);
        LessIrreflexive(a[0]);
      }
      forall x ensures x in a[1..] <==> x in b[1..] {
        if x in a[1..] {
          var k :| 1 <= k < |a| && a[k] == x;
          assert x in a;
          var j :| 0 <= j < |b| && b[j] == x;
          if j == 0 { LessIrreflexive(x); }
        }
        if x in b[1..] {
          var j :| 1 <= j < |b| && b[j] == x;
          assert x in b;
          var k :| 0 <= k < |a| && a[k] == x;
          if k == 0 { LessIrreflexive(x); }
        }
      }
      SortedUnique(a[1..], b[1..]);
      assert a == [a[0]] + a[1..] && b == [b[0]] + b[1..];
    }
  }
}
