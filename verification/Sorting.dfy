/** A stable sort by a given strict order, standing in for list sorting and for ORDER BY. */
module Sorting {

  /** Asymmetric, and "not before" is transitive: elements with equal keys may tie. */
  ghost predicate StrictWeak<T(!new)>(less: (T, T) -> bool) {
    && (forall a, b :: less(a, b) ==> !less(b, a))
    && (forall a, b, c :: !less(b, a) && !less(c, b) ==> !less(c, a))
  }

  /** Insert behind everything that is not after the new element. */
  function Insert<T>(less: (T, T) -> bool, s: seq<T>, x: T): seq<T> {
    if s == [] || !less(x, s[|s| - 1]) then s + [x] else Insert(less, s[..|s| - 1], x) + [s[|s| - 1]]
  }

  function Sort<T>(less: (T, T) -> bool, s: seq<T>): seq<T> {
    if s == [] then [] else Insert(less, Sort(less, s[..|s| - 1]), s[|s| - 1])
  }

  ghost predicate Sorted<T>(less: (T, T) -> bool, s: seq<T>) {
    forall i, j :: 0 <= i < j < |s| ==> !less(s[j], s[i])
  }

  ghost predicate StrictlySorted<T>(less: (T, T) -> bool, s: seq<T>) {
    forall i, j :: 0 <= i < j < |s| ==> less(s[i], s[j])
  }

  /** No two elements at different places tie. */
  ghost predicate Untied<T>(less: (T, T) -> bool, s: seq<T>) {
    forall i, j :: 0 <= i < j < |s| ==> less(s[i], s[j]) || less(s[j], s[i])
  }

  lemma {:induction false} InsertContents<T>(less: (T, T) -> bool, s: seq<T>, x: T)
    ensures multiset(Insert(less, s, x)) == multiset(s) + multiset{x}
    ensures forall i :: 0 <= i < |Insert(less, s, x)| ==> Insert(less, s, x)[i] == x || Insert(less, s, x)[i] in s
  {
    if s != [] && less(x, s[|s| - 1]) {
      var n := |s| - 1;
      assert s == s[..n] + [s[n]];
      InsertContents(less, s[..n], x);
    }
  }

  lemma {:induction false} InsertSorts<T(!new)>(less: (T, T) -> bool, s: seq<T>, x: T)
    requires StrictWeak(less) && Sorted(less, s)
    ensures Sorted(less, Insert(less, s, x))
  {
    if s != [] && less(x, s[|s| - 1]) {
      InsertSorts(less, s[..|s| - 1], x);
      InsertContents(less, s[..|s| - 1], x);
    } else {
      forall i | 0 <= i < |s| ensures !less(x, s[i]) {
        if i < |s| - 1 { assert !less(s[|s| - 1], s[i]); }
      }
    }
  }

  lemma {:induction false} SortContents<T>(less: (T, T) -> bool, s: seq<T>)
    ensures multiset(Sort(less, s)) == multiset(s)
  {
    if s != [] {
      var n := |s| - 1;
      SortContents(less, s[..n]);
      InsertContents(less, Sort(less, s[..n]), s[n]);
      assert s == s[..n] + [s[n]];
    }
  }

  lemma {:induction false} SortSorts<T(!new)>(less: (T, T) -> bool, s: seq<T>)
    requires StrictWeak(less)
    ensures Sorted(less, Sort(less, s))
  {
    if s != [] {
      SortSorts(less, s[..|s| - 1]);
      InsertSorts(less, Sort(less, s[..|s| - 1]), s[|s| - 1]);
    }
  }

  lemma TwiceInSequence<T>(s: seq<T>, i: nat, j: nat)
    requires i < j < |s| && s[i] == s[j]
    ensures multiset(s)[s[i]] >= 2
  {
    assert s == s[..i] + [s[i]] + s[i + 1..j] + [s[j]] + s[j + 1..];
  }

  lemma OnceInSequence<T>(s: seq<T>, a: nat)
    requires a < |s| && forall i :: 0 <= i < |s| && i != a ==> s[i] != s[a]
    ensures multiset(s)[s[a]] == 1
  {
    assert s == s[..a] + [s[a]] + s[a + 1..];
    assert s[a] !in s[..a] && s[a] !in s[a + 1..];
  }

  ghost predicate NoRepeats<T>(s: seq<T>) {
    forall i, j :: 0 <= i < j < |s| ==> s[i] != s[j]
  }

  /** Sorting keeps the elements and repeats none. */
  lemma SortPermutes<T(!new)>(less: (T, T) -> bool, s: seq<T>)
    ensures forall x :: x in Sort(less, s) <==> x in s
    ensures NoRepeats(s) ==> NoRepeats(Sort(less, s))
  {
    var r := Sort(less, s);
    SortContents(less, s);
    forall x ensures x in r <==> x in s {
      assert x in multiset(r) <==> x in multiset(s);
    }
    if NoRepeats(s) {
      forall i, j | 0 <= i < j < |r| ensures r[i] != r[j] {
        if r[i] == r[j] {
          TwiceInSequence(r, i, j);
          assert r[i] in s;
          var a :| 0 <= a < |s| && s[a] == r[i];
          OnceInSequence(s, a);
          assert false;
        }
      }
    }
  }

  /** Cutting a sorted sequence leaves nothing behind that comes before what is kept. */
  lemma CutSorted<T>(less: (T, T) -> bool, s: seq<T>, n: nat)
    requires Sorted(less, s) && n <= |s|
    ensures Sorted(less, s[..n])
    ensures multiset(s[..n]) + multiset(s[n..]) == multiset(s)
    ensures forall i, j :: 0 <= i < n && 0 <= j < |s| - n ==> !less(s[n..][j], s[..n][i])
  {
    assert s == s[..n] + s[n..];
    forall i, j | 0 <= i < n && 0 <= j < |s| - n ensures !less(s[n..][j], s[..n][i]) {
      assert s[n..][j] == s[n + j] && s[..n][i] == s[i];
    }
  }

  /** Without ties the result is strictly sorted and has the same elements. */
  lemma SortStrictly<T(!new)>(less: (T, T) -> bool, s: seq<T>)
    requires StrictWeak(less) && Untied(less, s)
    ensures StrictlySorted(less, Sort(less, s)) && forall x :: x in Sort(less, s) <==> x in s
  {
    var r := Sort(less, s);
    SortSorts(less, s);
    assert NoRepeats(s) by {
      forall i, j | 0 <= i < j < |s| ensures s[i] != s[j] { assert less(s[i], s[j]) || less(s[j], s[i]); }
    }
    SortPermutes(less, s);
    forall i, j | 0 <= i < j < |r| ensures less(r[i], r[j]) {
      assert r[i] in s && r[j] in s;
      var a :| 0 <= a < |s| && s[a] == r[i];
      var b :| 0 <= b < |s| && s[b] == r[j];
      assert a != b;
    }
  }

  /** A strictly sorted sequence is determined by its elements. */
  lemma {:induction false} StrictlySortedUnique<T(!new)>(less: (T, T) -> bool, a: seq<T>, b: seq<T>)
    requires StrictWeak(less) && StrictlySorted(less, a) && StrictlySorted(less, b)
    requires forall x :: x in a <==> x in b
    ensures a == b
  {
    assert b != [] ==> b[0] in a;
    if a != [] {
      assert a[0] in b;
      var k :| 0 <= k < |b| && b[k] == a[0];
      var m :| 0 <= m < |a| && a[m] == b[0];
      assert k == 0 && m == 0;
      forall x ensures x in a[1..] <==> x in b[1..] {
        assert x in a <==> x == a[0] || x in a[1..];
        assert x in b <==> x == b[0] || x in b[1..];
        assert a[0] !in a[1..] && b[0] !in b[1..];
      }
      StrictlySortedUnique(less, a[1..], b[1..]);
    }
  }
}
