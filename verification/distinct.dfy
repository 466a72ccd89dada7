/**
  Removing repeated elements while keeping first occurrences in order, as the desktop
  script does with `a.filter((c, i) => a.indexOf(c) === i)` and with a "seen" object.
 */
module Distinct {
  /** `s.indexOf(x)`: the first position of `x`, or -1. */
  function IndexOf<T(==)>(s: seq<T>, x: T): (i: int)
    ensures -1 <= i < |s|
    ensures i >= 0 ==> s[i] == x && forall j :: 0 <= j < i ==> s[j] != x
    ensures i == -1 <==> x !in s
  {
    if |s| == 0 then -1
    else if s[0] == x then 0
    else
      var k := IndexOf(s[1..], x);
      assert forall j :: 1 <= j < |s| ==> s[j] == s[1..][j - 1];
      if k == -1 then -1 else k + 1
  }

  predicate NoDup<T(==)>(s: seq<T>)
  {
    forall i, j :: 0 <= i < j < |s| ==> s[i] != s[j]
  }

  /** Reference definition: walk the sequence and keep an element the first time it is seen. */
  function Dedup<T(==)>(s: seq<T>): seq<T>
  {
    if |s| == 0 then []
    else
      var acc := Dedup(s[..|s| - 1]);
      if s[|s| - 1] in acc then acc else acc + [s[|s| - 1]]
  }

  /** The kept elements are distinct, are exactly the elements of `s`, and come in the order of their first occurrences. */
  lemma {:induction false} DedupSpec<T>(s: seq<T>)
    ensures NoDup(Dedup(s))
    ensures forall x :: x in Dedup(s) <==> x in s
    ensures forall a, b :: 0 <= a < b < |Dedup(s)| ==> IndexOf(s, Dedup(s)[a]) < IndexOf(s, Dedup(s)[b])
  {
    if |s| > 0 {
      var init := s[..|s| - 1];
      var last := s[|s| - 1];
      DedupSpec(init);
      var acc := Dedup(init);
      assert forall x :: x in s <==> x in init || x == last;
      forall x | x in init ensures IndexOf(s, x) == IndexOf(init, x) {
        IndexOfPrefix(s, |s| - 1, x);
      }
      if last !in acc {
        assert IndexOf(s, last) == |s| - 1 by {
          IndexOfPrefix(s, |s| - 1, last);
        }
        forall a | 0 <= a < |acc| ensures IndexOf(s, acc[a]) < |s| - 1 {
          assert acc[a] in acc;
        }
      }
    }
  }

  /** Positions in a prefix are positions in the whole sequence. */
  lemma IndexOfPrefix<T>(s: seq<T>, n: nat, x: T)
    requires n <= |s|
    ensures x in s[..n] ==> IndexOf(s, x) == IndexOf(s[..n], x)
    ensures x !in s[..n] ==> IndexOf(s, x) == -1 || IndexOf(s, x) >= n
  {
    var i := IndexOf(s, x);
    if x in s[..n] {
      var k := IndexOf(s[..n], x);
      assert s[k] == x;
      assert i <= k;
      assert s[..n][i] == x;
    }
  }

  /** `s.filter((c, i, a) => a.indexOf(c) === i)` over the first `n` positions. */
  function FirstOccurrences<T(==)>(s: seq<T>, n: nat): seq<T>
    requires n <= |s|
  {
    if n == 0 then []
    else FirstOccurrences(s, n - 1) + (if IndexOf(s, s[n - 1]) == n - 1 then [s[n - 1]] else [])
  }

  /** The `indexOf` filter keeps exactly what the reference walk keeps. */
  lemma {:induction false} FirstOccurrencesDedup<T>(s: seq<T>, n: nat)
    requires n <= |s|
    ensures FirstOccurrences(s, n) == Dedup(s[..n])
  {
    if n > 0 {
      FirstOccurrencesDedup(s, n - 1);
      var init := s[..n][..n - 1];
      assert init == s[..n - 1];
      DedupSpec(init);
      IndexOfPrefix(s, n - 1, s[n - 1]);
      assert s[n - 1] in s[..n - 1] ==> s[n - 1] in init;
      if s[n - 1] !in s[..n - 1] {
        assert s[..n][..n - 1] == s[..n - 1];
        assert s[n - 1] in s;
      } else {
        var k := IndexOf(s[..n - 1], s[n - 1]);
        assert k < n - 1;
      }
    }
  }

  /** Without repeats every element occurs once. */
  lemma {:induction false} NoDupCount<T>(s: seq<T>, x: T)
    requires NoDup(s)
    ensures multiset(s)[x] <= 1
  {
    if |s| > 0 {
      assert s == [s[0]] + s[1..];
      assert NoDup(s[1..]) by {
        forall i, j | 0 <= i < j < |s[1..]| ensures s[1..][i] != s[1..][j] {
          assert s[1..][i] == s[i + 1] && s[1..][j] == s[j + 1];
        }
      }
      NoDupCount(s[1..], x);
      if s[0] == x {
        assert x !in s[1..] by {
          forall j | 0 <= j < |s[1..]| ensures s[1..][j] != x {
            assert s[1..][j] == s[j + 1];
          }
        }
      }
    }
  }

  /** A permutation of a sequence without repeats has none either. */
  lemma NoDupPermutation<T>(a: seq<T>, b: seq<T>)
    requires NoDup(a) && multiset(a) == multiset(b)
    ensures NoDup(b)
  {
    forall i, j | 0 <= i < j < |b| ensures b[i] != b[j] {
      if b[i] == b[j] {
        var x := b[i];
        assert b == b[..i] + [x] + b[i + 1..j] + [x] + b[j + 1..];
        assert multiset(b)[x] >= 2;
        NoDupCount(a, x);
        assert false;
      }
    }
  }
}
