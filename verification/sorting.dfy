/**
  `Array.prototype.sort()` without a comparator on strings: ascending in the order that
  compares strings character by character, a proper prefix coming first.
 */
module Sorting {
  /** `a <= b` in the default string order. */
  predicate StrLe(a: string, b: string)
  {
    |a| == 0 || (|b| > 0 && (a[0] < b[0] || (a[0] == b[0] && StrLe(a[1..], b[1..]))))
  }

  lemma {:induction false} StrLeTotal(a: string, b: string)
    ensures StrLe(a, b) || StrLe(b, a)
  {
    if |a| > 0 && |b| > 0 && a[0] == b[0] {
      StrLeTotal(a[1..], b[1..]);
    }
  }

  lemma {:induction false} StrLeTrans(a: string, b: string, c: string)
    requires StrLe(a, b) && StrLe(b, c)
    ensures StrLe(a, c)
  {
    if |a| > 0 && a[0] == b[0] && b[0] == c[0] {
      StrLeTrans(a[1..], b[1..], c[1..]);
    }
  }

  predicate Sorted(s: seq<string>)
  {
    forall i, j :: 0 <= i < j < |s| ==> StrLe(s[i], s[j])
  }

  /** Insert `x` before the first element it does not follow. */
  function Insert(x: string, s: seq<string>): seq<string>
  {
    if |s| == 0 then [x]
    else if StrLe(x, s[0]) then [x] + s
    else [s[0]] + Insert(x, s[1..])
  }

  lemma {:induction false} InsertMultiset(x: string, s: seq<string>)
    ensures multiset(Insert(x, s)) == multiset(s) + multiset{x}
  {
    if |s| > 0 {
      assert s == [s[0]] + s[1..];
      if !StrLe(x, s[0]) {
        InsertMultiset(x, s[1..]);
      }
    }
  }

  /** Every element of the tail is after the head. */
  lemma HeadFirst(s: seq<string>, y: string)
    requires Sorted(s) && |s| > 0 && y in multiset(s[1..])
    ensures StrLe(s[0], y)
  {
    var j :| 0 <= j < |s[1..]| && s[1..][j] == y;
    assert s[j + 1] == y;
  }

  lemma {:induction false} InsertSorted(x: string, s: seq<string>)
    requires Sorted(s)
    ensures Sorted(Insert(x, s))
  {
    if |s| > 0 {
      if StrLe(x, s[0]) {
        forall j | 0 < j < |s| + 1 ensures StrLe(x, ([x] + s)[j]) {
          if j > 1 {
            StrLeTrans(x, s[0], s[j - 1]);
          }
        }
      } else {
        StrLeTotal(x, s[0]);
        InsertSorted(x, s[1..]);
        InsertMultiset(x, s[1..]);
        var r := Insert(x, s[1..]);
        forall j | 0 < j < |r| + 1 ensures StrLe(s[0], ([s[0]] + r)[j]) {
          var y := r[j - 1];
          assert y in multiset(r);
          if y != x {
            HeadFirst(s, y);
          }
        }
      }
    }
  }

  lemma InsertSpec(x: string, s: seq<string>)
    requires Sorted(s)
    ensures Sorted(Insert(x, s))
    ensures multiset(Insert(x, s)) == multiset(s) + multiset{x}
  {
    InsertSorted(x, s);
    InsertMultiset(x, s);
  }

  /** Insertion sort. */
  function Sort(s: seq<string>): seq<string>
  {
    if |s| == 0 then [] else Insert(s[0], Sort(s[1..]))
  }

  /** The result is ascending and holds the same strings, each as often. */
  lemma {:induction false} SortSpec(s: seq<string>)
    ensures Sorted(Sort(s))
    ensures multiset(Sort(s)) == multiset(s)
  {
    if |s| > 0 {
      SortSpec(s[1..]);
      InsertSpec(s[0], Sort(s[1..]));
      assert s == [s[0]] + s[1..];
    }
  }
}
