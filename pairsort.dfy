/**
  Python's ordering of strings and of (key, value) tuples, and the sort the
  signer applies to the query parameters (`params.sort()`). The sort is
  specified by "sorted and a permutation", and the order is total, so the
  sorted list is unique: any correct sort gives the same canonical query.
*/
module PairSort {

  /** Python's `a < b` on `str`: lexicographic by code point, a proper prefix before the longer string. */
  predicate StrLess(a: string, b: string)
    decreases |a|
  {
    |b| > 0 && (|a| == 0 || a[0] < b[0] || (a[0] == b[0] && StrLess(a[1..], b[1..])))
  }

  lemma {:induction false} StrLessIrreflexive(a: string)
    ensures !StrLess(a, a)
    decreases |a|
  {
    if |a| > 0 {
      StrLessIrreflexive(a[1..]);
    }
  }

  lemma {:induction false} StrLessTransitive(a: string, b: string, c: string)
    requires StrLess(a, b) && StrLess(b, c)
    ensures StrLess(a, c)
    decreases |a|
  {
    if |a| > 0 && a[0] == b[0] && b[0] == c[0] {
      StrLessTransitive(a[1..], b[1..], c[1..]);
    }
  }

  lemma {:induction false} StrLessTotal(a: string, b: string)
    ensures a == b || StrLess(a, b) || StrLess(b, a)
    decreases |a|
  {
    if |a| > 0 && |b| > 0 && a[0] == b[0] {
      StrLessTotal(a[1..], b[1..]);
      if a[1..] == b[1..] {
        assert a == [a[0]] + a[1..] && b == [b[0]] + b[1..];
      }
    }
  }

  lemma StrLessAsymmetric(a: string, b: string)
    requires StrLess(a, b)
    ensures !StrLess(b, a)
  {
    if StrLess(b, a) {
      StrLessTransitive(a, b, a);
      StrLessIrreflexive(a);
    }
  }

  type Pair = (string, string)

  /** Python's `p <= q` on 2-tuples of strings: by key, then by value. */
  predicate PairLessEq(p: Pair, q: Pair)
  {
    StrLess(p.0, q.0) || (p.0 == q.0 && (p.1 == q.1 || StrLess(p.1, q.1)))
  }

  lemma PairTransitive(p: Pair, q: Pair, s: Pair)
    requires PairLessEq(p, q) && PairLessEq(q, s)
    ensures PairLessEq(p, s)
  {
    if StrLess(p.0, q.0) && StrLess(q.0, s.0) {
      StrLessTransitive(p.0, q.0, s.0);
    } else if p.0 == q.0 && q.0 == s.0 && StrLess(p.1, q.1) && StrLess(q.1, s.1) {
      StrLessTransitive(p.1, q.1, s.1);
    }
  }

  lemma PairTotal(p: Pair, q: Pair)
    ensures PairLessEq(p, q) || PairLessEq(q, p)
  {
    StrLessTotal(p.0, q.0);
    StrLessTotal(p.1, q.1);
  }

  lemma PairAntisymmetric(p: Pair, q: Pair)
    requires PairLessEq(p, q) && PairLessEq(q, p)
    ensures p == q
  {
    if StrLess(p.0, q.0) {
      StrLessAsymmetric(p.0, q.0);
    } else if StrLess(q.0, p.0) {
      StrLessAsymmetric(q.0, p.0);
    } else if StrLess(p.1, q.1) {
      StrLessAsymmetric(p.1, q.1);
    }
  }

  predicate Sorted(ps: seq<Pair>)
  {
    forall i, j :: 0 <= i < j < |ps| ==> PairLessEq(ps[i], ps[j])
  }

  lemma SortedCons(x: Pair, r: seq<Pair>)
    requires Sorted(r)
    requires forall y :: y in r ==> PairLessEq(x, y)
    ensures Sorted([x] + r)
  {
    var s := [x] + r;
    forall i, j | 0 <= i < j < |s| ensures PairLessEq(s[i], s[j]) {
      if i == 0 {
        assert s[j] == r[j - 1];
      } else {
        assert s[i] == r[i - 1] && s[j] == r[j - 1];
      }
    }
  }

  /** Inserts `p` after every element that is smaller than it. */
  function Insert(p: Pair, ps: seq<Pair>): seq<Pair>
  {
    if |ps| == 0 then [p]
    else if PairLessEq(p, ps[0]) then [p] + ps
    else [ps[0]] + Insert(p, ps[1..])
  }

  lemma {:induction false} InsertSorted(p: Pair, ps: seq<Pair>)
    requires Sorted(ps)
    ensures Sorted(Insert(p, ps))
    ensures multiset(Insert(p, ps)) == multiset(ps) + multiset{p}
  {
    if |ps| == 0 {
    } else if PairLessEq(p, ps[0]) {
      forall y | y in ps ensures PairLessEq(p, y) {
        var k :| 0 <= k < |ps| && ps[k] == y;
        if k > 0 {
          PairTransitive(p, ps[0], ps[k]);
        }
      }
      SortedCons(p, ps);
    } else {
      var tail := ps[1..];
      assert Sorted(tail);
      InsertSorted(p, tail);
      PairTotal(p, ps[0]);
      var r := Insert(p, tail);
      forall y | y in r ensures PairLessEq(ps[0], y) {
        assert y in multiset(r);
        if y != p {
          assert y in multiset(tail);
          var k :| 0 <= k < |tail| && tail[k] == y;
          assert ps[k + 1] == y;
        }
      }
      SortedCons(ps[0], r);
      assert ps == [ps[0]] + tail;
    }
  }

  lemma MultisetCons(a: seq<Pair>)
    requires |a| > 0
    ensures multiset(a) == multiset(a[1..]) + multiset{a[0]}
  {
    assert a == [a[0]] + a[1..];
  }

  /** `params.sort()`: the pairs in ascending tuple order, as a permutation of the input. */
  function Sort(ps: seq<Pair>): (r: seq<Pair>)
    ensures Sorted(r)
    ensures multiset(r) == multiset(ps)
  {
    if |ps| == 0 then []
    else
      var rest := Sort(ps[1..]);
      InsertSorted(ps[0], rest);
      MultisetCons(ps);
      Insert(ps[0], rest)
  }

  /** The head of a sorted list is at most every element of it. */
  lemma SortedHeadIsLeast(a: seq<Pair>, x: Pair)
    requires Sorted(a) && x in multiset(a)
    ensures PairLessEq(a[0], x)
  {
    var i :| 0 <= i < |a| && a[i] == x;
    if i == 0 {
      PairTotal(x, x);
    }
  }

  lemma MultisetTail(a: seq<Pair>)
    requires |a| > 0
    ensures multiset(a[1..]) == multiset(a) - multiset{a[0]}
  {
    assert a == [a[0]] + a[1..];
  }

  lemma SortedTail(a: seq<Pair>)
    requires Sorted(a) && |a| > 0
    ensures Sorted(a[1..])
  {
    forall i, j | 0 <= i < j < |a| - 1 ensures PairLessEq(a[1..][i], a[1..][j]) {
      assert a[1..][i] == a[i + 1] && a[1..][j] == a[j + 1];
    }
  }

  /** Two sorted permutations of the same non-empty pairs start with the same pair. */
  lemma SameHead(a: seq<Pair>, b: seq<Pair>)
    requires Sorted(a) && Sorted(b) && multiset(a) == multiset(b) && |a| > 0
    ensures |b| > 0 && a[0] == b[0]
  {
    assert a[0] in multiset(b);
    assert b[0] in multiset(a);
    SortedHeadIsLeast(b, a[0]);
    SortedHeadIsLeast(a, b[0]);
    PairAntisymmetric(a[0], b[0]);
  }

  /** Two sorted permutations of the same pairs are the same list. */
  lemma {:induction false} SortedUnique(a: seq<Pair>, b: seq<Pair>)
    requires Sorted(a) && Sorted(b)
    requires multiset(a) == multiset(b)
    ensures a == b
    decreases |a|
  {
    if |a| == 0 {
      assert |multiset(b)| == 0;
    } else {
      SameHead(a, b);
      MultisetTail(a);
      MultisetTail(b);
      SortedTail(a);
      SortedTail(b);
      SortedUnique(a[1..], b[1..]);
      assert a == [a[0]] + a[1..];
      assert b == [b[0]] + b[1..];
    }
  }

  /** Whatever sort produced a sorted permutation, it is `Sort`'s result. */
  lemma SortIsCanonical(ps: seq<Pair>, r: seq<Pair>)
    requires Sorted(r) && multiset(r) == multiset(ps)
    ensures r == Sort(ps)
  {
    SortedUnique(r, Sort(ps));
  }
}
