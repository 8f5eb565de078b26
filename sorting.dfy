/**
 * What the solvers need of `slice::sort_by` and of `Itertools::combinations(2)`:
 * an insertion sort proved to return a sorted permutation, and the index pairs
 * `i < j` in the order the combinations come out.
 */
module Sorting {

  /** A comparator `sort_by` can use: every two values are ordered, transitively. */
  ghost predicate TotalPreorder<T(!new)>(le: (T, T) -> bool)
  {
    && (forall a, b :: le(a, b) || le(b, a))
    && (forall a, b, c :: le(a, b) && le(b, c) ==> le(a, c))
  }

  predicate SortedBy<T>(s: seq<T>, le: (T, T) -> bool)
  {
    forall i, j :: 0 <= i < j < |s| ==> le(s[i], s[j])
  }

  /** Insert `x` into sorted `s` after every element it does not precede (so equal keys keep their order). */
  function InsertSorted<T>(x: T, s: seq<T>, le: (T, T) -> bool): (r: seq<T>)
    decreases |s|
  {
    if |s| == 0 || le(s[|s| - 1], x) then s + [x]
    else InsertSorted(x, s[..|s| - 1], le) + [s[|s| - 1]]
  }

  lemma {:induction false} InsertSortedCorrect<T(!new)>(x: T, s: seq<T>, le: (T, T) -> bool)
    requires TotalPreorder(le) && SortedBy(s, le)
    ensures SortedBy(InsertSorted(x, s, le), le)
    ensures multiset(InsertSorted(x, s, le)) == multiset(s) + multiset{x}
    decreases |s|
  {
    if |s| == 0 {
    } else if le(s[|s| - 1], x) {
      forall i | 0 <= i < |s| ensures le(s[i], x) {
        if i < |s| - 1 {
          assert le(s[i], s[|s| - 1]);
        }
      }
    } else {
      var init, last := s[..|s| - 1], s[|s| - 1];
      assert s == init + [last];
      assert le(x, last);
      InsertSortedCorrect(x, init, le);
      var r' := InsertSorted(x, init, le);
      forall i | 0 <= i < |r'| ensures le(r'[i], last) {
        assert r'[i] in multiset(r');
        if r'[i] != x {
          assert r'[i] in multiset(init);
          var k :| 0 <= k < |init| && init[k] == r'[i];
          assert le(s[k], s[|s| - 1]);
        }
      }
      SortedSnoc(r', last, le);
    }
  }

  lemma SortedSnoc<T>(s: seq<T>, x: T, le: (T, T) -> bool)
    requires SortedBy(s, le)
    requires forall i :: 0 <= i < |s| ==> le(s[i], x)
    ensures SortedBy(s + [x], le)
  {
  }

  /** `sort_by` on a vector: the result is sorted by `le` and a permutation of the input. */
  method Sort<T(!new)>(s: seq<T>, le: (T, T) -> bool) returns (r: seq<T>)
    requires TotalPreorder(le)
    ensures SortedBy(r, le)
    ensures multiset(r) == multiset(s)
  {
    r := [];
    for i := 0 to |s|
      invariant SortedBy(r, le)
      invariant multiset(r) == multiset(s[..i])
    {
      InsertSortedCorrect(s[i], r, le);
      r := InsertSorted(s[i], r, le);
      assert s[..i + 1] == s[..i] + [s[i]];
    }
    assert s[..|s|] == s;
  }

  // ---------------------------------------------------------------------------
  // Index pairs

  /** The pairs `(i, j)` with `from <= i < j < n`, ordered by `i` then `j`. */
  function IndexPairs(n: nat, from: nat): (r: seq<(nat, nat)>)
    decreases n - from
  {
    if from >= n then []
    else seq(n - from - 1, k requires 0 <= k < n - from - 1 => (from, from + 1 + k)) + IndexPairs(n, from + 1)
  }

  /** Lexicographic order on index pairs. */
  predicate PairBefore(p: (nat, nat), q: (nat, nat))
  {
    p.0 < q.0 || (p.0 == q.0 && p.1 < q.1)
  }

  lemma {:induction false} IndexPairsCount(n: nat, from: nat)
    ensures from <= n ==> |IndexPairs(n, from)| == (n - from) * (n - from - 1) / 2
    decreases n - from
  {
    if from < n {
      IndexPairsCount(n, from + 1);
      var m := n - from;
      assert m * (m - 1) / 2 == (m - 1) + (m - 1) * (m - 2) / 2 by {
        assert m * (m - 1) == 2 * (m - 1) + (m - 1) * (m - 2);
      }
    }
  }

  /** Exactly the pairs `from <= i < j < n` occur. */
  lemma {:induction false} IndexPairsMember(n: nat, from: nat, p: (nat, nat))
    ensures p in IndexPairs(n, from) <==> from <= p.0 < p.1 < n
    decreases n - from
  {
    if from < n {
      IndexPairsMember(n, from + 1, p);
      var row := seq(n - from - 1, k requires 0 <= k < n - from - 1 => (from, from + 1 + k));
      if p.0 == from && p.0 < p.1 < n {
        assert row[p.1 - from - 1] == p;
      }
    }
  }

  /** The pairs come out in strictly increasing order, so none occurs twice. */
  lemma {:induction false} IndexPairsIncreasing(n: nat, from: nat)
    ensures var r := IndexPairs(n, from);
      forall a, b :: 0 <= a < b < |r| ==> PairBefore(r[a], r[b])
    decreases n - from
  {
    if from < n {
      IndexPairsIncreasing(n, from + 1);
      var r := IndexPairs(n, from);
      var rowLen := n - from - 1;
      var rest := IndexPairs(n, from + 1);
      forall a, b | 0 <= a < b < |r| ensures PairBefore(r[a], r[b]) {
        if b >= rowLen {
          IndexPairsMember(n, from + 1, r[b]);
          assert r[b] == rest[b - rowLen];
          assert r[b] in rest;
          if a >= rowLen {
            assert r[a] == rest[a - rowLen];
          }
        }
      }
    }
  }

  /** The pairs `(s[i], s[j])` for one `i` and every `j > i`. */
  function RowPairs<T>(s: seq<T>, i: nat): (r: seq<(T, T)>)
    requires i < |s|
    ensures |r| == |s| - i - 1
    ensures forall k :: 0 <= k < |r| ==> r[k] == (s[i], s[i + 1 + k])
  {
    seq(|s| - i - 1, k requires 0 <= k < |s| - i - 1 => (s[i], s[i + 1 + k]))
  }

  /** The pairs `(s[i], s[j])` with `from <= i < j`, row by row. */
  function PairsFrom<T>(s: seq<T>, from: nat): seq<(T, T)>
    decreases |s| - from
  {
    if from >= |s| then [] else RowPairs(s, from) + PairsFrom(s, from + 1)
  }

  /** `combinations(2)` of a sequence: `(s[i], s[j])` for every `i < j`, in index order. */
  function Pairs<T>(s: seq<T>): seq<(T, T)>
  {
    PairsFrom(s, 0)
  }

  /** Entry `k` of the pairs is the pair of elements at the `k`-th index pair. */
  lemma {:induction false} PairsFromIndex<T>(s: seq<T>, from: nat)
    ensures |PairsFrom(s, from)| == |IndexPairs(|s|, from)|
    ensures forall k :: 0 <= k < |PairsFrom(s, from)| ==>
      var p := IndexPairs(|s|, from)[k]; from <= p.0 < p.1 < |s| && PairsFrom(s, from)[k] == (s[p.0], s[p.1])
    decreases |s| - from
  {
    if from < |s| {
      PairsFromIndex(s, from + 1);
      var row := RowPairs(s, from);
      var ix := IndexPairs(|s|, from);
      var rest := IndexPairs(|s|, from + 1);
      assert ix == seq(|s| - from - 1, k requires 0 <= k < |s| - from - 1 => (from, from + 1 + k)) + rest;
      var r := PairsFrom(s, from);
      assert r == row + PairsFrom(s, from + 1);
      forall k | 0 <= k < |r|
        ensures from <= ix[k].0 < ix[k].1 < |s| && r[k] == (s[ix[k].0], s[ix[k].1])
      {
        if k >= |row| {
          assert ix[k] == rest[k - |row|];
        }
      }
    }
  }

  /** There are n(n-1)/2 pairs, and `Pairs(s)[k]` is the pair at the `k`-th index pair `i < j`. */
  lemma PairsIndex<T>(s: seq<T>)
    ensures |Pairs(s)| == |IndexPairs(|s|, 0)| == |s| * (|s| - 1) / 2
    ensures forall k :: 0 <= k < |Pairs(s)| ==>
      var p := IndexPairs(|s|, 0)[k]; p.0 < p.1 < |s| && Pairs(s)[k] == (s[p.0], s[p.1])
  {
    PairsFromIndex(s, 0);
    IndexPairsCount(|s|, 0);
  }
}
