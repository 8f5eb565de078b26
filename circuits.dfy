/**
 * Junction-box circuits (2025/day8): boxes are joined pairwise, closest pair
 * first; each box records the circuit it belongs to and each circuit its
 * size, and joining two circuits relabels every box of one of them.
 */
module Circuits {
  import opened Sorting
  import opened MapSums
  import opened Numbers

  /** A junction box: three coordinates and its line number in the input. */
  datatype JunctionBox = JunctionBox(x: nat, y: nat, z: nat, id: nat)

  /** Two boxes sit at the same place. */
  predicate SamePlace(j1: JunctionBox, j2: JunctionBox)
  {
    j1.x == j2.x && j1.y == j2.y && j1.z == j2.z
  }

  /** `dist_squared`: the squared Euclidean distance between two boxes. */
  function DistSquared(j1: JunctionBox, j2: JunctionBox): (d: nat)
    ensures d == (j1.x - j2.x) * (j1.x - j2.x) + (j1.y - j2.y) * (j1.y - j2.y) + (j1.z - j2.z) * (j1.z - j2.z)
  {
    AbsDiff(j1.x, j2.x) * AbsDiff(j1.x, j2.x) + AbsDiff(j1.y, j2.y) * AbsDiff(j1.y, j2.y)
    + AbsDiff(j1.z, j2.z) * AbsDiff(j1.z, j2.z)
  }

  lemma SquareZero(a: nat)
    ensures a * a == 0 <==> a == 0
  {
    if a != 0 {
      assert a * a >= a;
    }
  }

  /** The distance does not depend on the order of the boxes, and it is 0 exactly for boxes at the same place. */
  lemma DistSquaredProperties(j1: JunctionBox, j2: JunctionBox)
    ensures DistSquared(j1, j2) == DistSquared(j2, j1)
    ensures DistSquared(j1, j2) == 0 <==> SamePlace(j1, j2)
  {
    var dx, dy, dz := AbsDiff(j1.x, j2.x), AbsDiff(j1.y, j2.y), AbsDiff(j1.z, j2.z);
    SquareZero(dx);
    SquareZero(dy);
    SquareZero(dz);
    assert dx * dx >= 0 && dy * dy >= 0 && dz * dz >= 0;
  }

  // ---------------------------------------------------------------------------
  // Sorted connections

  /** The comparator of `get_sorted_connections`: the first pair is no farther apart. */
  predicate Closer(p: (JunctionBox, JunctionBox), q: (JunctionBox, JunctionBox))
  {
    DistSquared(p.0, p.1) <= DistSquared(q.0, q.1)
  }

  lemma CloserTotal()
    ensures TotalPreorder(Closer)
  {
  }

  /** The nested loops of `get_sorted_connections`: every pair `(boxes[i], boxes[j])`, `i < j`, in index order. */
  method ListPairs(boxes: seq<JunctionBox>) returns (pairs: seq<(JunctionBox, JunctionBox)>)
    ensures pairs == Pairs(boxes)
  {
    pairs := [];
    for i := 0 to |boxes|
      invariant pairs + PairsFrom(boxes, i) == Pairs(boxes)
    {
      NextRow(boxes, i, pairs);
      pairs := PushRow(boxes, i, pairs);
    }
  }

  lemma NextRow<T>(s: seq<T>, i: nat, done: seq<(T, T)>)
    requires i < |s| && done + PairsFrom(s, i) == Pairs(s)
    ensures (done + RowPairs(s, i)) + PairsFrom(s, i + 1) == Pairs(s)
  {
  }

  /** The inner loop: push `(boxes[i], boxes[j])` for every `j > i`. */
  method PushRow(boxes: seq<JunctionBox>, i: nat, pairs: seq<(JunctionBox, JunctionBox)>)
    returns (pairs': seq<(JunctionBox, JunctionBox)>)
    requires i < |boxes|
    ensures pairs' == pairs + RowPairs(boxes, i)
  {
    pairs' := pairs;
    for j := i + 1 to |boxes|
      invariant pairs' == pairs + RowPairs(boxes, i)[..j - i - 1]
    {
      assert RowPairs(boxes, i)[..j - i] == RowPairs(boxes, i)[..j - i - 1] + [(boxes[i], boxes[j])];
      pairs' := pairs' + [(boxes[i], boxes[j])];
    }
    assert RowPairs(boxes, i)[..|boxes| - i - 1] == RowPairs(boxes, i);
  }

  /** The box pairs reduced to their ids, as the final `map` does. */
  function IdPairs(sorted: seq<(JunctionBox, JunctionBox)>): (r: seq<(nat, nat)>)
    ensures |r| == |sorted|
  {
    seq(|sorted|, k requires 0 <= k < |sorted| => (sorted[k].0.id, sorted[k].1.id))
  }

  /** `sorted` holds every pair of boxes once and lists them closest first. */
  ghost predicate ConnectionOrder(boxes: seq<JunctionBox>, sorted: seq<(JunctionBox, JunctionBox)>)
  {
    multiset(sorted) == multiset(Pairs(boxes)) && SortedBy(sorted, Closer)
  }

  /**
   * `get_sorted_connections`: the n(n-1)/2 pairs of boxes, sorted by squared
   * distance, as id pairs. Pairs at equal distance come in an order the model
   * leaves open. The source's capacity request `n * n - 1` underflows, and so
   * panics, for an empty box list.
   */
  method GetSortedConnections(boxes: seq<JunctionBox>) returns (r: seq<(nat, nat)>)
    requires |boxes| >= 1
    ensures |r| == |boxes| * (|boxes| - 1) / 2
    ensures exists sorted :: ConnectionOrder(boxes, sorted) && r == IdPairs(sorted)
  {
    var pairs := ListPairs(boxes);
    CloserTotal();
    var sorted := Sort(pairs, Closer);
    r := IdPairs(sorted);
    assert ConnectionOrder(boxes, sorted);
    PairsIndex(boxes);
    assert |sorted| == |multiset(sorted)| == |pairs|;
  }

  // ---------------------------------------------------------------------------
  // Circuit bookkeeping

  /** The boxes mapped to circuit `c`. */
  function Members(circuitOf: map<nat, nat>, c: nat): set<nat>
  {
    set id | id in circuitOf && circuitOf[id] == c
  }

  /** Every box's circuit has a size, and each size counts the boxes in that circuit. */
  ghost predicate Consistent(circuitOf: map<nat, nat>, sizes: map<nat, nat>)
  {
    && (forall id :: id in circuitOf ==> circuitOf[id] in sizes)
    && (forall c :: c in sizes ==> sizes[c] == |Members(circuitOf, c)|)
  }

  /** Every box of circuit `from` moves to circuit `to`. */
  function Relabel(circuitOf: map<nat, nat>, from: nat, to: nat): (r: map<nat, nat>)
    ensures r.Keys == circuitOf.Keys
    ensures forall id :: id in r ==> r[id] == if circuitOf[id] == from then to else circuitOf[id]
  {
    map id | id in circuitOf :: if circuitOf[id] == from then to else circuitOf[id]
  }

  /** The sizes after merging circuit `from` into circuit `to`. */
  function MergeSizes(sizes: map<nat, nat>, from: nat, to: nat): (r: map<nat, nat>)
    requires from in sizes
    ensures r.Keys == sizes.Keys
    ensures to != from ==> r[from] == 0
    ensures to != from && to in sizes ==> r[to] == sizes[to] + sizes[from]
    ensures forall c :: c in r && c != from && c != to ==> r[c] == sizes[c]
  {
    var added := if to in sizes then sizes[to := sizes[to] + sizes[from]] else sizes;
    added[from := 0]
  }

  /** Relabelling moves the members of `from` into `to` and leaves every other circuit alone. */
  lemma RelabelMembers(circuitOf: map<nat, nat>, from: nat, to: nat, c: nat)
    requires from != to
    ensures Members(Relabel(circuitOf, from, to), c)
            == if c == from then {}
               else if c == to then Members(circuitOf, to) + Members(circuitOf, from)
               else Members(circuitOf, c)
  {
  }

  /** Merging two different circuits keeps the sizes consistent with the labels. */
  lemma MergeConsistent(circuitOf: map<nat, nat>, sizes: map<nat, nat>, from: nat, to: nat)
    requires Consistent(circuitOf, sizes) && from in sizes && to in sizes && from != to
    ensures Consistent(Relabel(circuitOf, from, to), MergeSizes(sizes, from, to))
  {
    var m', s' := Relabel(circuitOf, from, to), MergeSizes(sizes, from, to);
    forall c | c in s' ensures s'[c] == |Members(m', c)| {
      RelabelMembers(circuitOf, from, to, c);
      if c == to {
        assert Members(circuitOf, to) * Members(circuitOf, from) == {};
      }
    }
  }

  /** Merging moves the size of one circuit onto another, so the total does not change. */
  lemma MergeSum(sizes: map<nat, nat>, from: nat, to: nat)
    requires from in sizes && to in sizes && from != to
    ensures Sum(MergeSizes(sizes, from, to)) == Sum(sizes)
  {
    assert MergeSizes(sizes, from, to) == sizes[to := sizes[to] + sizes[from]][from := 0];
    SumMove(sizes, from, to);
  }


  /** `make_connection`'s merge keeps the bookkeeping consistent and the total size unchanged. */
  lemma MergeStep(circuitOf: map<nat, nat>, sizes: map<nat, nat>, id1: nat, from: nat)
    requires id1 in circuitOf && from in sizes && circuitOf[id1] != from
    ensures Consistent(circuitOf, sizes) ==>
              Consistent(Relabel(circuitOf, from, circuitOf[id1]), MergeSizes(sizes, from, circuitOf[id1]))
              && Sum(MergeSizes(sizes, from, circuitOf[id1])) == Sum(sizes)
  {
    if Consistent(circuitOf, sizes) {
      MergeConsistent(circuitOf, sizes, from, circuitOf[id1]);
      MergeSum(sizes, from, circuitOf[id1]);
    }
  }

  /** Under consistent sizes, a circuit has a non-zero size exactly when some box belongs to it. */
  lemma NonzeroIffOccupied(circuitOf: map<nat, nat>, sizes: map<nat, nat>, c: nat)
    requires Consistent(circuitOf, sizes) && c in sizes
    ensures sizes[c] != 0 <==> exists id :: id in circuitOf && circuitOf[id] == c
  {
    if sizes[c] != 0 {
      var id :| id in Members(circuitOf, c);
    } else {
      assert Members(circuitOf, c) == {};
      forall id | id in circuitOf ensures circuitOf[id] != c {
        assert id !in Members(circuitOf, c);
      }
    }
  }

  /** A map in which every value is 1 sums to its number of keys. */
  lemma {:induction false} SumOfOnes(m: map<nat, nat>)
    requires forall k :: k in m ==> m[k] == 1
    ensures Sum(m) == |m|
    decreases |m|
  {
    if |m| == 0 {
      SumEmpty(m);
    } else {
      var k := Pick(m);
      SumRemove(m, k);
      assert |m - {k}| == |m| - 1;
      SumOfOnes(m - {k});
    }
  }

  predicate Below(id: nat, n: nat)
  {
    id < n
  }

  /** The ids `0..n` that `main` gives the boxes. */
  function Ids(n: nat): (r: set<nat>)
    ensures forall id :: id in r <==> Below(id, n)
  {
    set id: nat | id < n && Below(id, n)
  }

  lemma {:induction false} IdsSize(n: nat)
    ensures |Ids(n)| == n
  {
    if n > 0 {
      IdsSize(n - 1);
      assert Ids(n) == Ids(n - 1) + {n - 1};
    }
  }

  /** The maps `main` starts from: every box alone in its own circuit of size 1. */
  function IdentityCircuits(n: nat): (r: map<nat, nat>)
    ensures r.Keys == Ids(n)
    ensures forall id :: id in r ==> r[id] == id
  {
    map id | id in Ids(n) :: id
  }

  function UnitSizes(n: nat): (r: map<nat, nat>)
    ensures r.Keys == Ids(n)
    ensures forall id :: id in r ==> r[id] == 1
  {
    map id | id in Ids(n) :: 1
  }

  /** The starting maps are consistent, and the sizes add up to the number of boxes. */
  lemma StartConsistent(n: nat)
    ensures Consistent(IdentityCircuits(n), UnitSizes(n))
    ensures Sum(UnitSizes(n)) == n
  {
    var m, s := IdentityCircuits(n), UnitSizes(n);
    forall c | c in s ensures s[c] == |Members(m, c)| {
      assert Members(m, c) == {c};
    }
    SumOfOnes(s);
    IdsSize(n);
  }

  /** The two maps `main` threads through `make_connection`, and the connection iterator. */
  class Circuits {
    /** `id_to_circuit_mappings` */
    var circuitOf: map<nat, nat>
    /** `circuit_sizes` */
    var sizes: map<nat, nat>
    /** The connections the iterator has not yet produced. */
    var connections: seq<(nat, nat)>

    /** The state `main` builds for `n` boxes before the first connection. */
    constructor (n: nat, connections: seq<(nat, nat)>)
      ensures circuitOf == IdentityCircuits(n) && sizes == UnitSizes(n)
      ensures this.connections == connections
      ensures Consistent(circuitOf, sizes) && Sum(sizes) == n
    {
      circuitOf := IdentityCircuits(n);
      sizes := UnitSizes(n);
      this.connections := connections;
      StartConsistent(n);
    }

    /**
     * `make_connection`: take the next pair; if the boxes are in different
     * circuits, merge the second box's circuit into the first's.
     */
    method MakeConnection() returns (id1: nat, id2: nat)
      requires |connections| > 0
      requires connections[0].0 in circuitOf && connections[0].1 in circuitOf
      requires circuitOf[connections[0].1] in sizes
      modifies this
      ensures (id1, id2) == old(connections[0]) && connections == old(connections[1..])
      ensures old(circuitOf[id1] == circuitOf[id2]) ==> circuitOf == old(circuitOf) && sizes == old(sizes)
      ensures old(circuitOf[id1] != circuitOf[id2]) ==>
                circuitOf == Relabel(old(circuitOf), old(circuitOf[id2]), old(circuitOf[id1]))
                && sizes == MergeSizes(old(sizes), old(circuitOf[id2]), old(circuitOf[id1]))
      ensures old(Consistent(circuitOf, sizes)) ==> Consistent(circuitOf, sizes) && Sum(sizes) == old(Sum(sizes))
    {
      id1, id2 := connections[0].0, connections[0].1;
      connections := connections[1..];
      var oldCircuit := circuitOf[id2];
      var newCircuit := circuitOf[id1];
      var oldCount := sizes[oldCircuit];
      if newCircuit != oldCircuit {
        ghost var oldSizes := sizes;
        if newCircuit in sizes {
          sizes := sizes[newCircuit := sizes[newCircuit] + oldCount];
        }
        if oldCircuit in sizes {
          sizes := sizes[oldCircuit := 0];
        }
        assert sizes == MergeSizes(oldSizes, oldCircuit, newCircuit);
        MergeStep(circuitOf, oldSizes, id1, oldCircuit);
        circuitOf := map id | id in circuitOf :: if circuitOf[id] == oldCircuit then newCircuit else circuitOf[id];
      }
    }
  }

  // ---------------------------------------------------------------------------
  // Reading the sizes

  /** `s` lists every (circuit, size) entry of `sizes` exactly once, as `into_iter().collect()` does. */
  ghost predicate Lists(sizes: map<nat, nat>, s: seq<(nat, nat)>)
  {
    && (forall i :: 0 <= i < |s| ==> s[i].0 in sizes && s[i].1 == sizes[s[i].0])
    && (forall c :: c in sizes ==> (c, sizes[c]) in s)
    && (forall i, j :: 0 <= i < j < |s| ==> s[i].0 != s[j].0)
  }

  /** Largest size first. */
  predicate Larger(a: (nat, nat), b: (nat, nat))
  {
    a.1 >= b.1
  }

  /** The sizes of the listed entries, in order. */
  function Sizes(s: seq<(nat, nat)>): (r: seq<nat>)
    ensures |r| == |s| && forall i :: 0 <= i < |s| ==> r[i] == s[i].1
  {
    seq(|s|, i requires 0 <= i < |s| => s[i].1)
  }

  function Product(s: seq<nat>): nat
  {
    if |s| == 0 then 1 else Product(s[..|s| - 1]) * s[|s| - 1]
  }

  /** The product of the first three sizes, or of all of them when there are fewer. */
  function TopProduct(s: seq<(nat, nat)>): nat
  {
    Product(Sizes(s)[..if |s| < 3 then |s| else 3])
  }

  /** The `HashMap::into_iter().collect()`: the entries in some order. */
  method CollectEntries(sizes: map<nat, nat>) returns (s: seq<(nat, nat)>)
    ensures Lists(sizes, s)
  {
    s := [];
    var todo := sizes.Keys;
    while todo != {}
      invariant todo <= sizes.Keys
      invariant forall i :: 0 <= i < |s| ==> s[i].0 in sizes && s[i].0 !in todo && s[i].1 == sizes[s[i].0]
      invariant forall c :: c in sizes && c !in todo ==> (c, sizes[c]) in s
      invariant forall i, j :: 0 <= i < j < |s| ==> s[i].0 != s[j].0
      decreases |todo|
    {
      var c :| c in todo;
      s := s + [(c, sizes[c])];
      todo := todo - {c};
    }
  }

  /**
   * `three_largest_product`: the product of the three largest circuit sizes
   * (fewer when there are fewer circuits, 1 when there are none). Which of
   * several equal sizes comes first does not change the product.
   */
  method ThreeLargestProduct(sizes: map<nat, nat>) returns (p: nat)
    ensures forall s :: Lists(sizes, s) && SortedBy(s, Larger) ==> p == TopProduct(s)
    ensures |sizes| == 0 ==> p == 1
  {
    var entries := CollectEntries(sizes);
    assert TotalPreorder(Larger);
    var sorted := Sort(entries, Larger);
    ListsPermutation(sizes, entries, sorted);
    p := ProductOfFirst(sorted, if |sorted| < 3 then |sorted| else 3);
    TopProductAgrees(sizes, sorted);
    EmptyListing(sizes, sorted);
  }

  /** `take(n).fold(1, |acc, e| acc * e.1)`. */
  method ProductOfFirst(s: seq<(nat, nat)>, n: nat) returns (p: nat)
    requires n <= |s|
    ensures p == Product(Sizes(s)[..n])
  {
    p := 1;
    for i := 0 to n
      invariant p == Product(Sizes(s)[..i])
    {
      assert Sizes(s)[..i + 1][..i] == Sizes(s)[..i];
      p := p * s[i].1;
    }
  }

  /** Every largest-first listing of the sizes has the same top product. */
  lemma TopProductAgrees(sizes: map<nat, nat>, sorted: seq<(nat, nat)>)
    requires Lists(sizes, sorted) && SortedBy(sorted, Larger)
    ensures forall s :: Lists(sizes, s) && SortedBy(s, Larger) ==> TopProduct(s) == TopProduct(sorted)
  {
    forall s | Lists(sizes, s) && SortedBy(s, Larger) ensures TopProduct(s) == TopProduct(sorted) {
      ListsAgree(sizes, sorted, s);
      SortedSizesUnique(sorted, s);
    }
  }

  /** A permutation of a listing is a listing. */
  lemma ListsPermutation(sizes: map<nat, nat>, s: seq<(nat, nat)>, t: seq<(nat, nat)>)
    requires Lists(sizes, s) && multiset(s) == multiset(t)
    ensures Lists(sizes, t)
  {
    forall i | 0 <= i < |t| ensures t[i].0 in sizes && t[i].1 == sizes[t[i].0] {
      assert t[i] in multiset(s);
    }
    forall c | c in sizes ensures (c, sizes[c]) in t {
      assert (c, sizes[c]) in multiset(t);
    }
    forall i, j | 0 <= i < j < |t| ensures t[i].0 != t[j].0 {
      DistinctCount(s, t[i]);
      MultisetTwo(t, i, j);
    }
  }

  /** An element at two positions occurs at least twice. */
  lemma MultisetTwo<T>(t: seq<T>, i: nat, j: nat)
    requires i < j < |t|
    ensures t[i] == t[j] ==> multiset(t)[t[i]] >= 2
  {
    assert t == t[..j] + [t[j]] + t[j + 1..];
    assert t[i] in t[..j];
  }

  /** In a listing each entry occurs at most once. */
  lemma {:induction false} DistinctCount(s: seq<(nat, nat)>, x: (nat, nat))
    requires forall i, j :: 0 <= i < j < |s| ==> s[i].0 != s[j].0
    ensures multiset(s)[x] <= 1
    decreases |s|
  {
    if |s| > 0 {
      var init := s[..|s| - 1];
      assert s == init + [s[|s| - 1]];
      DistinctCount(init, x);
      forall k | 0 <= k < |init| ensures init[k] != s[|s| - 1] {
        assert s[k].0 != s[|s| - 1].0;
      }
    }
  }

  /** Two listings of the same map hold the same entries. */
  lemma ListsAgree(sizes: map<nat, nat>, s: seq<(nat, nat)>, t: seq<(nat, nat)>)
    requires Lists(sizes, s) && Lists(sizes, t)
    ensures multiset(s) == multiset(t)
  {
    forall x ensures multiset(s)[x] == multiset(t)[x] {
      DistinctCount(s, x);
      DistinctCount(t, x);
      if x in s {
        var i :| 0 <= i < |s| && s[i] == x;
        assert x in t;
      }
      if x in t {
        var i :| 0 <= i < |t| && t[i] == x;
        assert x in s;
      }
    }
  }

  /** With no circuits the listing is empty. */
  lemma EmptyListing(sizes: map<nat, nat>, s: seq<(nat, nat)>)
    requires Lists(sizes, s)
    ensures |sizes| == 0 ==> |s| == 0
  {
    if |s| > 0 {
      assert s[0].0 in sizes;
    }
  }

  /** Two largest-first orderings of the same entries have the same sizes in the same order. */
  lemma {:induction false} SortedSizesUnique(s: seq<(nat, nat)>, t: seq<(nat, nat)>)
    requires multiset(s) == multiset(t) && SortedBy(s, Larger) && SortedBy(t, Larger)
    ensures Sizes(s) == Sizes(t)
    decreases |s|
  {
    if |s| > 0 {
      assert |t| == |multiset(t)| == |s|;
      // The first entry of each carries the largest size of the other.
      assert s[0] in multiset(t);
      assert t[0] in multiset(s);
      var i :| 0 <= i < |t| && t[i] == s[0];
      var j :| 0 <= j < |s| && s[j] == t[0];
      assert s[0].1 >= s[j].1 && t[0].1 >= t[i].1;
      // Drop the first entry of `s` from `t` where it sits; what is left is still sorted.
      var t' := t[..i] + t[i + 1..];
      RemoveAt(s, t, i);
      SortedRemove(t, i);
      SortedSizesUnique(s[1..], t');
      // Every size in front of `t[i]` equals it, so `t[i]` can move to the front.
      ShiftSizes(t, i);
      SizesCons(s);
    }
  }

  /** Taking the same entry out of two permutations leaves permutations. */
  lemma RemoveAt(s: seq<(nat, nat)>, t: seq<(nat, nat)>, i: nat)
    requires 0 < |s| && i < |t| && t[i] == s[0] && multiset(s) == multiset(t)
    ensures multiset(s[1..]) == multiset(t[..i] + t[i + 1..])
  {
    assert s == [s[0]] + s[1..];
    assert multiset(s) == multiset{s[0]} + multiset(s[1..]);
    assert t == t[..i] + [t[i]] + t[i + 1..];
    assert multiset(t) == multiset(t[..i]) + multiset{t[i]} + multiset(t[i + 1..]);
    assert multiset(t[..i] + t[i + 1..]) == multiset(t[..i]) + multiset(t[i + 1..]);
    assert multiset(s[1..]) == multiset(s) - multiset{s[0]};
    assert multiset(t[..i] + t[i + 1..]) == multiset(t) - multiset{t[i]};
  }

  lemma SizesCons(s: seq<(nat, nat)>)
    requires |s| > 0
    ensures Sizes(s) == [s[0].1] + Sizes(s[1..])
  {
    assert Sizes(s)[1..] == Sizes(s[1..]);
  }

  /** Leaving out one entry keeps an ordering sorted. */
  lemma SortedRemove(t: seq<(nat, nat)>, i: nat)
    requires i < |t| && SortedBy(t, Larger)
    ensures SortedBy(t[..i] + t[i + 1..], Larger)
  {
    var t' := t[..i] + t[i + 1..];
    forall a, b | 0 <= a < b < |t'| ensures Larger(t'[a], t'[b]) {
      var a' := if a < i then a else a + 1;
      var b' := if b < i then b else b + 1;
      assert t'[a] == t[a'] && t'[b] == t[b'];
    }
  }

  /** If `t[i]` is as large as `t[0]`, moving it to the front leaves the sequence of sizes unchanged. */
  lemma ShiftSizes(t: seq<(nat, nat)>, i: nat)
    requires i < |t| && SortedBy(t, Larger) && t[i].1 >= t[0].1
    ensures Sizes(t) == [t[i].1] + Sizes(t[..i] + t[i + 1..])
  {
    var t' := t[..i] + t[i + 1..];
    var lhs, rhs := Sizes(t), [t[i].1] + Sizes(t');
    forall k | 0 <= k < |t| ensures lhs[k] == rhs[k] {
      if k == 0 {
      } else if k <= i {
        assert t[0].1 >= t[k].1 >= t[i].1;
        assert t'[k - 1] == t[k - 1];
        assert t[0].1 >= t[k - 1].1 >= t[i].1;
      } else {
        assert t'[k - 1] == t[k];
      }
    }
  }

  /**
   * `more_than_one_circuit`: scan the sizes, skipping zeros, and stop at the
   * second non-zero one.
   */
  method MoreThanOneCircuit(sizes: map<nat, nat>) returns (b: bool)
    ensures b <==> exists c1, c2 :: c1 in sizes && c2 in sizes && c1 != c2 && sizes[c1] != 0 && sizes[c2] != 0
  {
    var circuitSize := 0;
    ghost var first: nat := 0;
    var todo := sizes.Keys;
    while todo != {}
      invariant todo <= sizes.Keys
      invariant circuitSize == 0 ==> forall c :: c in sizes && c !in todo ==> sizes[c] == 0
      invariant circuitSize != 0 ==> first in sizes && first !in todo && sizes[first] == circuitSize
      invariant circuitSize != 0 ==> forall c :: c in sizes && c !in todo && c != first ==> sizes[c] == 0
      decreases |todo|
    {
      var c :| c in todo;
      todo := todo - {c};
      if sizes[c] == 0 {
        continue;
      }
      if circuitSize == 0 {
        circuitSize := sizes[c];
        first := c;
      } else {
        return true;
      }
    }
    return false;
  }

  /** With consistent sizes, more than one circuit is left exactly when the boxes are not all in one circuit. */
  lemma MoreThanOneIffSplit(circuitOf: map<nat, nat>, sizes: map<nat, nat>)
    requires Consistent(circuitOf, sizes)
    ensures (exists c1, c2 :: c1 in sizes && c2 in sizes && c1 != c2 && sizes[c1] != 0 && sizes[c2] != 0)
            <==> (exists id1, id2 :: id1 in circuitOf && id2 in circuitOf && circuitOf[id1] != circuitOf[id2])
  {
    if exists c1, c2 :: c1 in sizes && c2 in sizes && c1 != c2 && sizes[c1] != 0 && sizes[c2] != 0 {
      var c1, c2 :| c1 in sizes && c2 in sizes && c1 != c2 && sizes[c1] != 0 && sizes[c2] != 0;
      NonzeroIffOccupied(circuitOf, sizes, c1);
      NonzeroIffOccupied(circuitOf, sizes, c2);
      var id1 :| id1 in circuitOf && circuitOf[id1] == c1;
      var id2 :| id2 in circuitOf && circuitOf[id2] == c2;
    }
    if exists id1, id2 :: id1 in circuitOf && id2 in circuitOf && circuitOf[id1] != circuitOf[id2] {
      var id1, id2 :| id1 in circuitOf && id2 in circuitOf && circuitOf[id1] != circuitOf[id2];
      NonzeroIffOccupied(circuitOf, sizes, circuitOf[id1]);
      NonzeroIffOccupied(circuitOf, sizes, circuitOf[id2]);
    }
  }
}
