/**
 * Fresh ingredient ranges (2025/day5): inclusive ID ranges, a membership
 * test, and the size of their union computed by sorting the ranges, growing
 * one hull over them and subtracting the gaps the hull jumped.
 */
module FreshIngredients {
  import opened Wrappers
  import opened Text
  import opened Sorting
  import opened Numbers

  /** `RangeInclusive<u64>`: the IDs `lo..=hi`. */
  datatype Range = Range(lo: nat, hi: nat)

  predicate Between(lo: int, i: int, hi: int)
  {
    lo <= i <= hi
  }

  /** The integers `lo..=hi`. */
  ghost function Interval(lo: int, hi: int): set<int>
  {
    set i | lo <= i <= hi && Between(lo, i, hi)
  }

  lemma {:induction false} IntervalCard(lo: int, hi: int)
    ensures |Interval(lo, hi)| == if lo <= hi then hi - lo + 1 else 0
    decreases hi - lo
  {
    if lo <= hi {
      IntervalCard(lo, hi - 1);
      assert Interval(lo, hi) == Interval(lo, hi - 1) + {hi};
    } else {
      assert Interval(lo, hi) == {};
    }
  }

  ghost function Members(r: Range): set<int>
  {
    Interval(r.lo, r.hi)
  }

  /** `num_elements`: the number of IDs in a range (the source subtracts in u64, so `lo <= hi`). */
  function NumElements(r: Range): (n: nat)
    requires r.lo <= r.hi
    ensures n == |Members(r)|
  {
    IntervalCard(r.lo, r.hi);
    r.hi - r.lo + 1
  }

  /** The IDs covered by any of the ranges. */
  ghost function Cover(s: seq<Range>): set<int>
  {
    if |s| == 0 then {} else Cover(s[..|s| - 1]) + Members(s[|s| - 1])
  }

  lemma {:induction false} CoverMember(s: seq<Range>, id: int)
    ensures id in Cover(s) <==> exists r :: r in s && r.lo <= id <= r.hi
  {
    if |s| > 0 {
      var init, last := s[..|s| - 1], s[|s| - 1];
      assert s == init + [last];
      CoverMember(init, id);
      MembersIff(last);
      if r :| r in s && r.lo <= id <= r.hi {
        if r != last {
          assert r in init;
        }
      }
      if r :| r in init && r.lo <= id <= r.hi {
        assert r in s;
      }
    }
  }

  /** The union does not depend on the order or the repetition count of the ranges. */
  lemma CoverPermutation(s: seq<Range>, t: seq<Range>)
    requires multiset(s) == multiset(t)
    ensures Cover(s) == Cover(t)
  {
    forall id ensures id in Cover(s) <==> id in Cover(t) {
      CoverMember(s, id);
      CoverMember(t, id);
      assert forall r :: r in s <==> r in t by {
        assert forall r :: r in s <==> r in multiset(s);
        assert forall r :: r in t <==> r in multiset(t);
      }
    }
  }

  /** `sort_by`'s comparator: by start, then by end. */
  predicate RangeLe(a: Range, b: Range)
  {
    a.lo < b.lo || (a.lo == b.lo && a.hi <= b.hi)
  }

  lemma RangeLeTotal()
    ensures TotalPreorder(RangeLe)
  {
  }

  /** Every range in the list holds at least one ID. */
  predicate AllNonempty(gaps: seq<Range>)
  {
    forall i :: 0 <= i < |gaps| ==> gaps[i].lo <= gaps[i].hi
  }

  /** The fold that totals the gap sizes. */
  function SumSizes(gaps: seq<Range>): nat
    requires AllNonempty(gaps)
  {
    if |gaps| == 0 then 0 else SumSizes(gaps[..|gaps| - 1]) + NumElements(gaps[|gaps| - 1])
  }

  predicate ValidRanges(s: seq<Range>)
  {
    forall i :: 0 <= i < |s| ==> 1 <= s[i].lo <= s[i].hi
  }

  /**
   * The set facts the fold keeps: the covered IDs `C` are the hull `H` minus
   * the gaps `G`, and the gaps lie inside the hull and below `bound`.
   */
  ghost predicate HullCover(C: set<int>, H: set<int>, G: set<int>, bound: int)
  {
    C == H - G && G <= H && forall i :: i in G ==> i < bound
  }

  /**
   * What the fold of `get_total_fresh` knows after the first `k` sorted ranges:
   * the hull starts at the first start, the covered IDs are the hull minus the
   * gaps, the gaps lie below the last start seen, and their sizes add up to
   * the size of their union.
   */
  ghost predicate Folded(s: seq<Range>, k: nat, hull: Range, gaps: seq<Range>)
  {
    1 <= k <= |s|
    && hull.lo == s[0].lo && hull.lo <= hull.hi
    && AllNonempty(gaps)
    && HullCover(Cover(s[..k]), Members(hull), Cover(gaps), s[k - 1].lo)
    && SumSizes(gaps) == |Cover(gaps)|
  }

  lemma FoldStart(s: seq<Range>)
    requires |s| >= 1 && ValidRanges(s)
    ensures Folded(s, 1, s[0], [])
  {
    assert s[..1][..0] == [];
  }

  /**
   * The set algebra of a gap step, over sets given by their members: the
   * hull grows to the end of the next range and the IDs it jumps become a gap
   * disjoint from the earlier ones.
   */
  lemma {:induction false} GapSets(C: set<int>, H: set<int>, G: set<int>, bound: int, hlo: int, hhi: int, nlo: int, nhi: int,
                gap: set<int>, N: set<int>, H': set<int>)
    requires HullCover(C, H, G, bound) && bound <= nlo
    requires hlo <= hhi < nlo - 1 && nlo <= nhi
    requires forall i :: i in H <==> hlo <= i <= hhi
    requires forall i :: i in gap <==> hhi + 1 <= i <= nlo - 1
    requires forall i :: i in N <==> nlo <= i <= nhi
    requires forall i :: i in H' <==> hlo <= i <= nhi
    ensures G * gap == {}
    ensures HullCover(C + N, H', G + gap, nlo)
  {
    forall i | i in G ensures i in H && i !in gap {
    }
    assert G * gap == {};
    forall i | i in G + gap ensures i in H' && i < nlo {
    }
    var lhs := H' - (G + gap);
    var rhs := C + N;
    forall i ensures i in lhs <==> i in rhs {
      if i in G {
        assert i in H;
      }
    }
    assert lhs == rhs;
  }

  /** The set algebra of a merge step: the next range overlaps or touches the hull and misses every gap. */
  lemma {:induction false} MergeSets(C: set<int>, H: set<int>, G: set<int>, bound: int, hlo: int, hhi: int, nlo: int, nhi: int,
                  N: set<int>, H': set<int>)
    requires HullCover(C, H, G, bound) && bound <= nlo
    requires hlo <= hhi && hlo <= nlo <= hhi + 1 && nlo <= nhi
    requires forall i :: i in H <==> hlo <= i <= hhi
    requires forall i :: i in N <==> nlo <= i <= nhi
    requires forall i :: i in H' <==> hlo <= i <= (if hhi > nhi then hhi else nhi)
    ensures HullCover(C + N, H', G, nlo)
  {
    forall i | i in G ensures i in H && i < nlo {
    }
    var lhs := H' - G;
    var rhs := C + N;
    forall i ensures i in lhs <==> i in rhs {
      if i in G {
        assert i < nlo;
      }
    }
  }

  lemma CoverSnoc(s: seq<Range>, k: nat)
    requires k < |s|
    ensures Cover(s[..k + 1]) == Cover(s[..k]) + Members(s[k])
  {
    assert s[..k + 1][..k] == s[..k];
  }

  /**
   * A step of the fold where the next range starts past `hull.hi + 1`: the IDs
   * in between are recorded as a gap and the hull grows to cover the next range.
   */
  lemma {:induction false} FoldGapStep(s: seq<Range>, k: nat, hull: Range, gaps: seq<Range>, gaps': seq<Range>)
    requires SortedBy(s, RangeLe) && ValidRanges(s)
    requires Folded(s, k, hull, gaps) && k < |s| && hull.hi < s[k].lo - 1
    requires gaps' == gaps + [Range(hull.hi + 1, s[k].lo - 1)]
    ensures Folded(s, k + 1, Range(Min(hull.lo, s[k].lo), Max(hull.hi, s[k].hi)), gaps')
  {
    SortedAdjacent(s, k);
    assert s[k].lo <= s[k].hi && Min(hull.lo, s[k].lo) == hull.lo;
    FoldGapFrom(s, k, hull, gaps, Cover(s[..k]), Cover(gaps));
  }

  lemma SortedAdjacent(s: seq<Range>, k: nat)
    requires SortedBy(s, RangeLe) && 1 <= k < |s|
    ensures RangeLe(s[k - 1], s[k])
  {
  }

  /** The gap step on the parts of `Folded`, apart from the sortedness of the whole list. */
  lemma FoldGapFrom(s: seq<Range>, k: nat, hull: Range, gaps: seq<Range>, C: set<int>, G: set<int>)
    requires 1 <= k < |s| && hull.lo == s[0].lo && hull.lo <= hull.hi
    requires AllNonempty(gaps)
    requires C == Cover(s[..k]) && G == Cover(gaps)
    requires HullCover(C, Members(hull), G, s[k - 1].lo) && SumSizes(gaps) == |G|
    requires s[k - 1].lo <= s[k].lo <= s[k].hi && hull.hi < s[k].lo - 1
    ensures Folded(s, k + 1, Range(hull.lo, Max(hull.hi, s[k].hi)), gaps + [Range(hull.hi + 1, s[k].lo - 1)])
  {
    var next := s[k];
    var hull' := Range(hull.lo, Max(hull.hi, next.hi));
    var gap := Range(hull.hi + 1, next.lo - 1);
    var gaps' := gaps + [gap];
    var C', G' := GapStepSets(s, k, hull, gaps, C, G, gaps');
    FoldedFrom(s, k + 1, hull', gaps', C', Members(hull'), G');
  }

  /** The covered IDs and the gaps after a gap step, as sets. */
  lemma GapStepSets(s: seq<Range>, k: nat, hull: Range, gaps: seq<Range>, C: set<int>, G: set<int>, gaps': seq<Range>)
    returns (C': set<int>, G': set<int>)
    requires 1 <= k < |s| && hull.lo <= hull.hi && AllNonempty(gaps)
    requires C == Cover(s[..k]) && G == Cover(gaps)
    requires HullCover(C, Members(hull), G, s[k - 1].lo) && SumSizes(gaps) == |G|
    requires s[k - 1].lo <= s[k].lo <= s[k].hi && hull.hi < s[k].lo - 1
    requires gaps' == gaps + [Range(hull.hi + 1, s[k].lo - 1)]
    ensures C' == Cover(s[..k + 1]) && G' == Cover(gaps') && AllNonempty(gaps') && SumSizes(gaps') == |G'|
    ensures HullCover(C', Members(Range(hull.lo, Max(hull.hi, s[k].hi))), G', s[k].lo)
  {
    var next, gap := s[k], Range(hull.hi + 1, s[k].lo - 1);
    C', G' := C + Members(next), G + Members(gap);
    assert C' == Cover(s[..k + 1]) by {
      CoverSnoc(s, k);
    }
    assert HullCover(C', Members(Range(hull.lo, Max(hull.hi, next.hi))), G', next.lo)
        && G * Members(gap) == {} by {
      GapHull(C, G, s[k - 1].lo, hull, next);
    }
    assert G' == Cover(gaps') && AllNonempty(gaps') && SumSizes(gaps') == |G'| by {
      GapsSnoc(gaps, gap, gaps');
    }
  }

  /** The set facts of a gap step, for the ranges in hand. */
  lemma GapHull(C: set<int>, G: set<int>, bound: int, hull: Range, next: Range)
    requires HullCover(C, Members(hull), G, bound) && bound <= next.lo
    requires hull.lo <= hull.hi < next.lo - 1 && next.lo <= next.hi
    ensures G * Members(Range(hull.hi + 1, next.lo - 1)) == {}
    ensures HullCover(C + Members(next), Members(Range(hull.lo, Max(hull.hi, next.hi))),
                      G + Members(Range(hull.hi + 1, next.lo - 1)), next.lo)
  {
    var gap, hull' := Range(hull.hi + 1, next.lo - 1), Range(hull.lo, Max(hull.hi, next.hi));
    MembersIff(hull);
    MembersIff(gap);
    MembersIff(next);
    MembersIff(hull');
    GapSets(C, Members(hull), G, bound, hull.lo, hull.hi, next.lo, next.hi, Members(gap), Members(next), Members(hull'));
  }

  lemma MembersIff(r: Range)
    ensures forall i :: i in Members(r) <==> r.lo <= i <= r.hi
  {
    forall i | r.lo <= i <= r.hi ensures i in Members(r) {
      assert Between(r.lo, i, r.hi);
    }
  }

  /** Introduces `Folded` from the sets it relates, named separately. */
  lemma FoldedFrom(s: seq<Range>, k: nat, hull: Range, gaps: seq<Range>, C: set<int>, H: set<int>, G: set<int>)
    requires 1 <= k <= |s| && hull.lo == s[0].lo && hull.lo <= hull.hi
    requires AllNonempty(gaps)
    requires C == Cover(s[..k]) && H == Members(hull) && G == Cover(gaps)
    requires HullCover(C, H, G, s[k - 1].lo) && SumSizes(gaps) == |G|
    ensures Folded(s, k, hull, gaps)
  {
  }

  /** Appending a gap disjoint from the earlier ones adds its size to both the sum and the union. */
  lemma GapsSnoc(gaps: seq<Range>, gap: Range, gaps': seq<Range>)
    requires AllNonempty(gaps) && gaps' == gaps + [gap]
    requires gap.lo <= gap.hi && Cover(gaps) * Members(gap) == {}
    requires SumSizes(gaps) == |Cover(gaps)|
    ensures AllNonempty(gaps') && Cover(gaps') == Cover(gaps) + Members(gap)
    ensures SumSizes(gaps') == |Cover(gaps) + Members(gap)|
  {
    CoverAppend(gaps, gap);
    SumSizesAppend(gaps, gap);
    DisjointUnionCard(Cover(gaps), Members(gap));
  }

  lemma CoverAppend(s: seq<Range>, r: Range)
    ensures Cover(s + [r]) == Cover(s) + Members(r)
  {
    assert (s + [r])[..|s|] == s;
  }

  lemma SumSizesAppend(gaps: seq<Range>, gap: Range)
    requires AllNonempty(gaps)
    requires gap.lo <= gap.hi
    ensures SumSizes(gaps + [gap]) == SumSizes(gaps) + NumElements(gap)
  {
    assert (gaps + [gap])[..|gaps|] == gaps;
  }

  lemma DisjointUnionCard(a: set<int>, b: set<int>)
    requires a * b == {}
    ensures |a + b| == |a| + |b|
  {
  }

  /**
   * A step of the fold where the next range overlaps or touches the hull: no
   * gap, and the hull grows to the larger end.
   */
  lemma {:induction false} FoldMergeStep(s: seq<Range>, k: nat, hull: Range, gaps: seq<Range>)
    requires SortedBy(s, RangeLe) && ValidRanges(s)
    requires Folded(s, k, hull, gaps) && k < |s| && s[k].lo - 1 <= hull.hi
    ensures Folded(s, k + 1, Range(Min(hull.lo, s[k].lo), Max(hull.hi, s[k].hi)), gaps)
  {
    var next := s[k];
    SortedAdjacent(s, k);
    assert RangeLe(s[0], next);
    assert next.lo <= next.hi;
    var hull' := Range(Min(hull.lo, next.lo), Max(hull.hi, next.hi));
    var C' := MergeStepSets(s, k, hull, Cover(s[..k]), Cover(gaps), hull');
    FoldedFrom(s, k + 1, hull', gaps, C', Members(hull'), Cover(gaps));
  }

  /** The covered IDs after a merge step, as a set. */
  lemma MergeStepSets(s: seq<Range>, k: nat, hull: Range, C: set<int>, G: set<int>, hull': Range) returns (C': set<int>)
    requires 1 <= k < |s| && hull.lo <= hull.hi && C == Cover(s[..k])
    requires HullCover(C, Members(hull), G, s[k - 1].lo)
    requires s[k - 1].lo <= s[k].lo <= s[k].hi && hull.lo <= s[k].lo <= hull.hi + 1
    requires hull' == Range(hull.lo, Max(hull.hi, s[k].hi))
    ensures C' == Cover(s[..k + 1]) && HullCover(C', Members(hull'), G, s[k].lo)
  {
    var next := s[k];
    CoverSnoc(s, k);
    MembersIff(hull);
    MembersIff(next);
    MembersIff(hull');
    MergeSets(C, Members(hull), G, s[k - 1].lo, hull.lo, hull.hi, next.lo, next.hi, Members(next), Members(hull'));
    C' := C + Members(next);
  }

  /**
   * The closure of the fold: the next range either leaves a gap after the
   * hull, which is recorded, or overlaps or touches it; either way the hull
   * grows to cover it.
   */
  method FoldNext(s: seq<Range>, k: nat, hull: Range, gaps: seq<Range>) returns (hull': Range, gaps': seq<Range>)
    requires SortedBy(s, RangeLe) && ValidRanges(s)
    requires Folded(s, k, hull, gaps) && k < |s|
    ensures Folded(s, k + 1, hull', gaps')
  {
    var next := s[k];
    hull' := Range(Min(hull.lo, next.lo), Max(hull.hi, next.hi));
    gaps' := gaps;
    if hull.hi < next.lo - 1 {
      gaps' := gaps + [Range(hull.hi + 1, next.lo - 1)];
      FoldGapStep(s, k, hull, gaps, gaps');
    } else {
      FoldMergeStep(s, k, hull, gaps);
    }
  }

  /** Once every range is folded in, hull size minus gap sizes is the union's size. */
  lemma {:induction false} FoldTotal(s: seq<Range>, hull: Range, gaps: seq<Range>)
    requires Folded(s, |s|, hull, gaps)
    ensures NumElements(hull) - SumSizes(gaps) == |Cover(s)|
  {
    assert s[..|s|] == s;
    var G := Cover(gaps);
    assert |Members(hull) - G| == |Members(hull)| - |G|;
  }

  /**
   * The fold of `get_total_fresh` over sorted ranges: a running hull and the
   * gaps it had to bridge. The source's fold also visits the first range,
   * which leaves the hull as it is, so the loop starts at the second.
   */
  method FoldHull(s: seq<Range>) returns (hull: Range, gaps: seq<Range>)
    requires |s| >= 1 && SortedBy(s, RangeLe) && ValidRanges(s)
    ensures Folded(s, |s|, hull, gaps)
    ensures NumElements(hull) - SumSizes(gaps) == |Cover(s)|
  {
    gaps := [];
    hull := s[0];
    FoldStart(s);
    var k := 1;
    while k < |s|
      invariant Folded(s, k, hull, gaps)
    {
      hull, gaps := FoldNext(s, k, hull, gaps);
      k := k + 1;
    }
    FoldTotal(s, hull, gaps);
  }

  class FreshRanges {
    var ranges: seq<Range>

    /** `FreshRanges::new`. */
    constructor (ranges: seq<Range>)
      ensures this.ranges == ranges
    {
      this.ranges := ranges;
    }

    /** `is_fresh`: some range contains `id`. */
    predicate IsFresh(id: nat)
      reads this
      ensures IsFresh(id) <==> id in Cover(ranges)
    {
      CoverMember(ranges, id);
      exists i :: 0 <= i < |ranges| && ranges[i].lo <= id <= ranges[i].hi
    }

    /**
     * `get_total_fresh`: sort the ranges in place, fold a hull over them
     * recording the gaps it bridges, and return the hull's size minus the
     * gaps' sizes. The source unwraps the first range, asserts every
     * `hi >= lo` and computes `lo - 1` in u64, hence the preconditions.
     */
    method GetTotalFresh() returns (total: nat)
      requires |ranges| >= 1 && ValidRanges(ranges)
      modifies this
      ensures SortedBy(ranges, RangeLe) && multiset(ranges) == multiset(old(ranges))
      ensures total == |Cover(old(ranges))|
    {
      ghost var original := ranges;
      RangeLeTotal();
      ranges := Sort(ranges, RangeLe);
      assert ValidRanges(ranges) by {
        forall i | 0 <= i < |ranges| ensures 1 <= ranges[i].lo <= ranges[i].hi {
          assert ranges[i] in multiset(original);
        }
      }
      var hull, gaps := FoldHull(ranges);
      CoverPermutation(ranges, original);
      total := NumElements(hull) - SumSizes(gaps);
    }
  }

  // ---------------------------------------------------------------------------
  // Parsing

  /** The index of the first empty line, or the number of lines. */
  function FirstEmpty(lines: seq<string>): (n: nat)
    ensures n <= |lines|
    ensures forall i :: 0 <= i < n ==> lines[i] != ""
    ensures n < |lines| ==> lines[n] == ""
  {
    if |lines| == 0 || lines[0] == "" then 0 else 1 + FirstEmpty(lines[1..])
  }

  /** A line `a-b` whose first two `-`-separated fields are numbers. */
  predicate RangeLine(line: string)
  {
    var parts := Split(line, "-");
    |parts| >= 2 && ParseNat(parts[0]).Some? && ParseNat(parts[1]).Some?
  }

  function ParseRange(line: string): Range
    requires RangeLine(line)
  {
    var parts := Split(line, "-");
    Range(ParseNat(parts[0]).value, ParseNat(parts[1]).value)
  }

  /** The lines `parse_database` can read without panicking. */
  predicate DatabaseLines(lines: seq<string>)
  {
    var n := FirstEmpty(lines);
    (forall i :: 0 <= i < n ==> RangeLine(lines[i]))
    && (forall i :: n < i < |lines| ==> ParseNat(lines[i]).Some?)
  }

  /**
   * `parse_database`: ranges up to the first empty line (which is consumed),
   * then one ID per line.
   */
  function ParseDatabase(lines: seq<string>): (r: (seq<Range>, seq<nat>))
    requires DatabaseLines(lines)
    ensures |r.0| == FirstEmpty(lines)
    ensures |r.1| == if FirstEmpty(lines) < |lines| then |lines| - FirstEmpty(lines) - 1 else 0
  {
    var n := FirstEmpty(lines);
    var ranges := seq(n, i requires 0 <= i < n => ParseRange(lines[i]));
    var rest := if n < |lines| then lines[n + 1..] else [];
    var ids := seq(|rest|, i requires 0 <= i < |rest| => ParseNat(rest[i]).value);
    (ranges, ids)
  }

  function FormatRange(r: Range): string
  {
    ShowNat(r.lo) + "-" + ShowNat(r.hi)
  }

  function FormatRanges(ranges: seq<Range>): (lines: seq<string>)
    ensures |lines| == |ranges|
    ensures forall i :: 0 <= i < |ranges| ==> lines[i] == FormatRange(ranges[i])
  {
    seq(|ranges|, i requires 0 <= i < |ranges| => FormatRange(ranges[i]))
  }

  function ShowIds(ids: seq<nat>): (lines: seq<string>)
    ensures |lines| == |ids|
    ensures forall i :: 0 <= i < |ids| ==> lines[i] == ShowNat(ids[i])
  {
    seq(|ids|, i requires 0 <= i < |ids| => ShowNat(ids[i]))
  }

  /** A database file: the ranges, an empty line, the IDs. */
  function FormatDatabase(ranges: seq<Range>, ids: seq<nat>): seq<string>
  {
    FormatRanges(ranges) + [""] + ShowIds(ids)
  }

  lemma ParseFormatRange(r: Range)
    ensures RangeLine(FormatRange(r)) && ParseRange(FormatRange(r)) == r
  {
    var parts := [ShowNat(r.lo), ShowNat(r.hi)];
    assert Join(parts, "-") == FormatRange(r) by {
      assert parts[1..] == [ShowNat(r.hi)];
    }
    SplitJoin(parts, "-");
    ParseShowNat(r.lo);
    ParseShowNat(r.hi);
  }

  /** No formatted range is an empty line, so the first empty line is the separator. */
  lemma FirstEmptyFormat(ranges: seq<Range>, rest: seq<string>)
    ensures FirstEmpty(FormatRanges(ranges) + [""] + rest) == |ranges|
  {
    var lines := FormatRanges(ranges) + [""] + rest;
    forall i | 0 <= i < |ranges| ensures lines[i] != "" {
      assert lines[i] == FormatRange(ranges[i]);
    }
    FirstEmptyIs(lines, |ranges|);
  }

  lemma {:induction false} FirstEmptyIs(lines: seq<string>, n: nat)
    requires n < |lines| && lines[n] == ""
    requires forall i :: 0 <= i < n ==> lines[i] != ""
    ensures FirstEmpty(lines) == n
    decreases n
  {
    if n > 0 {
      FirstEmptyIs(lines[1..], n - 1);
    }
  }

  /** Reading a formatted database gives back its ranges and IDs. */
  lemma ParseFormatDatabase(ranges: seq<Range>, ids: seq<nat>)
    ensures DatabaseLines(FormatDatabase(ranges, ids))
    ensures ParseDatabase(FormatDatabase(ranges, ids)) == (ranges, ids)
  {
    var lines := FormatDatabase(ranges, ids);
    var n := |ranges|;
    FirstEmptyFormat(ranges, ShowIds(ids));
    forall i | 0 <= i < n ensures RangeLine(lines[i]) && ParseRange(lines[i]) == ranges[i] {
      assert lines[i] == FormatRange(ranges[i]);
      ParseFormatRange(ranges[i]);
    }
    assert lines[n + 1..] == ShowIds(ids);
    forall i | 0 <= i < |ids| ensures ParseNat(lines[n + 1..][i]) == Some(ids[i]) {
      ParseShowNat(ids[i]);
    }
    var r := ParseDatabase(lines);
    assert r.0 == ranges;
    assert r.1 == ids;
  }
}
