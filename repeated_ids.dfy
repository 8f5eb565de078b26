/**
 * Invalid product IDs (2025/day2): an ID is invalid when its decimal numeral
 * is a block of digits repeated, twice exactly (part 1) or at least twice
 * (part 2); the answer sums the invalid IDs of inclusive ranges.
 */
module RepeatedIds {
  import opened Text

  /** `str::repeat`: `n` copies of `x` back to back. */
  function Repeat(x: string, n: nat): (r: string)
    ensures |r| == n * |x|
  {
    if n == 0 then "" else x + Repeat(x, n - 1)
  }

  lemma RepeatPrefix(x: string, n: nat)
    requires n >= 1
    ensures Repeat(x, n)[..|x|] == x
  {
  }

  // ---------------------------------------------------------------------------
  // Part 1

  /** `is_invalid_part1`: an even-length numeral whose two halves are equal. */
  function IsInvalidPart1(id: int): (invalid: bool)
    ensures |ShowInt(id)| % 2 == 1 ==> !invalid
  {
    var s := ShowInt(id);
    if |s| % 2 == 0 then s[..|s| / 2] == s[|s| / 2..] else false
  }

  /** An ID is invalid under part 1 exactly when its numeral is some block written twice. */
  lemma Part1IffDoubled(id: int)
    ensures IsInvalidPart1(id) <==> exists x :: ShowInt(id) == x + x
  {
    var s := ShowInt(id);
    if IsInvalidPart1(id) {
      var x := s[..|s| / 2];
      assert s == x + x;
    }
    if x :| s == x + x {
      assert |s| == 2 * |x|;
      assert s[..|s| / 2] == x && s[|s| / 2..] == x;
    }
  }

  // ---------------------------------------------------------------------------
  // Part 2

  /** Some prefix of length at most half of `s`, repeated `|s| / i` times, is `s`. */
  ghost predicate RepeatsPrefix(s: string)
  {
    exists i :: 1 <= i <= |s| / 2 && Repeat(s[..i], |s| / i) == s
  }

  /** `is_invalid_part2`: try every prefix length from 1 to half the numeral. */
  method IsInvalidPart2(id: int) returns (invalid: bool)
    ensures invalid <==> RepeatsPrefix(ShowInt(id))
    ensures |ShowInt(id)| == 1 ==> !invalid
  {
    var s := ShowInt(id);
    var n := |s|;
    var i := 1;
    while i <= n / 2
      invariant 1 <= i <= n / 2 + 1
      invariant forall j :: 1 <= j < i ==> Repeat(s[..j], n / j) != s
    {
      var substr := s[..i];
      if Repeat(substr, n / i) == s {
        return true;
      }
      i := i + 1;
    }
    return false;
  }

  lemma {:induction false} MulAtLeast(x: int, b: nat)
    requires x >= 1
    ensures x * b >= b
    decreases x
  {
    if x > 1 {
      MulAtLeast(x - 1, b);
      assert x * b == (x - 1) * b + b;
    }
  }

  lemma ExactQuotient(a: nat, b: nat, k: nat)
    requires b >= 1 && a == k * b
    ensures a / b == k
  {
    var q, r := a / b, a % b;
    assert a == q * b + r && 0 <= r < b;
    if q > k {
      MulAtLeast(q - k, b);
    } else if q < k {
      MulAtLeast(k - q, b);
    }
  }

  /**
   * The prefix search finds exactly the numerals made of one non-empty block
   * written two or more times: a block length that does not divide the
   * numeral's length can never match.
   */
  lemma QuotientAtLeastTwo(a: nat, i: nat)
    requires 1 <= i && 2 * i <= a
    ensures a / i >= 2
  {
    var q, r := a / i, a % i;
    assert a == q * i + r && 0 <= r < i;
    assert q <= 1 ==> q * i <= i;
  }

  lemma RepeatsPrefixIffBlocks(s: string)
    ensures RepeatsPrefix(s) <==> exists x, k :: |x| >= 1 && k >= 2 && Repeat(x, k) == s
  {
    if RepeatsPrefix(s) {
      var i :| 1 <= i <= |s| / 2 && Repeat(s[..i], |s| / i) == s;
      QuotientAtLeastTwo(|s|, i);
    }
    if x, k :| |x| >= 1 && k >= 2 && Repeat(x, k) == s {
      ExactQuotient(|s|, |x|, k);
      MulAtLeast(k - 1, |x|);
      assert k * |x| == (k - 1) * |x| + |x|;
      RepeatPrefix(x, k);
      assert Repeat(s[..|x|], |s| / |x|) == s;
    }
  }

  /** An even-length string with equal halves repeats its first half. */
  lemma HalvesRepeat(s: string)
    requires |s| % 2 == 0 && |s| >= 2 && s[..|s| / 2] == s[|s| / 2..]
    ensures RepeatsPrefix(s)
  {
    var h := |s| / 2;
    ExactQuotient(|s|, h, 2);
    assert Repeat(s[..h], 2) == s[..h] + (s[..h] + "");
    assert s == s[..h] + s[h..];
    assert Repeat(s[..h], |s| / h) == s;
  }

  /** Every part-1 invalid ID is also part-2 invalid: its half repeated twice is the numeral. */
  lemma Part1ImpliesPart2(id: int)
    ensures IsInvalidPart1(id) ==> RepeatsPrefix(ShowInt(id))
  {
    if IsInvalidPart1(id) {
      HalvesRepeat(ShowInt(id));
    }
  }

  // ---------------------------------------------------------------------------
  // Range sums

  /** The two checkers `get_invalid_sum_for_range` is called with. */
  datatype Checker = Part1 | Part2

  ghost predicate Invalid(checker: Checker, id: int)
  {
    match checker
    case Part1 => IsInvalidPart1(id)
    case Part2 => RepeatsPrefix(ShowInt(id))
  }

  /** The sum of the IDs in `[start, end]` the checker calls invalid. */
  ghost function InvalidSum(start: int, end: int, checker: Checker): int
    decreases end - start
  {
    if end < start then 0
    else InvalidSum(start, end - 1, checker) + (if Invalid(checker, end) then end else 0)
  }

  /** Calling the checker passed to `get_invalid_sum_for_range`. */
  method Check(checker: Checker, id: int) returns (invalid: bool)
    ensures invalid == Invalid(checker, id)
  {
    match checker {
      case Part1 => invalid := IsInvalidPart1(id);
      case Part2 => invalid := IsInvalidPart2(id);
    }
  }

  /** `get_invalid_sum_for_range`: add each invalid value of `start..=end`. */
  method InvalidSumForRange(start: int, end: int, checker: Checker) returns (sum: int)
    ensures sum == InvalidSum(start, end, checker)
    ensures end < start ==> sum == 0
  {
    sum := 0;
    var value := start;
    while value <= end
      invariant start <= value && (value == start || value <= end + 1)
      invariant sum == InvalidSum(start, value - 1, checker)
      decreases end - value
    {
      var invalid := Check(checker, value);
      if invalid {
        sum := sum + value;
      }
      value := value + 1;
    }
  }

  /** Summing two adjacent ranges is summing their union. */
  lemma {:induction false} InvalidSumSplit(start: int, mid: int, end: int, checker: Checker)
    requires start <= mid + 1 && mid <= end
    ensures InvalidSum(start, end, checker) == InvalidSum(start, mid, checker) + InvalidSum(mid + 1, end, checker)
    decreases end - mid
  {
    if end > mid {
      InvalidSumSplit(start, mid, end - 1, checker);
    }
  }

  /** Over non-negative IDs the part-2 sum is never below the part-1 sum. */
  lemma {:induction false} Part1SumAtMostPart2(start: int, end: int)
    requires start >= 0
    ensures 0 <= InvalidSum(start, end, Part1) <= InvalidSum(start, end, Part2)
    decreases end - start
  {
    if end >= start {
      Part1SumAtMostPart2(start, end - 1);
      Part1ImpliesPart2(end);
    }
  }
}
