/**
 * Battery banks (2025/day3): a bank is a string of digits, and its joltage
 * for `k` batteries is the largest number formed by `k` of its digits taken
 * in order. The source finds it greedily: the largest leading digit that
 * still leaves room for a completion, at its first occurrence, then the best
 * completion after it.
 */
module JoltageBanks {
  import opened Wrappers
  import opened Text

  function Pow10(n: nat): (p: nat)
    ensures p >= 1
  {
    if n == 0 then 1 else 10 * Pow10(n - 1)
  }

  /** A digit followed by a number below `p` stays below `10 * p`. */
  lemma DigitTimes(d: nat, p: nat, rest: nat)
    requires d < 10 && rest < p
    ensures d * p + rest < 10 * p
  {
    assert d * p <= 9 * p;
  }

  // ---------------------------------------------------------------------------
  // The specification: picks of digits in order

  /**
   * `idxs` picks digit characters of `bank` at strictly increasing indices,
   * all at or after `from`.
   */
  ghost predicate IsPick(bank: string, from: nat, idxs: seq<nat>)
  {
    (forall i :: 0 <= i < |idxs| ==> from <= idxs[i] < |bank| && IsDigit(bank[idxs[i]]))
    && (forall i, j :: 0 <= i < j < |idxs| ==> idxs[i] < idxs[j])
  }

  /** The number the picked digits spell, most significant first. */
  ghost function PickValue(bank: string, idxs: seq<nat>): (v: nat)
    requires IsPick(bank, 0, idxs)
    ensures v < Pow10(|idxs|)
  {
    if |idxs| == 0 then 0
    else
      var d := DigitValue(bank[idxs[0]]);
      var rest := PickValue(bank, idxs[1..]);
      DigitTimes(d, Pow10(|idxs| - 1), rest);
      d * Pow10(|idxs| - 1) + rest
  }

  lemma PickFrom(bank: string, from: nat, idxs: seq<nat>)
    requires IsPick(bank, from, idxs)
    ensures IsPick(bank, 0, idxs)
    ensures |idxs| > 0 ==> IsPick(bank, idxs[0] + 1, idxs[1..])
  {
  }

  /** A pick of `|idxs|` digits leaves room after its first index for the rest. */
  lemma {:induction false} PickFirstBound(bank: string, from: nat, idxs: seq<nat>)
    requires IsPick(bank, from, idxs) && |idxs| > 0
    ensures idxs[0] + |idxs| <= |bank|
    decreases |idxs|
  {
    if |idxs| > 1 {
      PickFirstBound(bank, idxs[0] + 1, idxs[1..]);
    }
  }

  /** A pick splits into its leading digit and the pick after it. */
  lemma PickSplit(bank: string, idxs: seq<nat>)
    requires IsPick(bank, 0, idxs) && |idxs| > 0
    ensures IsPick(bank, 0, idxs[1..])
    ensures PickValue(bank, idxs) == DigitValue(bank[idxs[0]]) * Pow10(|idxs| - 1) + PickValue(bank, idxs[1..])
  {
  }

  /** A pick from some index is a pick from any earlier one. */
  lemma PickLater(bank: string, from: nat, earlier: nat, idxs: seq<nat>)
    requires earlier <= from && IsPick(bank, from, idxs)
    ensures IsPick(bank, earlier, idxs)
  {
  }

  /** A digit before a pick extends it. */
  lemma PickCons(bank: string, from: nat, idx: nat, rest: seq<nat>)
    requires from <= idx < |bank| && IsDigit(bank[idx]) && IsPick(bank, idx + 1, rest)
    ensures IsPick(bank, from, [idx] + rest) && IsPick(bank, 0, [idx] + rest)
    ensures ([idx] + rest)[0] == idx && ([idx] + rest)[1..] == rest
  {
  }

  // ---------------------------------------------------------------------------
  // The source's functions

  function FirstIndexFrom(bank: string, c: char, minIdx: nat, maxIdx: int, idx: nat): (r: Option<nat>)
    requires idx <= |bank|
    ensures r.Some? ==> idx <= r.value < |bank| && bank[r.value] == c && minIdx <= r.value <= maxIdx
    ensures r.Some? ==> forall j :: idx <= j < r.value ==> !(bank[j] == c && minIdx <= j <= maxIdx)
    ensures r.None? ==> forall j :: idx <= j < |bank| ==> !(bank[j] == c && minIdx <= j <= maxIdx)
    decreases |bank| - idx
  {
    if idx == |bank| then None
    else if bank[idx] == c && minIdx <= idx <= maxIdx then Some(idx)
    else FirstIndexFrom(bank, c, minIdx, maxIdx, idx + 1)
  }

  /**
   * `get_num`: the smallest index in `[minIdx, maxIdx]` holding digit `d`,
   * or `None` when there is none.
   */
  function GetNum(bank: string, d: nat, minIdx: nat, maxIdx: int): (r: Option<nat>)
    requires d < 10
    ensures r.Some? ==> r.value < |bank| && bank[r.value] == DigitChar(d) && minIdx <= r.value <= maxIdx
    ensures r.Some? ==> forall j :: minIdx <= j < r.value ==> bank[j] != DigitChar(d)
    ensures r.None? ==> forall j :: minIdx <= j < |bank| && j <= maxIdx ==> bank[j] != DigitChar(d)
  {
    FirstIndexFrom(bank, DigitChar(d), minIdx, maxIdx, 0)
  }

  /**
   * `max_joltage_helper`: the best `k`-digit number from the digits at or
   * after `minIdx`; the caller guarantees `k <= |bank|` (the source computes
   * `bank.len() - k` in unsigned arithmetic).
   */
  function MaxJoltageHelper(bank: string, k: nat, minIdx: nat): (r: Option<int>)
    requires k <= |bank|
    ensures r.Some? ==> 0 <= r.value < Pow10(k)
    decreases k, 11
  {
    if k == 0 then Some(0) else TryDigits(bank, k, minIdx, 9)
  }

  /** The descending digit loop of `max_joltage_helper`, from digit `d` down to 0. */
  function TryDigits(bank: string, k: nat, minIdx: nat, d: int): (r: Option<int>)
    requires 1 <= k <= |bank| && -1 <= d <= 9
    ensures r.Some? ==> 0 <= r.value < Pow10(k)
    decreases k, d + 1
  {
    if d < 0 then None
    else
      match GetNum(bank, d, minIdx, |bank| - k)
      case None => TryDigits(bank, k, minIdx, d - 1)
      case Some(idx) =>
        match MaxJoltageHelper(bank, k - 1, idx + 1)
        case None => TryDigits(bank, k, minIdx, d - 1)
        case Some(lesser) =>
          DigitTimes(d, Pow10(k - 1), lesser);
          Some(d * Pow10(k - 1) + lesser)
  }

  /** The loop stops at digit `d` when `d` occurs in range and has a completion. */
  lemma TryTakes(bank: string, k: nat, minIdx: nat, d: nat, idx: nat)
    requires 1 <= k <= |bank| && d <= 9
    requires GetNum(bank, d, minIdx, |bank| - k) == Some(idx)
    requires MaxJoltageHelper(bank, k - 1, idx + 1).Some?
    ensures TryDigits(bank, k, minIdx, d) == Some(d * Pow10(k - 1) + MaxJoltageHelper(bank, k - 1, idx + 1).value)
  {
  }

  /** `get_num` finds an occurrence of `d` in range, at or before any given one. */
  lemma GetNumFinds(bank: string, d: nat, minIdx: nat, maxIdx: int, j: nat)
    requires d < 10 && minIdx <= j <= maxIdx && j < |bank| && bank[j] == DigitChar(d)
    ensures GetNum(bank, d, minIdx, maxIdx).Some? && GetNum(bank, d, minIdx, maxIdx).value <= j
  {
  }

  // ---------------------------------------------------------------------------
  // Soundness: a result is the value of some pick

  lemma {:induction false} HelperSound(bank: string, k: nat, minIdx: nat)
    requires k <= |bank| && MaxJoltageHelper(bank, k, minIdx).Some?
    ensures exists idxs :: |idxs| == k && IsPick(bank, minIdx, idxs)
                           && PickValue(bank, idxs) == MaxJoltageHelper(bank, k, minIdx).value
    decreases k, 11
  {
    if k == 0 {
      assert IsPick(bank, minIdx, []) && PickValue(bank, []) == 0;
    } else {
      TrySound(bank, k, minIdx, 9);
    }
  }

  lemma {:induction false} TrySound(bank: string, k: nat, minIdx: nat, d: int)
    requires 1 <= k <= |bank| && -1 <= d <= 9 && TryDigits(bank, k, minIdx, d).Some?
    ensures exists idxs :: |idxs| == k && IsPick(bank, minIdx, idxs)
                           && PickValue(bank, idxs) == TryDigits(bank, k, minIdx, d).value
    decreases k, d + 1
  {
    var g := GetNum(bank, d, minIdx, |bank| - k);
    if g.Some? && MaxJoltageHelper(bank, k - 1, g.value + 1).Some? {
      var idx := g.value;
      HelperSound(bank, k - 1, idx + 1);
      var rest :| |rest| == k - 1 && IsPick(bank, idx + 1, rest)
                  && PickValue(bank, rest) == MaxJoltageHelper(bank, k - 1, idx + 1).value;
      var idxs := [idx] + rest;
      PickCons(bank, minIdx, idx, rest);
      PickSplit(bank, idxs);
      assert DigitValue(bank[idx]) == d;
      TryTakes(bank, k, minIdx, d, idx);
    } else {
      TrySound(bank, k, minIdx, d - 1);
    }
  }

  // ---------------------------------------------------------------------------
  // Maximality: no pick beats the result, and a pick guarantees a result

  lemma {:induction false} HelperMaximal(bank: string, k: nat, minIdx: nat, idxs: seq<nat>)
    requires k <= |bank| && |idxs| == k && IsPick(bank, minIdx, idxs)
    ensures MaxJoltageHelper(bank, k, minIdx).Some?
    ensures PickValue(bank, idxs) <= MaxJoltageHelper(bank, k, minIdx).value
    decreases k, 12
  {
    if k > 0 {
      TryMaximal(bank, k, minIdx, 9, idxs);
    }
  }

  lemma {:induction false} TryMaximal(bank: string, k: nat, minIdx: nat, d: int, idxs: seq<nat>)
    requires 1 <= k <= |bank| && 0 <= d <= 9 && |idxs| == k && IsPick(bank, minIdx, idxs)
    requires DigitValue(bank[idxs[0]]) <= d
    ensures TryDigits(bank, k, minIdx, d).Some?
    ensures PickValue(bank, idxs) <= TryDigits(bank, k, minIdx, d).value
    decreases k, d + 2
  {
    var d0 := DigitValue(bank[idxs[0]]);
    var g := GetNum(bank, d, minIdx, |bank| - k);
    if d0 == d {
      MaximalAtLead(bank, k, minIdx, idxs);
    } else if g.Some? && MaxJoltageHelper(bank, k - 1, g.value + 1).Some? {
      PickFrom(bank, minIdx, idxs);
      LeadDominates(d0, d, Pow10(k - 1), PickValue(bank, idxs[1..]), MaxJoltageHelper(bank, k - 1, g.value + 1).value);
    } else {
      TryMaximal(bank, k, minIdx, d - 1, idxs);
    }
  }

  /** When the loop reaches the pick's own leading digit, it finds it no later than the pick does. */
  lemma MaximalAtLead(bank: string, k: nat, minIdx: nat, idxs: seq<nat>)
    requires 1 <= k <= |bank| && |idxs| == k && IsPick(bank, minIdx, idxs)
    ensures TryDigits(bank, k, minIdx, DigitValue(bank[idxs[0]])).Some?
    ensures PickValue(bank, idxs) <= TryDigits(bank, k, minIdx, DigitValue(bank[idxs[0]])).value
    decreases k, 1
  {
    var d := DigitValue(bank[idxs[0]]);
    PickFirstBound(bank, minIdx, idxs);
    PickFrom(bank, minIdx, idxs);
    PickSplit(bank, idxs);
    LeadFound(bank, k, minIdx, d, idxs[0], idxs[1..]);
  }

  /** A pick led by digit `d` at `first` is beaten by the loop's answer at `d`. */
  lemma {:induction false} LeadFound(bank: string, k: nat, minIdx: nat, d: nat, first: nat, rest: seq<nat>)
    requires 1 <= k <= |bank| && d < 10 && minIdx <= first && first + k <= |bank|
    requires bank[first] == DigitChar(d)
    requires |rest| == k - 1 && IsPick(bank, first + 1, rest) && IsPick(bank, 0, rest)
    ensures TryDigits(bank, k, minIdx, d).Some?
    ensures d * Pow10(k - 1) + PickValue(bank, rest) <= TryDigits(bank, k, minIdx, d).value
    decreases k, 0
  {
    GetNumFinds(bank, d, minIdx, |bank| - k, first);
    var idx := GetNum(bank, d, minIdx, |bank| - k).value;
    PickLater(bank, first + 1, idx + 1, rest);
    HelperMaximal(bank, k - 1, idx + 1, rest);
    TryTakes(bank, k, minIdx, d, idx);
  }

  /** A larger leading digit wins whatever follows. */
  lemma LeadDominates(d0: nat, d: nat, p: nat, a: nat, b: nat)
    requires d0 < d && a < p
    ensures d0 * p + a < d * p + b
  {
    assert (d0 + 1) * p <= d * p;
  }

  /** A bank of digits with at least `k` of them from `minIdx` on always has an answer. */
  lemma AllDigitsAnswered(bank: string, k: nat, minIdx: nat)
    requires AllDigits(bank) && minIdx + k <= |bank|
    ensures MaxJoltageHelper(bank, k, minIdx).Some?
  {
    var idxs := seq(k, i requires 0 <= i < k => minIdx + i);
    assert IsPick(bank, minIdx, idxs);
    HelperMaximal(bank, k, minIdx, idxs);
  }

  lemma HelperIsMaximum(bank: string, k: nat)
    requires k <= |bank| && exists idxs :: |idxs| == k && IsPick(bank, 0, idxs)
    ensures MaxJoltageHelper(bank, k, 0).Some?
    ensures exists idxs :: |idxs| == k && IsPick(bank, 0, idxs)
                           && PickValue(bank, idxs) == MaxJoltageHelper(bank, k, 0).value
    ensures forall idxs :: |idxs| == k && IsPick(bank, 0, idxs)
                           ==> PickValue(bank, idxs) <= MaxJoltageHelper(bank, k, 0).value
  {
    var some :| |some| == k && IsPick(bank, 0, some);
    HelperMaximal(bank, k, 0, some);
    HelperSound(bank, k, 0);
    forall idxs | |idxs| == k && IsPick(bank, 0, idxs)
      ensures PickValue(bank, idxs) <= MaxJoltageHelper(bank, k, 0).value
    {
      HelperMaximal(bank, k, 0, idxs);
    }
  }

  /** `max_joltage_part1`: the best two digits in order; the source panics when there are none. */
  function MaxJoltagePart1(bank: string): (v: int)
    requires |bank| >= 2 && exists idxs :: |idxs| == 2 && IsPick(bank, 0, idxs)
    ensures exists idxs :: |idxs| == 2 && IsPick(bank, 0, idxs) && PickValue(bank, idxs) == v
    ensures forall idxs :: |idxs| == 2 && IsPick(bank, 0, idxs) ==> PickValue(bank, idxs) <= v
  {
    HelperIsMaximum(bank, 2);
    MaxJoltageHelper(bank, 2, 0).value
  }

  /** `max_joltage_part2`: the best twelve digits in order. */
  function MaxJoltagePart2(bank: string): (v: int)
    requires |bank| >= 12 && exists idxs :: |idxs| == 12 && IsPick(bank, 0, idxs)
    ensures exists idxs :: |idxs| == 12 && IsPick(bank, 0, idxs) && PickValue(bank, idxs) == v
    ensures forall idxs :: |idxs| == 12 && IsPick(bank, 0, idxs) ==> PickValue(bank, idxs) <= v
  {
    HelperIsMaximum(bank, 12);
    MaxJoltageHelper(bank, 12, 0).value
  }
}
