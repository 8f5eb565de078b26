/**
 * The safe dial (2025/day1): a pointer on positions 0..99 turned left or right
 * by an amount, counting how often it stops on 0 and how often it passes 0.
 */
module Dial {
  import opened Wrappers
  import opened Text

  datatype Rotation = Left(amt: int) | Right(amt: int)

  /** The unnormalised position after turning from `p`. */
  function Target(p: int, rotation: Rotation): int
  {
    match rotation
    case Left(amt) => p - amt
    case Right(amt) => p + amt
  }

  /** The number of multiples of 100 in the half-open interval `(lo, hi]`, counted one step at a time. */
  function ZerosPassed(lo: int, hi: int): nat
    decreases hi - lo
  {
    if hi <= lo then 0 else ZerosPassed(lo, hi - 1) + (if hi % 100 == 0 then 1 else 0)
  }

  /**
   * The clicks on 0 of a move from `p` to `q`: every position the pointer
   * reaches that is 0 modulo 100, not counting where it started. A move of zero
   * that sits on 0 still counts that landing.
   */
  function ZeroClicks(p: int, q: int): nat
  {
    if q > p then ZerosPassed(p, q)
    else if q < p then ZerosPassed(q - 1, p - 1)
    else if p % 100 == 0 then 1 else 0
  }

  lemma {:induction false} ZerosPassedFormula(lo: int, hi: int)
    requires lo <= hi
    ensures ZerosPassed(lo, hi) == hi / 100 - lo / 100
    decreases hi - lo
  {
    if hi > lo {
      ZerosPassedFormula(lo, hi - 1);
      assert hi / 100 - (hi - 1) / 100 == (if hi % 100 == 0 then 1 else 0);
    }
  }

  /** The closed form the loops of `turn` compute, for a pointer starting on the dial. */
  lemma ZeroClicksClosed(p: int, q: int)
    requires 0 <= p < 100
    ensures q > p ==> ZeroClicks(p, q) == q / 100
    ensures q < p ==> ZeroClicks(p, q) == (if p == 0 then -1 else 0) - (q - 1) / 100
    ensures q == p ==> ZeroClicks(p, q) == (if p == 0 then 1 else 0)
  {
    if q > p {
      ZerosPassedFormula(p, q);
    } else if q < p {
      ZerosPassedFormula(q - 1, p - 1);
    }
  }

  /** A stop on 0 is always also counted as a click on 0. */
  lemma LandingIsClick(p: int, q: int)
    requires 0 <= p < 100 && q % 100 == 0
    ensures ZeroClicks(p, q) >= 1
  {
    ZeroClicksClosed(p, q);
  }

  /** Turning by `n` whole revolutions, either way, clicks on 0 exactly `n` times. */
  lemma FullTurns(p: int, n: nat)
    requires 0 <= p < 100 && n >= 1
    ensures ZeroClicks(p, p + 100 * n) == n
    ensures ZeroClicks(p, p - 100 * n) == n
  {
    ZeroClicksClosed(p, p + 100 * n);
    ZeroClicksClosed(p, p - 100 * n);
    assert (p + 100 * n) / 100 == p / 100 + n;
    assert (p - 100 * n - 1) / 100 == (p - 1) / 100 - n;
  }

  lemma Predecessor(q: int)
    ensures (q - 1) / 100 == q / 100 - (if q % 100 == 0 then 1 else 0)
  {
  }

  /** Where the wrapping loops of `turn` stop: `t` revolutions bring `q` onto the dial. */
  lemma Normalised(q: int, t: int)
    requires 0 <= q + 100 * t < 100
    ensures q + 100 * t == q % 100
    ensures t == -(q / 100)
  {
  }

  /**
   * The clicks `turn` tallies for a move from `p` to `q` that took `t`
   * revolutions to wrap back: a click per revolution, one fewer for a left
   * turn from 0, and one for a final stop on 0 that the right turn's loop did
   * not already count. The tally is the clicks on 0 of the move.
   */
  lemma TurnTally(p: int, q: int, t: int, n: int)
    requires 0 <= p < 100 && 0 <= q + 100 * t < 100
    requires q < 0 ==> n == t - (if p == 0 then 1 else 0) + (if q + 100 * t == 0 then 1 else 0)
    requires q >= 100 ==> n == -t
    requires 0 <= q < 100 ==> n == (if q == 0 then 1 else 0)
    ensures n == ZeroClicks(p, q)
  {
    Normalised(q, t);
    ZeroClicksClosed(p, q);
    Predecessor(q);
  }

  class Dial {
    var loc: int
    var numZeroStops: int
    var numZeroClicks: int

    predicate Valid()
      reads this
    {
      0 <= loc < 100
    }

    /** `Dial::default`: pointing at 50, nothing counted. */
    constructor ()
      ensures Valid()
      ensures loc == 50 && numZeroStops == 0 && numZeroClicks == 0
    {
      loc := 50;
      numZeroStops := 0;
      numZeroClicks := 0;
    }

    /**
     * `Dial::turn`: move, wrap back onto the dial one revolution at a time
     * (a click each), undo the click for a left turn that started on 0 and
     * for a right turn that ends exactly on 0, then count a stop on 0.
     */
    method Turn(rotation: Rotation)
      requires Valid()
      modifies this
      ensures Valid()
      ensures loc == Target(old(loc), rotation) % 100
      ensures numZeroStops == old(numZeroStops) + (if loc == 0 then 1 else 0)
      ensures numZeroClicks == old(numZeroClicks) + ZeroClicks(old(loc), Target(old(loc), rotation))
    {
      var prevLoc := loc;
      match rotation {
        case Left(amt) => loc := loc - amt;
        case Right(amt) => loc := loc + amt;
      }
      ghost var q := loc;
      ghost var t: int := 0;
      if loc < 0 {
        if prevLoc == 0 {
          numZeroClicks := numZeroClicks - 1;
        }
        ghost var base := numZeroClicks;
        while true
          invariant loc == q + 100 * t && loc < 0 && t >= 0
          invariant numZeroClicks == base + t && numZeroStops == old(numZeroStops)
          decreases -loc
        {
          loc := loc + 100;
          numZeroClicks := numZeroClicks + 1;
          t := t + 1;
          if loc >= 0 {
            break;
          }
        }
      } else if loc >= 100 {
        ghost var base := numZeroClicks;
        while true
          invariant loc == q + 100 * t && loc >= 100 && t <= 0
          invariant numZeroClicks == base - t && numZeroStops == old(numZeroStops)
          decreases loc
        {
          loc := loc - 100;
          numZeroClicks := numZeroClicks + 1;
          t := t - 1;
          if loc < 100 {
            break;
          }
        }
        if loc == 0 {
          numZeroClicks := numZeroClicks - 1;
        }
      }
      Normalised(q, t);
      if loc == 0 {
        numZeroStops := numZeroStops + 1;
        numZeroClicks := numZeroClicks + 1;
      }
      TurnTally(prevLoc, q, t, numZeroClicks - old(numZeroClicks));
    }
  }

  /** `parse`: a leading `L` or `R` and a signed amount; any other first character is skipped. */
  function ParseRotation(line: string): (r: Option<Rotation>)
    requires |line| >= 1
    requires line[0] == 'L' || line[0] == 'R' ==> ParseInt(line[1..]).Some?
    ensures r.Some? <==> line[0] == 'L' || line[0] == 'R'
  {
    if line[0] == 'L' then Some(Left(ParseInt(line[1..]).value))
    else if line[0] == 'R' then Some(Right(ParseInt(line[1..]).value))
    else None
  }

  function FormatRotation(rotation: Rotation): (line: string)
    ensures |line| >= 2
  {
    match rotation
    case Left(amt) => "L" + ShowInt(amt)
    case Right(amt) => "R" + ShowInt(amt)
  }

  lemma ParseFormatRotation(rotation: Rotation)
    ensures ParseRotation(FormatRotation(rotation)) == Some(rotation)
  {
    var line := FormatRotation(rotation);
    assert line[1..] == ShowInt(rotation.amt);
    ParseShowInt(rotation.amt);
  }
}
