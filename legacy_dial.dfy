/**
 * The first version of the dial puzzle (day1): the same arithmetic written as
 * one loop over the input lines per part, with the position and the counters
 * in local variables.
 */
module LegacyDial {
  import opened Text
  import Dial

  /** A line the loops accept: a direction character, then a signed amount. */
  predicate LineOk(line: string)
  {
    |line| >= 2 && ParseInt(line[1..]).Some?
  }

  predicate LinesOk(lines: seq<string>)
  {
    forall i :: 0 <= i < |lines| ==> LineOk(lines[i])
  }

  /** The signed move a line asks for; a direction other than `L` or `R` moves nothing. */
  function Delta(line: string): int
    requires LineOk(line)
  {
    var amount := ParseInt(line[1..]).value;
    if line[0] == 'L' then -amount else if line[0] == 'R' then amount else 0
  }

  /** The position after the given lines, starting at 50. */
  function Position(lines: seq<string>): (pos: int)
    requires LinesOk(lines)
    ensures 0 <= pos < 100
  {
    if |lines| == 0 then 50
    else (Position(lines[..|lines| - 1]) + Delta(lines[|lines| - 1])) % 100
  }

  /** Part 1's answer: the number of lines after which the dial points at 0. */
  function Stops(lines: seq<string>): nat
    requires LinesOk(lines)
  {
    if |lines| == 0 then 0
    else Stops(lines[..|lines| - 1]) + (if Position(lines) == 0 then 1 else 0)
  }

  /** Part 2's answer: the clicks on 0 of every move, as the dial puzzle counts them. */
  function Clicks(lines: seq<string>): nat
    requires LinesOk(lines)
  {
    if |lines| == 0 then 0
    else
      var p := Position(lines[..|lines| - 1]);
      Clicks(lines[..|lines| - 1]) + Dial.ZeroClicks(p, p + Delta(lines[|lines| - 1]))
  }

  /** Every stop on 0 is also a click on 0, so part 2's answer is never below part 1's. */
  lemma {:induction false} StopsAtMostClicks(lines: seq<string>)
    requires LinesOk(lines)
    ensures Stops(lines) <= Clicks(lines)
    decreases |lines|
  {
    if |lines| > 0 {
      var init := lines[..|lines| - 1];
      assert LinesOk(init);
      StopsAtMostClicks(init);
      var p := Position(init);
      var q := p + Delta(lines[|lines| - 1]);
      assert Position(lines) == q % 100;
      assert Stops(lines) == Stops(init) + (if q % 100 == 0 then 1 else 0);
      assert Clicks(lines) == Clicks(init) + Dial.ZeroClicks(p, q);
      if q % 100 == 0 {
        Dial.LandingIsClick(p, q);
      }
    }
  }

  lemma PrefixOk(lines: seq<string>, i: nat)
    requires LinesOk(lines) && i < |lines|
    ensures LinesOk(lines[..i + 1]) && lines[..i + 1][..i] == lines[..i] && lines[..i + 1][i] == lines[i]
  {
  }

  /** What one more line adds to the position and to the stops on 0. */
  lemma PrefixStep(lines: seq<string>, i: nat)
    requires LinesOk(lines) && i < |lines|
    ensures LinesOk(lines[..i]) && LinesOk(lines[..i + 1]) && LineOk(lines[i])
    ensures Position(lines[..i + 1]) == (Position(lines[..i]) + Delta(lines[i])) % 100
    ensures Stops(lines[..i + 1]) == Stops(lines[..i]) + (if Position(lines[..i + 1]) == 0 then 1 else 0)
  {
    PrefixOk(lines, i);
  }

  /** Extending the prefix by line `i` adds that line's clicks on 0. */
  lemma PrefixClicks(lines: seq<string>, i: nat)
    requires LinesOk(lines) && i < |lines|
    ensures LinesOk(lines[..i]) && LinesOk(lines[..i + 1]) && LineOk(lines[i])
    ensures Position(lines[..i + 1]) == (Position(lines[..i]) + Delta(lines[i])) % 100
    ensures Clicks(lines[..i + 1]) ==
      Clicks(lines[..i]) + Dial.ZeroClicks(Position(lines[..i]), Position(lines[..i]) + Delta(lines[i]))
  {
    PrefixOk(lines, i);
  }

  /** The body of `part1`'s loop for one line: move, normalise by whole revolutions. */
  method Part1Line(currNum: int, line: string) returns (newNum: int)
    requires 0 <= currNum < 100 && LineOk(line)
    ensures newNum == (currNum + Delta(line)) % 100
  {
    var amountNum := ParseInt(line[1..]).value;
    newNum := currNum;
    if line[0] == 'L' {
      newNum := newNum - amountNum;
    } else if line[0] == 'R' {
      newNum := newNum + amountNum;
    }
    ghost var q := newNum;
    ghost var t := 0;
    while newNum < 0
      invariant newNum == q + 100 * t && t >= 0
      invariant t > 0 ==> newNum < 100
      decreases -newNum
    {
      newNum := newNum + 100;
      t := t + 1;
    }
    while newNum >= 100
      invariant newNum == q + 100 * t && newNum >= 0
      decreases newNum
    {
      newNum := newNum - 100;
      t := t - 1;
    }
    Dial.Normalised(q, t);
  }

  /** `part1`: count the lines after which the dial points at 0. */
  method Part1(lines: seq<string>) returns (pointedAtZero: nat)
    requires LinesOk(lines)
    ensures pointedAtZero == Stops(lines)
  {
    var currNum := 50;
    pointedAtZero := 0;
    for i := 0 to |lines|
      invariant currNum == Position(lines[..i])
      invariant pointedAtZero == Stops(lines[..i])
    {
      PrefixStep(lines, i);
      currNum := Part1Line(currNum, lines[i]);
      if currNum == 0 {
        pointedAtZero := pointedAtZero + 1;
      }
    }
    assert lines[..|lines|] == lines;
  }

  /**
   * The body of `part2`'s loop for one line: as in part 1, but every
   * revolution unwound counts a click on 0, except the first one of a left
   * move that started on 0 and a final one that lands exactly on 0 (that
   * landing is counted once, afterwards).
   */
  method Part2Line(currNum: int, line: string) returns (newNum: int, clicks: nat)
    requires 0 <= currNum < 100 && LineOk(line)
    ensures newNum == (currNum + Delta(line)) % 100
    ensures clicks == Dial.ZeroClicks(currNum, currNum + Delta(line))
  {
    var amountNum := ParseInt(line[1..]).value;
    var prevNum := currNum;
    newNum := currNum;
    var clickedAtZero := 0;
    if line[0] == 'L' {
      newNum := newNum - amountNum;
    } else if line[0] == 'R' {
      newNum := newNum + amountNum;
    }
    ghost var q := newNum;
    ghost var t := 0;
    while newNum < 0
      invariant newNum == q + 100 * t && t >= 0
      invariant t > 0 ==> newNum < 100
      invariant prevNum == (if t > 0 && currNum == 0 then 1 else currNum)
      invariant clickedAtZero == t - (if t > 0 && currNum == 0 then 1 else 0)
      decreases -newNum
    {
      if prevNum != 0 {
        clickedAtZero := clickedAtZero + 1;
      } else {
        prevNum := 1;
      }
      newNum := newNum + 100;
      t := t + 1;
    }
    ghost var mid := clickedAtZero;
    ghost var c1 := newNum;
    ghost var u := 0;
    while newNum >= 100
      invariant newNum == c1 - 100 * u && u >= 0 && newNum >= 0
      invariant clickedAtZero == mid + u - (if u > 0 && newNum == 0 then 1 else 0)
      decreases newNum
    {
      if newNum != 100 {
        clickedAtZero := clickedAtZero + 1;
      }
      newNum := newNum - 100;
      u := u + 1;
    }
    Dial.Normalised(q, t - u);
    if newNum == 0 {
      clickedAtZero := clickedAtZero + 1;
    }
    Part2Tally(currNum, q, t, u, clickedAtZero);
    clicks := clickedAtZero;
  }

  /**
   * The clicks `part2` tallies for a move from `p` to `q` that took `t`
   * revolutions up and `u` down to wrap back: one per revolution, less the
   * first of a left move from 0 and the last of a right move onto 0, plus one
   * for a final stop on 0. The tally is the clicks on 0 of the move.
   */
  lemma Part2Tally(p: int, q: int, t: int, u: int, n: int)
    requires 0 <= p < 100 && t >= 0 && u >= 0 && 0 <= q + 100 * (t - u) < 100
    requires t > 0 ==> u == 0
    requires q >= 0 ==> t == 0
    requires n == t - (if t > 0 && p == 0 then 1 else 0) + u - (if u > 0 && q + 100 * (t - u) == 0 then 1 else 0)
                  + (if q + 100 * (t - u) == 0 then 1 else 0)
    ensures n == Dial.ZeroClicks(p, q)
  {
    Dial.Normalised(q, t - u);
    Dial.ZeroClicksClosed(p, q);
    Dial.Predecessor(q);
  }

  /** One line of `part2`'s loop takes the position and the tally from one prefix to the next. */
  lemma Part2Step(lines: seq<string>, i: nat, currNum: int, clicked: nat, newNum: int, clicks: nat)
    requires LinesOk(lines) && i < |lines|
    requires LinesOk(lines[..i]) && currNum == Position(lines[..i]) && clicked == Clicks(lines[..i])
    requires LineOk(lines[i]) && newNum == (currNum + Delta(lines[i])) % 100
    requires clicks == Dial.ZeroClicks(currNum, currNum + Delta(lines[i]))
    ensures LinesOk(lines[..i + 1])
    ensures newNum == Position(lines[..i + 1]) && clicked + clicks == Clicks(lines[..i + 1])
  {
    PrefixOk(lines, i);
    assert newNum == Position(lines[..i + 1]) by {
      PrefixClicks(lines, i);
    }
    assert clicked + clicks == Clicks(lines[..i + 1]) by {
      PrefixClicks(lines, i);
    }
  }

  /** `part2`: total the clicks on 0 over all lines. */
  method Part2(lines: seq<string>) returns (clickedAtZero: nat)
    requires LinesOk(lines)
    ensures clickedAtZero == Clicks(lines)
  {
    var currNum := 50;
    clickedAtZero := 0;
    for i := 0 to |lines|
      invariant currNum == Position(lines[..i])
      invariant clickedAtZero == Clicks(lines[..i])
    {
      PrefixOk(lines, i);
      var newNum, clicks := Part2Line(currNum, lines[i]);
      Part2Step(lines, i, currNum, clickedAtZero, newNum, clicks);
      currNum, clickedAtZero := newNum, clickedAtZero + clicks;
    }
    assert lines[..|lines|] == lines;
  }
}
