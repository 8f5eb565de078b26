/**
 * Paper rolls on a grid (2025/day4): `@` marks a roll; a roll a forklift can
 * reach has fewer than four rolls among its eight neighbours. Reachable rolls
 * are removed (rewritten to `X`) round after round until none is reachable.
 */
module PaperRolls {

  /** The eight neighbour offsets, in the order `can_access` lists them. */
  const Offsets: seq<(int, int)> :=
    [(-1, -1), (0, -1), (1, -1), (-1, 0), (1, 0), (-1, 1), (0, 1), (1, 1)]

  /** The offsets are exactly the 3 by 3 window without its centre. */
  lemma OffsetsAreWindow(dx: int, dy: int)
    ensures (dx, dy) in Offsets <==> -1 <= dx <= 1 && -1 <= dy <= 1 && !(dx == 0 && dy == 0)
  {
  }

  function CountRow(row: seq<char>): (n: nat)
    ensures n <= |row|
  {
    if |row| == 0 then 0 else CountRow(row[..|row| - 1]) + (if row[|row| - 1] == '@' then 1 else 0)
  }

  /** The number of rolls on a grid. */
  function CountRolls(g: seq<seq<char>>): nat
  {
    if |g| == 0 then 0 else CountRolls(g[..|g| - 1]) + CountRow(g[|g| - 1])
  }

  function CountTrueRow(row: seq<bool>): (n: nat)
    ensures n <= |row|
  {
    if |row| == 0 then 0 else CountTrueRow(row[..|row| - 1]) + (if row[|row| - 1] then 1 else 0)
  }

  /** `flatten().filter(|b| *b).count()`. */
  function CountTrue(g: seq<seq<bool>>): nat
  {
    if |g| == 0 then 0 else CountTrue(g[..|g| - 1]) + CountTrueRow(g[|g| - 1])
  }

  /** `acc` has the shape of `g` and marks only rolls. */
  predicate MarksRolls(g: seq<seq<char>>, acc: seq<seq<bool>>)
  {
    |acc| == |g|
    && (forall j :: 0 <= j < |g| ==> |acc[j]| == |g[j]|)
    && (forall j, i :: 0 <= j < |g| && 0 <= i < |g[j]| && acc[j][i] ==> g[j][i] == '@')
  }

  function PeelRow(row: seq<char>, acc: seq<bool>): (r: seq<char>)
    requires |acc| == |row|
    ensures |r| == |row|
  {
    seq(|row|, i requires 0 <= i < |row| => if acc[i] then 'X' else row[i])
  }

  /** The grid with every marked cell rewritten to `X`. */
  function Peel(g: seq<seq<char>>, acc: seq<seq<bool>>): (r: seq<seq<char>>)
    requires MarksRolls(g, acc)
    ensures |r| == |g|
  {
    seq(|g|, j requires 0 <= j < |g| => PeelRow(g[j], acc[j]))
  }

  lemma {:induction false} PeelRowCount(row: seq<char>, acc: seq<bool>)
    requires |acc| == |row| && forall i :: 0 <= i < |row| && acc[i] ==> row[i] == '@'
    ensures CountRow(PeelRow(row, acc)) + CountTrueRow(acc) == CountRow(row)
    decreases |row|
  {
    if |row| > 0 {
      var n := |row| - 1;
      PeelRowCount(row[..n], acc[..n]);
      assert PeelRow(row, acc)[..n] == PeelRow(row[..n], acc[..n]);
    }
  }

  /** Peeling removes exactly as many rolls as it marks. */
  lemma {:induction false} PeelCount(g: seq<seq<char>>, acc: seq<seq<bool>>)
    requires MarksRolls(g, acc)
    ensures CountRolls(Peel(g, acc)) + CountTrue(acc) == CountRolls(g)
    decreases |g|
  {
    if |g| > 0 {
      var n := |g| - 1;
      assert MarksRolls(g[..n], acc[..n]);
      PeelCount(g[..n], acc[..n]);
      assert Peel(g, acc)[..n] == Peel(g[..n], acc[..n]);
      PeelRowCount(g[n], acc[n]);
    }
  }

  lemma {:induction false} NoneMarkedRow(acc: seq<bool>)
    requires CountTrueRow(acc) == 0
    ensures forall i :: 0 <= i < |acc| ==> !acc[i]
    decreases |acc|
  {
    if |acc| > 0 {
      NoneMarkedRow(acc[..|acc| - 1]);
    }
  }

  /** With nothing marked, peeling changes nothing. */
  lemma {:induction false} PeelNothing(g: seq<seq<char>>, acc: seq<seq<bool>>)
    requires MarksRolls(g, acc) && CountTrue(acc) == 0
    ensures Peel(g, acc) == g
    decreases |g|
  {
    if |g| > 0 {
      var n := |g| - 1;
      assert MarksRolls(g[..n], acc[..n]);
      PeelNothing(g[..n], acc[..n]);
      assert Peel(g, acc)[..n] == Peel(g[..n], acc[..n]);
      NoneMarkedRow(acc[n]);
      assert PeelRow(g[n], acc[n]) == g[n];
    }
  }

  /** Whether `(cx, cy)` lies on the grid and holds a roll. */
  predicate Occupied(g: seq<seq<char>>, cx: int, cy: int)
  {
    0 <= cy < |g| && 0 <= cx < |g[cy]| && g[cy][cx] == '@'
  }

  /** One neighbour's contribution in `can_access`. */
  function NeighbourValue(g: seq<seq<char>>, cx: int, cy: int, x0: int, y0: int): nat
  {
    if cx < 0 then 0
    else if cy < 0 then 0
    else if (cx, cy) == (x0, y0) then 0
    else if cy < |g| && cx < |g[cy]| && g[cy][cx] == '@' then 1
    else 0
  }

  function SumNeighbours(g: seq<seq<char>>, x0: int, y0: int, offs: seq<(int, int)>): (n: nat)
    ensures n <= |offs|
  {
    if |offs| == 0 then 0
    else NeighbourValue(g, x0 + offs[0].0, y0 + offs[0].1, x0, y0) + SumNeighbours(g, x0, y0, offs[1..])
  }

  /** The neighbour offsets of `(x0, y0)` that hold a roll. */
  ghost function RollOffsets(g: seq<seq<char>>, x0: int, y0: int, offs: seq<(int, int)>): set<(int, int)>
  {
    set o | o in offs && Occupied(g, x0 + o.0, y0 + o.1)
  }

  lemma RollOffsetsCons(g: seq<seq<char>>, x0: int, y0: int, offs: seq<(int, int)>)
    requires |offs| > 0
    ensures RollOffsets(g, x0, y0, offs)
            == RollOffsets(g, x0, y0, offs[1..]) + (if Occupied(g, x0 + offs[0].0, y0 + offs[0].1) then {offs[0]} else {})
  {
    assert forall p :: p in offs <==> p == offs[0] || p in offs[1..];
  }

  lemma {:induction false} SumIsCount(g: seq<seq<char>>, x0: int, y0: int, offs: seq<(int, int)>)
    requires forall i, j :: 0 <= i < j < |offs| ==> offs[i] != offs[j]
    requires (0, 0) !in offs
    ensures SumNeighbours(g, x0, y0, offs) == |RollOffsets(g, x0, y0, offs)|
    decreases |offs|
  {
    if |offs| > 0 {
      SumIsCount(g, x0, y0, offs[1..]);
      RollOffsetsCons(g, x0, y0, offs);
      assert offs[0] !in offs[1..];
    }
  }

  /**
   * The sum `can_access` folds: each neighbour that is on the grid and holds
   * a roll counts once, whatever the order of the offsets.
   */
  function NeighbourCount(g: seq<seq<char>>, x0: int, y0: int): (n: nat)
    ensures n == |RollOffsets(g, x0, y0, Offsets)|
    ensures n <= 8
  {
    SumIsCount(g, x0, y0, Offsets);
    SumNeighbours(g, x0, y0, Offsets)
  }

  /** `can_access`: fewer than four neighbouring rolls. */
  predicate Accessible(g: seq<seq<char>>, x0: int, y0: int)
  {
    NeighbourCount(g, x0, y0) < 4
  }

  /** `is_accessable`: a grid of the same shape marking the reachable rolls. */
  function AccessibleCells(g: seq<seq<char>>): (acc: seq<seq<bool>>)
    ensures MarksRolls(g, acc)
    ensures forall j, i :: 0 <= j < |g| && 0 <= i < |g[j]| ==>
              (acc[j][i] <==> g[j][i] == '@' && Accessible(g, i, j))
  {
    seq(|g|, j requires 0 <= j < |g| => AccessibleRow(g, j))
  }

  function AccessibleRow(g: seq<seq<char>>, j: nat): (acc: seq<bool>)
    requires j < |g|
    ensures |acc| == |g[j]|
    ensures forall i :: 0 <= i < |acc| ==> (acc[i] <==> g[j][i] == '@' && Accessible(g, i, j))
  {
    seq(|g[j]|, i requires 0 <= i < |g[j]| => g[j][i] == '@' && Accessible(g, i, j))
  }

  /** The width recorded by `add_line`: the length of the first non-empty row, or 0. */
  function FirstWidth(rows: seq<seq<char>>): nat
  {
    if |rows| == 0 then 0 else if |rows[0]| != 0 then |rows[0]| else FirstWidth(rows[1..])
  }

  lemma {:induction false} FirstWidthSnoc(rows: seq<seq<char>>, line: seq<char>)
    ensures FirstWidth(rows + [line]) == if FirstWidth(rows) == 0 then |line| else FirstWidth(rows)
    decreases |rows|
  {
    if |rows| == 0 {
      assert rows + [line] == [line];
    } else {
      assert (rows + [line])[1..] == rows[1..] + [line];
      FirstWidthSnoc(rows[1..], line);
    }
  }

  class Grid {
    var chars: seq<seq<char>>
    var x: nat
    var y: nat

    predicate Valid()
      reads this
    {
      y == |chars| && x == FirstWidth(chars)
    }

    /** `Grid::default`: no rows. */
    constructor ()
      ensures Valid() && chars == [] && x == 0 && y == 0
    {
      chars := [];
      x := 0;
      y := 0;
    }

    /** `add_line`: append a row; the width is taken from the first row that has one. */
    method AddLine(line: seq<char>)
      requires Valid()
      modifies this
      ensures Valid()
      ensures chars == old(chars) + [line] && y == old(y) + 1
      ensures x == if old(x) == 0 then |line| else old(x)
    {
      FirstWidthSnoc(chars, line);
      if x == 0 {
        x := |line|;
      }
      y := y + 1;
      chars := chars + [line];
    }

    /** `can_access` on this grid. */
    predicate CanAccess(x0: int, y0: int)
      reads this
    {
      Accessible(chars, x0, y0)
    }

    /** `is_accessable` on this grid. */
    function IsAccessible(): (acc: seq<seq<bool>>)
      reads this
      ensures MarksRolls(chars, acc)
    {
      AccessibleCells(chars)
    }

    /** `num_accessable`. */
    function NumAccessible(): nat
      reads this
    {
      CountTrue(IsAccessible())
    }

    /**
     * `update_accessable`: rewrite every reachable roll to `X` in place and
     * return how many there were.
     */
    method UpdateAccessible() returns (removed: nat)
      requires Valid()
      modifies this
      ensures Valid() && x == old(x) && y == old(y)
      ensures chars == Peel(old(chars), old(IsAccessible()))
      ensures removed == old(NumAccessible())
      ensures CountRolls(chars) == old(CountRolls(chars)) - removed
      ensures removed == 0 ==> chars == old(chars) && NumAccessible() == 0
    {
      var acc := IsAccessible();
      removed := CountTrue(acc);
      ghost var g := chars;
      ghost var target := Peel(g, acc);
      var j := 0;
      while j < |chars|
        invariant 0 <= j <= |chars| == |g|
        invariant forall k :: 0 <= k < j ==> chars[k] == target[k]
        invariant forall k :: j <= k < |g| ==> chars[k] == g[k]
        invariant x == old(x) && y == old(y)
      {
        var row := PeelRowInPlace(chars[j], acc[j]);
        chars := chars[j := row];
        j := j + 1;
      }
      assert chars == target;
      PeelCount(g, acc);
      if removed == 0 {
        PeelNothing(g, acc);
        assert chars == g;
      }
      PeelShape(g, acc);
    }

    /** The removal loop of `main`: peel until a round removes nothing. */
    method RemoveAll() returns (total: nat)
      requires Valid()
      modifies this
      ensures Valid() && x == old(x) && y == old(y)
      ensures NumAccessible() == 0
      ensures total + CountRolls(chars) == old(CountRolls(chars))
    {
      total := 0;
      while true
        invariant Valid() && x == old(x) && y == old(y)
        invariant total + CountRolls(chars) == old(CountRolls(chars))
        decreases CountRolls(chars)
      {
        var more := UpdateAccessible();
        total := total + more;
        if more == 0 {
          break;
        }
      }
    }
  }

  /** The inner loop of `update_accessable`: one row, cell by cell. */
  method PeelRowInPlace(row: seq<char>, acc: seq<bool>) returns (r: seq<char>)
    requires |acc| == |row|
    ensures r == PeelRow(row, acc)
  {
    r := row;
    var i := 0;
    while i < |r|
      invariant 0 <= i <= |r| == |row|
      invariant forall k :: 0 <= k < i ==> r[k] == (if acc[k] then 'X' else row[k])
      invariant forall k :: i <= k < |r| ==> r[k] == row[k]
    {
      if acc[i] {
        r := r[i := 'X'];
      }
      i := i + 1;
    }
  }

  /** Peeling keeps the row lengths, hence the recorded width. */
  lemma PeelShape(g: seq<seq<char>>, acc: seq<seq<bool>>)
    requires MarksRolls(g, acc)
    ensures FirstWidth(Peel(g, acc)) == FirstWidth(g)
  {
    var p := Peel(g, acc);
    assert forall j :: 0 <= j < |g| ==> |p[j]| == |g[j]|;
    SameWidths(p, g);
  }

  lemma {:induction false} SameWidths(a: seq<seq<char>>, b: seq<seq<char>>)
    requires |a| == |b| && forall j :: 0 <= j < |a| ==> |a[j]| == |b[j]|
    ensures FirstWidth(a) == FirstWidth(b)
    decreases |a|
  {
    if |a| > 0 {
      SameWidths(a[1..], b[1..]);
    }
  }
}
