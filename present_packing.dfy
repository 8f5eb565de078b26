/**
 * 2025 day 12: presents drawn on 3-by-3 boxes, and rectangular regions under
 * trees that must hold a given number of each present. A present is placed
 * by turning it, optionally "flipping" it, and marking the cells it covers in
 * a grid of booleans, failing on the first cell already taken.
 */
module PresentPacking {
  import opened Wrappers
  import opened Text
  import opened Grids

  datatype Rotation = NoRotation | Quarter | Half | ThreeQuarters

  // ---------------------------------------------------------------------------
  // Turning and flipping a 3-by-3 box

  predicate InBox(c: Coordinate)
  {
    c.0 <= 2 && c.1 <= 2
  }

  /** Turn cell `(i, j)` of the box (the second half of `modify_coord`). */
  function Turn(c: Coordinate, rotation: Rotation): (d: Coordinate)
    requires InBox(c)
    ensures InBox(d)
  {
    var (i, j) := c;
    match rotation
    case NoRotation => (i, j)
    case Quarter => (2 - j, i)
    case Half => (2 - i, 2 - j)
    case ThreeQuarters => (j, 2 - i)
  }

  /**
   * `modify_coord` as written: the "flip" maps `(i, j)` to `(2 - i, 2 - j)`,
   * which is the half turn again rather than a mirror image.
   */
  function ModifyCoordAsWritten(c: Coordinate, rotation: Rotation, flipped: bool): (d: Coordinate)
    requires InBox(c)
    ensures InBox(d)
  {
    Turn(if flipped then (2 - c.0, 2 - c.1) else c, rotation)
  }

  /** A rotation followed by a further half turn. */
  function ThenHalf(rotation: Rotation): Rotation
  {
    match rotation
    case NoRotation => Half
    case Quarter => ThreeQuarters
    case Half => NoRotation
    case ThreeQuarters => Quarter
  }

  /**
   * As written, every flipped placement coincides with an unflipped one: the
   * eight combinations tried at a position give only the four turns of the
   * present, and its mirror image is never tried.
   */
  lemma FlipIsHalfTurn(c: Coordinate, rotation: Rotation)
    requires InBox(c)
    ensures ModifyCoordAsWritten(c, rotation, true) == ModifyCoordAsWritten(c, ThenHalf(rotation), false)
  {
  }

  /** `modify_coord` with the flip as a mirror image, `(i, j)` to `(2 - i, j)`, before the rotation. */
  function ModifyCoord(c: Coordinate, rotation: Rotation, flipped: bool): (d: Coordinate)
    requires InBox(c)
    ensures InBox(d)
  {
    Turn(if flipped then (2 - c.0, c.1) else c, rotation)
  }

  /**
   * The eight combinations of rotation and flip move the box in eight
   * different ways: two of them agree on the cells `(0, 0)` and `(0, 1)` only
   * when they are the same combination.
   */
  lemma ModifyDistinct(r1: Rotation, f1: bool, r2: Rotation, f2: bool)
    requires ModifyCoord((0, 0), r1, f1) == ModifyCoord((0, 0), r2, f2)
    requires ModifyCoord((0, 1), r1, f1) == ModifyCoord((0, 1), r2, f2)
    ensures r1 == r2 && f1 == f2
  {
  }

  /** Undo the rotation, then the flip. */
  function RestoreCoord(d: Coordinate, rotation: Rotation, flipped: bool): (c: Coordinate)
    requires InBox(d)
    ensures InBox(c)
  {
    var (i, j) := match rotation
      case NoRotation => d
      case Quarter => (d.1, 2 - d.0)
      case Half => (2 - d.0, 2 - d.1)
      case ThreeQuarters => (2 - d.1, d.0);
    if flipped then (2 - i, j) else (i, j)
  }

  lemma RestoreModify(c: Coordinate, rotation: Rotation, flipped: bool)
    requires InBox(c)
    ensures RestoreCoord(ModifyCoord(c, rotation, flipped), rotation, flipped) == c
  {
    var f := if flipped then (2 - c.0, c.1) else c;
    assert RestoreCoord(ModifyCoord(c, rotation, flipped), rotation, false) == f by {
      match rotation
      case NoRotation =>
      case Quarter =>
      case Half =>
      case ThreeQuarters =>
    }
  }

  lemma ModifyRestore(d: Coordinate, rotation: Rotation, flipped: bool)
    requires InBox(d)
    ensures ModifyCoord(RestoreCoord(d, rotation, flipped), rotation, flipped) == d
  {
    var u := RestoreCoord(d, rotation, false);
    assert ModifyCoord(u, rotation, false) == d by {
      match rotation
      case NoRotation =>
      case Quarter =>
      case Half =>
      case ThreeQuarters =>
    }
  }

  /** Every turn and flip moves the nine cells of the box onto the nine cells of the box, one to one. */
  lemma ModifyBijective(rotation: Rotation, flipped: bool)
    ensures forall c :: InBox(c) ==> RestoreCoord(ModifyCoord(c, rotation, flipped), rotation, flipped) == c
    ensures forall d :: InBox(d) ==> ModifyCoord(RestoreCoord(d, rotation, flipped), rotation, flipped) == d
    ensures forall c1, c2 :: InBox(c1) && InBox(c2) && ModifyCoord(c1, rotation, flipped) == ModifyCoord(c2, rotation, flipped) ==> c1 == c2
  {
    forall c | InBox(c) ensures RestoreCoord(ModifyCoord(c, rotation, flipped), rotation, flipped) == c {
      RestoreModify(c, rotation, flipped);
    }
    forall d | InBox(d) ensures ModifyCoord(RestoreCoord(d, rotation, flipped), rotation, flipped) == d {
      ModifyRestore(d, rotation, flipped);
    }
    forall c1, c2 | InBox(c1) && InBox(c2) && ModifyCoord(c1, rotation, flipped) == ModifyCoord(c2, rotation, flipped)
      ensures c1 == c2
    {
      RestoreModify(c1, rotation, flipped);
      RestoreModify(c2, rotation, flipped);
    }
  }

  // ---------------------------------------------------------------------------
  // Present shapes

  datatype PresentShape = PresentShape(locs: seq<seq<bool>>)

  /**
   * `PresentShape::from_lines`: the first line (the `0:` header) is dropped;
   * each later line becomes a row, `#` marking a cell of the present.
   */
  function ShapeFromLines(lines: seq<string>): (s: PresentShape)
    ensures |s.locs| == if |lines| == 0 then 0 else |lines| - 1
    ensures forall k :: 0 <= k < |s.locs| ==> |s.locs[k]| == |lines[k + 1]|
    ensures forall k, m :: 0 <= k < |s.locs| && 0 <= m < |s.locs[k]| ==> (s.locs[k][m] <==> lines[k + 1][m] == '#')
  {
    if |lines| == 0 then PresentShape([])
    else PresentShape(seq(|lines| - 1, k requires 0 <= k < |lines| - 1 =>
                          seq(|lines[k + 1]|, m requires 0 <= m < |lines[k + 1]| => lines[k + 1][m] == '#')))
  }

  /** The lines a shape is drawn with: a header, then `#` for the present's cells and `.` elsewhere. */
  function ShowShape(header: string, s: PresentShape): (lines: seq<string>)
    ensures |lines| == |s.locs| + 1 && lines[0] == header
    ensures forall k :: 0 <= k < |s.locs| ==> |lines[k + 1]| == |s.locs[k]|
    ensures forall k, m :: 0 <= k < |s.locs| && 0 <= m < |s.locs[k]| ==> lines[k + 1][m] == if s.locs[k][m] then '#' else '.'
  {
    [header] + seq(|s.locs|, k requires 0 <= k < |s.locs| =>
                   seq(|s.locs[k]|, m requires 0 <= m < |s.locs[k]| => if s.locs[k][m] then '#' else '.'))
  }

  lemma ShapeFromShown(header: string, s: PresentShape)
    ensures ShapeFromLines(ShowShape(header, s)) == s
  {
    var t := ShapeFromLines(ShowShape(header, s));
    assert forall k :: 0 <= k < |s.locs| ==> t.locs[k] == s.locs[k];
  }

  function CountTrue(row: seq<bool>): (n: nat)
    ensures n <= |row|
  {
    if |row| == 0 then 0 else CountTrue(row[..|row| - 1]) + (if row[|row| - 1] then 1 else 0)
  }

  function CountRows(rows: seq<seq<bool>>): nat
  {
    if |rows| == 0 then 0 else CountRows(rows[..|rows| - 1]) + CountTrue(rows[|rows| - 1])
  }

  /** `PresentShape::size`: how many cells the present covers. */
  function Size(s: PresentShape): nat
  {
    CountRows(s.locs)
  }

  /** The shape covers the whole 3-by-3 box the placement loops read. */
  predicate Boxed(s: PresentShape)
  {
    |s.locs| >= 3 && forall k :: 0 <= k < |s.locs| ==> |s.locs[k]| >= 3
  }

  /** The shape is exactly a 3-by-3 box, as every present of the puzzle is. */
  predicate ExactlyBoxed(s: PresentShape)
  {
    |s.locs| == 3 && forall k :: 0 <= k < 3 ==> |s.locs[k]| == 3
  }

  // ---------------------------------------------------------------------------
  // Placing a present

  /** The cells of the box in the order the placement loops visit them. */
  const BoxCells: seq<Coordinate> := [(0, 0), (0, 1), (0, 2), (1, 0), (1, 1), (1, 2), (2, 0), (2, 1), (2, 2)]

  lemma BoxCellsIndex()
    ensures forall i, j :: 0 <= i < 3 && 0 <= j < 3 ==> BoxCells[3 * i + j] == (i, j)
    ensures forall k :: 0 <= k < 9 ==> InBox(BoxCells[k])
  {
  }

  lemma BoxCellAt(i: nat, j: nat)
    requires i < 3 && j < 3
    ensures BoxCells[3 * i + j] == (i, j)
  {
  }

  lemma BoxCellsDistinct(k: nat, l: nat)
    requires k < l < 9
    ensures BoxCells[k] != BoxCells[l]
  {
  }

  /**
   * Where cell `c` of the present lands when placed at `at`: `(x, y)`, the
   * state's column and row, through `modify_coord` as written.
   */
  function Target(at: Coordinate, c: Coordinate, rotation: Rotation, flipped: bool): Coordinate
    requires InBox(c)
  {
    var m := ModifyCoordAsWritten(c, rotation, flipped);
    (m.0 + at.0, m.1 + at.1)
  }

  /**
   * The transform as written still moves different cells of the box to
   * different cells: a flipped placement is a turned one, and every turn is
   * one to one.
   */
  lemma ModifyAsWrittenInjective(c1: Coordinate, c2: Coordinate, rotation: Rotation, flipped: bool)
    requires InBox(c1) && InBox(c2)
    requires ModifyCoordAsWritten(c1, rotation, flipped) == ModifyCoordAsWritten(c2, rotation, flipped)
    ensures c1 == c2
  {
    var turn := if flipped then ThenHalf(rotation) else rotation;
    FlipIsHalfTurn(c1, rotation);
    FlipIsHalfTurn(c2, rotation);
    assert ModifyCoord(c1, turn, false) == ModifyCoord(c2, turn, false);
    RestoreModify(c1, turn, false);
    RestoreModify(c2, turn, false);
  }

  /** Different cells of the present land on different positions. */
  lemma TargetInjective(at: Coordinate, c1: Coordinate, c2: Coordinate, rotation: Rotation, flipped: bool)
    requires InBox(c1) && InBox(c2) && Target(at, c1, rotation, flipped) == Target(at, c2, rotation, flipped)
    ensures c1 == c2
  {
    assert ModifyCoordAsWritten(c1, rotation, flipped) == ModifyCoordAsWritten(c2, rotation, flipped);
    ModifyAsWrittenInjective(c1, c2, rotation, flipped);
  }

  /** The positions covered by the present's cells among the first `k` cells of the box. */
  function Marks(s: PresentShape, at: Coordinate, rotation: Rotation, flipped: bool, k: nat): set<Coordinate>
    requires Boxed(s) && k <= 9
  {
    if k == 0 then {}
    else
      var c := BoxCells[k - 1];
      Marks(s, at, rotation, flipped, k - 1) + (if s.locs[c.0][c.1] then {Target(at, c, rotation, flipped)} else {})
  }

  /** All the positions the placed present covers. */
  function Footprint(s: PresentShape, at: Coordinate, rotation: Rotation, flipped: bool): set<Coordinate>
    requires Boxed(s)
  {
    Marks(s, at, rotation, flipped, |BoxCells|)
  }

  /** Every position is inside the state and not yet taken. */
  predicate Free(state: seq<seq<bool>>, cells: set<Coordinate>)
  {
    forall c :: c in cells ==> c.1 < |state| && c.0 < |state[c.1]| && !state[c.1][c.0]
  }

  /** The state with the given positions taken. */
  function Painted(state: seq<seq<bool>>, cells: set<Coordinate>): (r: seq<seq<bool>>)
    ensures |r| == |state| && forall y :: 0 <= y < |r| ==> |r[y]| == |state[y]|
    ensures forall y, x :: 0 <= y < |r| && 0 <= x < |r[y]| ==> r[y][x] == (state[y][x] || (x, y) in cells)
  {
    seq(|state|, y requires 0 <= y < |state| =>
        seq(|state[y]|, x requires 0 <= x < |state[y]| => state[y][x] || (x, y) in cells))
  }

  /** The box placed at `at` lies inside every row of the state. */
  predicate Inside(state: seq<seq<bool>>, at: Coordinate)
  {
    at.1 + 2 < |state| && forall y :: 0 <= y < |state| ==> at.0 + 2 < |state[y]|
  }

  /**
   * `check_collide_and_place`: returns whether some cell of the present lands
   * on a taken position. When it does not, every cell of the present is now
   * taken and nothing else changed; when it does, the cells visited before
   * the collision may already be taken, and nothing outside the present's
   * footprint changed.
   */
  method CheckCollideAndPlace(s: PresentShape, at: Coordinate, state: seq<seq<bool>>, rotation: Rotation, flipped: bool)
    returns (collided: bool, state': seq<seq<bool>>)
    requires Boxed(s) && Inside(state, at)
    ensures !collided <==> Free(state, Footprint(s, at, rotation, flipped))
    ensures !collided ==> state' == Painted(state, Footprint(s, at, rotation, flipped))
    ensures OnlyAdds(state, state', Footprint(s, at, rotation, flipped))
  {
    PlacedNothing(s, at, rotation, flipped, state);
    state' := state;
    for i := 0 to 3
      invariant PlacedUpTo(s, at, rotation, flipped, state, state', i, 0)
    {
      for j := 0 to 3
        invariant PlacedUpTo(s, at, rotation, flipped, state, state', i, j)
      {
        var (absI, absJ) := Target(at, (i, j), rotation, flipped);
        StepInside(s, at, rotation, flipped, state, state', i, j);
        ghost var before := state';
        if s.locs[i][j] {
          if state'[absJ][absI] {
            StepCollide(s, at, rotation, flipped, state, state', i, j);
            return true, state';
          }
          state' := state'[absJ := state'[absJ][absI := true]];
        }
        Step(s, at, rotation, flipped, state, before, state', i, j);
      }
      RowDone(s, at, rotation, flipped, state, state', i);
    }
    PlacedAll(s, at, rotation, flipped, state, state');
    collided := false;
  }

  /** `state'` is `state` with the positions in `marks` taken, and none of those was taken in `state`. */
  ghost predicate Tracks(state: seq<seq<bool>>, state': seq<seq<bool>>, marks: set<Coordinate>)
  {
    && |state'| == |state| && (forall y :: 0 <= y < |state| ==> |state'[y]| == |state[y]|)
    && (forall y, x :: 0 <= y < |state| && 0 <= x < |state[y]| ==> state'[y][x] == (state[y][x] || (x, y) in marks))
    && Free(state, marks)
  }

  /** The placement loops have marked the present's cells in the box's first `i` rows and the first `j` of row `i`, and none of them was taken before. */
  ghost predicate PlacedUpTo(s: PresentShape, at: Coordinate, rotation: Rotation, flipped: bool,
                             state: seq<seq<bool>>, state': seq<seq<bool>>, i: nat, j: nat)
    requires Boxed(s) && 3 * i + j <= 9
  {
    var k := 3 * i + j;
    && |state'| == |state| && (forall y :: 0 <= y < |state| ==> |state'[y]| == |state[y]|)
    && (forall y, x :: 0 <= y < |state| && 0 <= x < |state[y]| ==>
          state'[y][x] == (state[y][x] || (x, y) in Marks(s, at, rotation, flipped, k)))
    && Free(state, Marks(s, at, rotation, flipped, k))
  }

  /** What a collision, or the end of the loops, leaves behind: the shape of the state and what changed in it. */
  ghost predicate OnlyAdds(state: seq<seq<bool>>, state': seq<seq<bool>>, cells: set<Coordinate>)
  {
    && |state'| == |state| && (forall y :: 0 <= y < |state| ==> |state'[y]| == |state[y]|)
    && forall y, x :: 0 <= y < |state| && 0 <= x < |state[y]| ==> state'[y][x] == state[y][x] || ((x, y) in cells && state'[y][x])
  }

  lemma PlacedNothing(s: PresentShape, at: Coordinate, rotation: Rotation, flipped: bool, state: seq<seq<bool>>)
    requires Boxed(s)
    ensures PlacedUpTo(s, at, rotation, flipped, state, state, 0, 0)
  {
    PaintNothing(state);
  }

  lemma PlacedAll(s: PresentShape, at: Coordinate, rotation: Rotation, flipped: bool, state: seq<seq<bool>>, state': seq<seq<bool>>)
    requires Boxed(s) && PlacedUpTo(s, at, rotation, flipped, state, state', 3, 0)
    ensures Free(state, Footprint(s, at, rotation, flipped))
    ensures state' == Painted(state, Footprint(s, at, rotation, flipped))
    ensures OnlyAdds(state, state', Footprint(s, at, rotation, flipped))
  {
    var p := Painted(state, Footprint(s, at, rotation, flipped));
    assert forall y :: 0 <= y < |state| ==> state'[y] == p[y];
  }

  lemma RowDone(s: PresentShape, at: Coordinate, rotation: Rotation, flipped: bool,
                state: seq<seq<bool>>, state': seq<seq<bool>>, i: nat)
    requires Boxed(s) && i < 3 && PlacedUpTo(s, at, rotation, flipped, state, state', i, 3)
    ensures PlacedUpTo(s, at, rotation, flipped, state, state', i + 1, 0)
  {
    assert 3 * i + 3 == 3 * (i + 1) + 0;
  }

  /** Each cell of the box lands inside the state. */
  lemma StepInside(s: PresentShape, at: Coordinate, rotation: Rotation, flipped: bool,
                   state: seq<seq<bool>>, state': seq<seq<bool>>, i: nat, j: nat)
    requires Boxed(s) && Inside(state, at) && i < 3 && j < 3
    requires PlacedUpTo(s, at, rotation, flipped, state, state', i, j)
    ensures var t := Target(at, (i, j), rotation, flipped); t.1 < |state'| && t.0 < |state'[t.1]|
  {
  }

  /** A cell of the box that is not taken marks its position, if it belongs to the present. */
  lemma Step(s: PresentShape, at: Coordinate, rotation: Rotation, flipped: bool,
             state: seq<seq<bool>>, before: seq<seq<bool>>, after: seq<seq<bool>>, i: nat, j: nat)
    requires Boxed(s) && i < 3 && j < 3
    requires PlacedUpTo(s, at, rotation, flipped, state, before, i, j)
    requires var t := Target(at, (i, j), rotation, flipped);
      && t.1 < |before| && t.0 < |before[t.1]|
      && after == (if s.locs[i][j] then before[t.1 := before[t.1][t.0 := true]] else before)
      && (s.locs[i][j] ==> !before[t.1][t.0])
    ensures PlacedUpTo(s, at, rotation, flipped, state, after, i, j + 1)
  {
    if s.locs[i][j] {
      StepPaint(s, at, rotation, flipped, state, before, after, i, j);
    } else {
      StepSkip(s, at, rotation, flipped, state, before, i, j);
    }
  }

  /** A cell outside the present marks nothing. */
  lemma StepSkip(s: PresentShape, at: Coordinate, rotation: Rotation, flipped: bool,
                 state: seq<seq<bool>>, state': seq<seq<bool>>, i: nat, j: nat)
    requires Boxed(s) && i < 3 && j < 3 && !s.locs[i][j]
    requires PlacedUpTo(s, at, rotation, flipped, state, state', i, j)
    ensures PlacedUpTo(s, at, rotation, flipped, state, state', i, j + 1)
  {
    MarkStepAt(s, at, rotation, flipped, i, j);
  }

  /** Cell `(i, j)` of the box marks its target, if it belongs to the present. */
  lemma MarkStepAt(s: PresentShape, at: Coordinate, rotation: Rotation, flipped: bool, i: nat, j: nat)
    requires Boxed(s) && i < 3 && j < 3
    ensures Marks(s, at, rotation, flipped, 3 * i + (j + 1)) ==
      Marks(s, at, rotation, flipped, 3 * i + j) + (if s.locs[i][j] then {Target(at, (i, j), rotation, flipped)} else {})
  {
    BoxCellAt(i, j);
    MarkStep(s, at, rotation, flipped, 3 * i + j);
  }

  /** A cell of the present landing on a free position marks it. */
  lemma StepPaint(s: PresentShape, at: Coordinate, rotation: Rotation, flipped: bool,
                  state: seq<seq<bool>>, before: seq<seq<bool>>, after: seq<seq<bool>>, i: nat, j: nat)
    requires Boxed(s) && i < 3 && j < 3 && s.locs[i][j]
    requires PlacedUpTo(s, at, rotation, flipped, state, before, i, j)
    requires var t := Target(at, (i, j), rotation, flipped);
      && t.1 < |before| && t.0 < |before[t.1]| && !before[t.1][t.0]
      && after == before[t.1 := before[t.1][t.0 := true]]
    ensures PlacedUpTo(s, at, rotation, flipped, state, after, i, j + 1)
  {
    var t := Target(at, (i, j), rotation, flipped);
    var marks := Marks(s, at, rotation, flipped, 3 * i + j);
    MarkStepAt(s, at, rotation, flipped, i, j);
    assert Tracks(state, before, marks);
    PaintPoint(state, before, after, marks, t);
    TracksPlaced(s, at, rotation, flipped, state, after, i, j + 1);
  }

  lemma TracksPlaced(s: PresentShape, at: Coordinate, rotation: Rotation, flipped: bool,
                     state: seq<seq<bool>>, state': seq<seq<bool>>, i: nat, j: nat)
    requires Boxed(s) && 3 * i + j <= 9 && Tracks(state, state', Marks(s, at, rotation, flipped, 3 * i + j))
    ensures PlacedUpTo(s, at, rotation, flipped, state, state', i, j)
  {
  }

  /** Taking one more free position keeps the state equal to the original with the grown set of positions taken. */
  lemma PaintPoint(state: seq<seq<bool>>, before: seq<seq<bool>>, after: seq<seq<bool>>, marks: set<Coordinate>, t: Coordinate)
    requires Tracks(state, before, marks)
    requires t.1 < |state| && t.0 < |state[t.1]| && !before[t.1][t.0]
    requires after == before[t.1 := before[t.1][t.0 := true]]
    ensures Tracks(state, after, marks + {t})
  {
    forall y, x | 0 <= y < |state| && 0 <= x < |state[y]|
      ensures after[y][x] == (state[y][x] || (x, y) in marks + {t})
    {
      if (x, y) == t {
        assert after[y][x];
      } else {
        assert after[y][x] == before[y][x];
      }
    }
  }

  /** A cell of the present landing on a taken position is a collision of the whole footprint. */
  lemma StepCollide(s: PresentShape, at: Coordinate, rotation: Rotation, flipped: bool,
                    state: seq<seq<bool>>, state': seq<seq<bool>>, i: nat, j: nat)
    requires Boxed(s) && i < 3 && j < 3 && s.locs[i][j]
    requires PlacedUpTo(s, at, rotation, flipped, state, state', i, j)
    requires var t := Target(at, (i, j), rotation, flipped); t.1 < |state'| && t.0 < |state'[t.1]| && state'[t.1][t.0]
    ensures !Free(state, Footprint(s, at, rotation, flipped))
    ensures OnlyAdds(state, state', Footprint(s, at, rotation, flipped))
  {
    var k := 3 * i + j;
    BoxCellAt(i, j);
    Collision(s, at, rotation, flipped, state, k);
  }

  lemma MarkStep(s: PresentShape, at: Coordinate, rotation: Rotation, flipped: bool, k: nat)
    requires Boxed(s) && k < 9
    ensures var c := BoxCells[k];
      Marks(s, at, rotation, flipped, k + 1) ==
      Marks(s, at, rotation, flipped, k) + (if s.locs[c.0][c.1] then {Target(at, c, rotation, flipped)} else {})
  {
  }

  /** The present's cells land on different positions, so a cell never lands on an earlier cell's mark. */
  lemma {:induction false} MarksBefore(s: PresentShape, at: Coordinate, rotation: Rotation, flipped: bool, k: nat, l: nat)
    requires Boxed(s) && k <= l < 9
    ensures Target(at, BoxCells[l], rotation, flipped) !in Marks(s, at, rotation, flipped, k)
  {
    if k > 0 {
      MarksBefore(s, at, rotation, flipped, k - 1, l);
      BoxCellsIndex();
      BoxCellsDistinct(k - 1, l);
      var c, d := BoxCells[k - 1], BoxCells[l];
      if s.locs[c.0][c.1] && Target(at, c, rotation, flipped) == Target(at, d, rotation, flipped) {
        TargetInjective(at, c, d, rotation, flipped);
        assert false;
      }
    }
  }

  lemma {:induction false} MarksGrow(s: PresentShape, at: Coordinate, rotation: Rotation, flipped: bool, k: nat)
    requires Boxed(s) && k <= 9
    ensures forall l :: 0 <= l <= k ==> Marks(s, at, rotation, flipped, l) <= Marks(s, at, rotation, flipped, k)
  {
    if k > 0 {
      MarksGrow(s, at, rotation, flipped, k - 1);
    }
  }

  lemma PaintNothing(state: seq<seq<bool>>)
    ensures Painted(state, {}) == state
  {
    var q := Painted(state, {});
    assert forall v :: 0 <= v < |q| ==> q[v] == state[v];
  }

  /** A collision at cell `k` is a taken position under the footprint. */
  lemma Collision(s: PresentShape, at: Coordinate, rotation: Rotation, flipped: bool, state: seq<seq<bool>>, k: nat)
    requires Boxed(s) && k < 9
    requires var c, t := BoxCells[k], Target(at, BoxCells[k], rotation, flipped);
      s.locs[c.0][c.1] && t.1 < |state| && t.0 < |state[t.1]| && Painted(state, Marks(s, at, rotation, flipped, k))[t.1][t.0]
    ensures !Free(state, Footprint(s, at, rotation, flipped))
    ensures Marks(s, at, rotation, flipped, k) <= Footprint(s, at, rotation, flipped)
  {
    var t := Target(at, BoxCells[k], rotation, flipped);
    MarksBefore(s, at, rotation, flipped, k, k);
    MarksGrow(s, at, rotation, flipped, 9);
    MarkStep(s, at, rotation, flipped, k);
    assert t in Marks(s, at, rotation, flipped, k + 1);
    assert state[t.1][t.0];
  }

  /** How many of the first `k` cells of the box belong to the present. */
  function BoxCount(s: PresentShape, k: nat): (n: nat)
    requires Boxed(s) && k <= 9
    ensures n <= k
  {
    if k == 0 then 0 else BoxCount(s, k - 1) + (if s.locs[BoxCells[k - 1].0][BoxCells[k - 1].1] then 1 else 0)
  }

  lemma {:induction false} MarksCount(s: PresentShape, at: Coordinate, rotation: Rotation, flipped: bool, k: nat)
    requires Boxed(s) && k <= 9
    ensures |Marks(s, at, rotation, flipped, k)| == BoxCount(s, k)
  {
    if k > 0 {
      MarksCount(s, at, rotation, flipped, k - 1);
      MarksBefore(s, at, rotation, flipped, k - 1, k - 1);
      MarkStep(s, at, rotation, flipped, k - 1);
      var c := BoxCells[k - 1];
      var before := Marks(s, at, rotation, flipped, k - 1);
      if s.locs[c.0][c.1] {
        var t := Target(at, c, rotation, flipped);
        assert t !in before;
        assert |before + {t}| == |before| + 1;
      }
    }
  }

  lemma CountThree(row: seq<bool>)
    requires |row| == 3
    ensures CountTrue(row) == (if row[0] then 1 else 0) + (if row[1] then 1 else 0) + (if row[2] then 1 else 0)
  {
    assert row[..2][..1] == row[..1] && row[..1][..0] == [];
    assert CountTrue(row[..1]) == (if row[0] then 1 else 0);
    assert CountTrue(row[..2]) == CountTrue(row[..1]) + (if row[1] then 1 else 0);
  }

  /** The box's row `i` adds the count of that row's cells. */
  lemma BoxCountRow(s: PresentShape, i: nat)
    requires Boxed(s) && i < 3 && |s.locs[i]| == 3
    ensures BoxCount(s, 3 * i + 3) == BoxCount(s, 3 * i) + CountTrue(s.locs[i])
  {
    CountThree(s.locs[i]);
    BoxCellsIndex();
    assert BoxCells[3 * i] == (i, 0) && BoxCells[3 * i + 1] == (i, 1) && BoxCells[3 * i + 2] == (i, 2);
    assert BoxCount(s, 3 * i + 1) == BoxCount(s, 3 * i) + (if s.locs[i][0] then 1 else 0);
    assert BoxCount(s, 3 * i + 2) == BoxCount(s, 3 * i + 1) + (if s.locs[i][1] then 1 else 0);
    assert BoxCount(s, 3 * i + 3) == BoxCount(s, 3 * i + 2) + (if s.locs[i][2] then 1 else 0);
  }

  lemma BoxCountSize(s: PresentShape)
    requires ExactlyBoxed(s)
    ensures BoxCount(s, 9) == Size(s)
  {
    var l := s.locs;
    BoxCountRow(s, 0);
    BoxCountRow(s, 1);
    BoxCountRow(s, 2);
    assert l[..2][..1] == l[..1] && l[..1][..0] == [];
    assert CountRows(l[..1]) == CountTrue(l[0]);
    assert CountRows(l[..2]) == CountRows(l[..1]) + CountTrue(l[1]);
    assert CountRows(l) == CountRows(l[..2]) + CountTrue(l[2]);
  }

  /** The present covers as many positions as it has cells, when it is drawn on exactly a 3-by-3 box. */
  lemma FootprintSize(s: PresentShape, at: Coordinate, rotation: Rotation, flipped: bool)
    requires ExactlyBoxed(s)
    ensures |Footprint(s, at, rotation, flipped)| == Size(s)
  {
    MarksCount(s, at, rotation, flipped, 9);
    BoxCountSize(s);
  }

  lemma {:induction false} MarksInBox(s: PresentShape, at: Coordinate, rotation: Rotation, flipped: bool, k: nat)
    requires Boxed(s) && k <= 9
    ensures forall c :: c in Marks(s, at, rotation, flipped, k) ==> at.0 <= c.0 <= at.0 + 2 && at.1 <= c.1 <= at.1 + 2
  {
    if k > 0 {
      MarksInBox(s, at, rotation, flipped, k - 1);
      BoxCellsIndex();
    }
  }

  /** The placed present lies within the 3-by-3 box whose corner is `at`. */
  lemma FootprintInBox(s: PresentShape, at: Coordinate, rotation: Rotation, flipped: bool)
    requires Boxed(s)
    ensures forall c :: c in Footprint(s, at, rotation, flipped) ==> c in Block(at.0, 3, at.1, 3)
  {
    MarksInBox(s, at, rotation, flipped, 9);
    BlockFacts(at.0, 3, at.1, 3);
  }

  // ---------------------------------------------------------------------------
  // Regions

  datatype Region = Region(length: nat, height: nat, presentsRequired: seq<nat>)

  /**
   * `Region::from`: a line `LxH: c0 c1 ...`. Every number must parse and
   * there must be two dimensions and a `: ` separator (the source panics
   * otherwise, modelled as `None`); further dimensions and further
   * `: `-separated components are ignored.
   */
  function ParseRegion(line: string): (r: Option<Region>)
    ensures r.Some? ==>
      var components := Split(line, ": ");
      && |components| >= 2
      && ParseNats(Split(components[0], "x")).Some?
      && |ParseNats(Split(components[0], "x")).value| >= 2
      && r.value.length == ParseNats(Split(components[0], "x")).value[0]
      && r.value.height == ParseNats(Split(components[0], "x")).value[1]
      && Some(r.value.presentsRequired) == ParseNats(Split(components[1], " "))
  {
    var components := Split(line, ": ");
    if |components| < 2 then None
    else
      match ParseNats(Split(components[0], "x"))
      case None => None
      case Some(dimensions) =>
        if |dimensions| < 2 then None
        else
          match ParseNats(Split(components[1], " "))
          case None => None
          case Some(required) => Some(Region(dimensions[0], dimensions[1], required))
  }

  /** The line a region is written as. */
  function FormatRegion(r: Region): string
    requires |r.presentsRequired| >= 1
  {
    Join(ShowNats([r.length, r.height]), "x") + ": " + Join(ShowNats(r.presentsRequired), " ")
  }

  lemma ParseFormatRegion(r: Region)
    requires |r.presentsRequired| >= 1
    ensures ParseRegion(FormatRegion(r)) == Some(r)
  {
    var dims := ShowNats([r.length, r.height]);
    var counts := ShowNats(r.presentsRequired);
    var d, c := Join(dims, "x"), Join(counts, " ");
    JoinExcludes(dims, "x", ':');
    JoinExcludes(counts, " ", ':');
    assert FormatRegion(r) == Join([d, c], ": ");
    SplitJoin([d, c], ": ");
    SplitJoin(dims, "x");
    SplitJoin(counts, " ");
    ParseShowNats([r.length, r.height]);
    ParseShowNats(r.presentsRequired);
  }

  /** `Region::size`: the number of positions in the region. */
  function RegionSize(r: Region): (n: nat)
    ensures n == |StartState(r)| * r.length
  {
    r.height * r.length
  }

  /** `Region::definitely_can_pack`: how many disjoint 3-by-3 boxes tile the region. */
  function DefinitelyCanPack(r: Region): (n: nat)
    ensures 9 * n <= RegionSize(r)
  {
    (r.height / 3) * (r.length / 3)
  }

  /** `Region::start_state`: `height` rows of `length` free positions. */
  function StartState(r: Region): (state: seq<seq<bool>>)
    ensures |state| == r.height
    ensures forall y :: 0 <= y < r.height ==> |state[y]| == r.length && forall x :: 0 <= x < r.length ==> !state[y][x]
  {
    seq(r.height, _ => seq(r.length, _ => false))
  }

  // ---------------------------------------------------------------------------
  // Placements

  /** A position for the box's corner, a rotation, and whether the present is flipped. */
  type Placement = (Coordinate, Rotation, bool)

  /** The eight placements tried at one position, in the order they are pushed. */
  function Turns(at: Coordinate): seq<Placement>
  {
    [(at, NoRotation, true), (at, NoRotation, false), (at, Quarter, true), (at, Quarter, false),
     (at, Half, true), (at, Half, false), (at, ThreeQuarters, true), (at, ThreeQuarters, false)]
  }

  /** Placements at `(i, 0)` up to `(i, h - 1)`. */
  function PlacementColumn(i: nat, h: nat): seq<Placement>
  {
    if h == 0 then [] else PlacementColumn(i, h - 1) + Turns((i, h - 1))
  }

  /** Placements for the columns `0` up to `w - 1`, each of height `h`. */
  function PlacementGrid(w: nat, h: nat): seq<Placement>
  {
    if w == 0 then [] else PlacementGrid(w - 1, h) + PlacementColumn(w - 1, h)
  }

  /**
   * `Region::possible_placements`: all eight turns of the box at every corner
   * position that keeps the box inside the region. The source's `length - 3`
   * underflows (a panic) for a region narrower or lower than three.
   */
  method PossiblePlacements(r: Region) returns (placements: seq<Placement>)
    requires r.length >= 3 && r.height >= 3
    ensures placements == PlacementGrid(r.length - 2, r.height - 2)
  {
    placements := [];
    for i := 0 to r.length - 2
      invariant placements == PlacementGrid(i, r.height - 2)
    {
      for j := 0 to r.height - 2
        invariant placements == PlacementGrid(i, r.height - 2) + PlacementColumn(i, j)
      {
        placements := placements + Turns((i, j));
      }
    }
  }

  lemma TurnsMember(at: Coordinate, p: Placement)
    ensures p in Turns(at) <==> p.0 == at
  {
    if p.0 == at {
      var k := match p.1
        case NoRotation => 0
        case Quarter => 2
        case Half => 4
        case ThreeQuarters => 6;
      assert Turns(at)[if p.2 then k else k + 1] == p;
    }
  }

  lemma {:induction false} PlacementColumnMember(i: nat, h: nat, p: Placement)
    ensures |PlacementColumn(i, h)| == 8 * h
    ensures p in PlacementColumn(i, h) <==> p.0.0 == i && p.0.1 < h
  {
    if h > 0 {
      PlacementColumnMember(i, h - 1, p);
      TurnsMember((i, h - 1), p);
    }
  }

  lemma {:induction false} PlacementGridMember(w: nat, h: nat, p: Placement)
    ensures |PlacementGrid(w, h)| == 8 * (w * h)
    ensures p in PlacementGrid(w, h) <==> p.0.0 < w && p.0.1 < h
  {
    if w > 0 {
      PlacementGridMember(w - 1, h, p);
      PlacementColumnMember(w - 1, h, p);
      assert w * h == (w - 1) * h + h;
    }
  }

  /**
   * The possible placements number eight for every corner position that
   * keeps the box inside the region, and a placement is among them exactly
   * when its box lies inside the region's start state.
   */
  lemma PossiblePlacementsFacts(r: Region, p: Placement)
    requires r.length >= 3 && r.height >= 3
    ensures |PlacementGrid(r.length - 2, r.height - 2)| == 8 * ((r.length - 2) * (r.height - 2))
    ensures p in PlacementGrid(r.length - 2, r.height - 2) <==> Inside(StartState(r), p.0)
  {
    PlacementGridMember(r.length - 2, r.height - 2, p);
    var state := StartState(r);
    assert |state[0]| == r.length;
  }

  // ---------------------------------------------------------------------------
  // The presents to add

  /** Each present index `idx`, repeated as often as the region requires it, in index order. */
  function Expanded(required: seq<nat>): seq<nat>
  {
    if |required| == 0 then [] else Expanded(required[..|required| - 1]) + seq(required[|required| - 1], _ => |required| - 1)
  }

  /** `Region::presents_to_add`. */
  method PresentsToAdd(r: Region) returns (indices: seq<nat>)
    ensures indices == Expanded(r.presentsRequired)
  {
    indices := [];
    for idx := 0 to |r.presentsRequired|
      invariant indices == Expanded(r.presentsRequired[..idx])
    {
      assert r.presentsRequired[..idx + 1][..idx] == r.presentsRequired[..idx];
      for n := 0 to r.presentsRequired[idx]
        invariant indices == Expanded(r.presentsRequired[..idx]) + seq(n, _ => idx)
      {
        indices := indices + [idx];
      }
    }
    assert r.presentsRequired[..|r.presentsRequired|] == r.presentsRequired;
  }

  function SumOf(l: seq<nat>): nat
  {
    if |l| == 0 then 0 else SumOf(l[..|l| - 1]) + l[|l| - 1]
  }

  /** There are as many presents to add as the counts add up to. */
  lemma {:induction false} ExpandedLength(required: seq<nat>)
    ensures |Expanded(required)| == SumOf(required)
  {
    if |required| > 0 {
      ExpandedLength(required[..|required| - 1]);
    }
  }

  /** The presents to add come in non-decreasing index order. */
  lemma {:induction false} ExpandedSorted(required: seq<nat>)
    ensures forall a, b :: 0 <= a < b < |Expanded(required)| ==> Expanded(required)[a] <= Expanded(required)[b]
  {
    if |required| > 0 {
      var n := |required| - 1;
      var e, front := Expanded(required), Expanded(required[..n]);
      ExpandedSorted(required[..n]);
      forall a, b | 0 <= a < b < |e| ensures e[a] <= e[b] {
        if b >= |front| {
          assert e[b] == n;
          if a < |front| {
            ExpandedBelow(required[..n], a);
          }
        }
      }
    }
  }

  /** Index `v` occurs among the presents to add exactly as often as the region requires it. */
  lemma {:induction false} ExpandedCounts(required: seq<nat>, v: nat)
    ensures multiset(Expanded(required))[v] == if v < |required| then required[v] else 0
  {
    if |required| > 0 {
      var n := |required| - 1;
      ExpandedCounts(required[..n], v);
      RepeatCount(required[n], n, v);
      assert multiset(Expanded(required)) == multiset(Expanded(required[..n])) + multiset(seq(required[n], _ => n));
    }
  }

  lemma {:induction false} ExpandedBelow(required: seq<nat>, a: nat)
    requires a < |Expanded(required)|
    ensures Expanded(required)[a] < |required|
  {
    var n := |required| - 1;
    if a >= |Expanded(required[..n])| {
    } else {
      ExpandedBelow(required[..n], a);
    }
  }

  lemma {:induction false} RepeatCount(count: nat, n: nat, v: nat)
    ensures multiset(seq(count, _ => n))[v] == if v == n then count else 0
  {
    if count > 0 {
      RepeatCount(count - 1, n, v);
      assert seq(count, _ => n) == seq(count - 1, _ => n) + [n];
    }
  }

  // ---------------------------------------------------------------------------
  // The search

  predicate AllBoxed(shapes: seq<PresentShape>)
  {
    forall k :: 0 <= k < |shapes| ==> Boxed(shapes[k])
  }

  predicate IndicesBelow(toFit: seq<nat>, n: nat)
  {
    forall k :: 0 <= k < |toFit| ==> toFit[k] < n
  }

  /** Every placement keeps the box inside the state. */
  predicate AllInside(state: seq<seq<bool>>, placements: seq<Placement>)
  {
    forall k :: 0 <= k < |placements| ==> Inside(state, placements[k].0)
  }

  /** The positions covered by a present given a placement. */
  function Covered(s: PresentShape, p: Placement): set<Coordinate>
    requires Boxed(s)
  {
    Footprint(s, p.0, p.1, p.2)
  }

  /** What the search needs of its arguments for every step to stay inside the state. */
  predicate SearchArgs(shapes: seq<PresentShape>, placements: seq<Placement>, toFit: seq<nat>, state: seq<seq<bool>>, idx: nat)
  {
    AllBoxed(shapes) && IndicesBelow(toFit, |shapes|) && AllInside(state, placements) && idx <= |toFit|
  }

  lemma PaintedArgs(shapes: seq<PresentShape>, placements: seq<Placement>, toFit: seq<nat>, state: seq<seq<bool>>, idx: nat, cells: set<Coordinate>)
    requires SearchArgs(shapes, placements, toFit, state, idx) && idx < |toFit|
    ensures SearchArgs(shapes, placements, toFit, Painted(state, cells), idx + 1)
  {
  }

  /**
   * The presents `toFit[idx..]` can all be placed, one after the other and in
   * that order, each by some placement whose positions are free when it is
   * placed.
   */
  ghost predicate Fits(shapes: seq<PresentShape>, placements: seq<Placement>, toFit: seq<nat>, state: seq<seq<bool>>, idx: nat)
    requires SearchArgs(shapes, placements, toFit, state, idx)
    decreases |toFit| - idx, 1, 0
  {
    idx == |toFit| || FitsFrom(shapes, placements, toFit, state, idx, 0)
  }

  /** Present `toFit[idx]` fits by one of `placements[k..]`, and the later ones fit after it. */
  ghost predicate FitsFrom(shapes: seq<PresentShape>, placements: seq<Placement>, toFit: seq<nat>, state: seq<seq<bool>>, idx: nat, k: nat)
    requires SearchArgs(shapes, placements, toFit, state, idx) && idx < |toFit| && k <= |placements|
    decreases |toFit| - idx, 0, |placements| - k
  {
    k < |placements| &&
      (FitsWith(shapes, placements, toFit, state, idx, k) || FitsFrom(shapes, placements, toFit, state, idx, k + 1))
  }

  /** Present `toFit[idx]` fits by `placements[k]`, and the later ones fit after it. */
  ghost predicate FitsWith(shapes: seq<PresentShape>, placements: seq<Placement>, toFit: seq<nat>, state: seq<seq<bool>>, idx: nat, k: nat)
    requires SearchArgs(shapes, placements, toFit, state, idx) && idx < |toFit| && k < |placements|
    decreases |toFit| - idx, 0, 0
  {
    var cells := Covered(shapes[toFit[idx]], placements[k]);
    PaintedArgs(shapes, placements, toFit, state, idx, cells);
    Free(state, cells) && Fits(shapes, placements, toFit, Painted(state, cells), idx + 1)
  }

  /** `FitsFrom` holds exactly when some placement of `placements[k..]` lets the rest fit. */
  lemma {:induction false} FitsFromSome(shapes: seq<PresentShape>, placements: seq<Placement>, toFit: seq<nat>, state: seq<seq<bool>>, idx: nat, k: nat)
    requires SearchArgs(shapes, placements, toFit, state, idx) && idx < |toFit| && k <= |placements|
    ensures FitsFrom(shapes, placements, toFit, state, idx, k) ==>
      exists m :: k <= m < |placements| && FitsWith(shapes, placements, toFit, state, idx, m)
    ensures forall m :: k <= m < |placements| && FitsWith(shapes, placements, toFit, state, idx, m) ==>
      FitsFrom(shapes, placements, toFit, state, idx, k)
    decreases |placements| - k
  {
    if k < |placements| {
      FitsFromSome(shapes, placements, toFit, state, idx, k + 1);
      if FitsWith(shapes, placements, toFit, state, idx, k) {
        assert k <= k < |placements| && FitsWith(shapes, placements, toFit, state, idx, k);
      }
    }
  }

  /** One placement tried by the search: it either lets the rest fit or leaves the later placements to decide. */
  lemma SearchStep(shapes: seq<PresentShape>, placements: seq<Placement>, toFit: seq<nat>, state: seq<seq<bool>>, idx: nat, k: nat,
                   collided: bool, next: seq<seq<bool>>, rest: bool)
    requires SearchArgs(shapes, placements, toFit, state, idx) && idx < |toFit| && k < |placements|
    requires var cells := Covered(shapes[toFit[idx]], placements[k]);
      && (!collided <==> Free(state, cells))
      && (!collided ==> next == Painted(state, cells) && SearchArgs(shapes, placements, toFit, next, idx + 1)
                        && (rest <==> Fits(shapes, placements, toFit, next, idx + 1)))
    ensures FitsFrom(shapes, placements, toFit, state, idx, k) <==> (!collided && rest) || FitsFrom(shapes, placements, toFit, state, idx, k + 1)
  {
  }

  /** Pairs of a state and a present index from which the rest cannot fit. */
  ghost predicate FalseCorrect(shapes: seq<PresentShape>, placements: seq<Placement>, toFit: seq<nat>, falseStates: set<(seq<seq<bool>>, nat)>)
  {
    forall e :: e in falseStates ==>
      SearchArgs(shapes, placements, toFit, e.0, e.1) && !Fits(shapes, placements, toFit, e.0, e.1)
  }

  /**
   * `can_fit_helper`: depth-first search over the placements of each present
   * in turn, remembering in `falseStates` the states from which the remaining
   * presents were found not to fit.
   */
  method CanFitHelper(state: seq<seq<bool>>, shapes: seq<PresentShape>, placements: seq<Placement>, toFit: seq<nat>, idx: nat,
                      falseStates: set<(seq<seq<bool>>, nat)>)
    returns (fits: bool, falseStates': set<(seq<seq<bool>>, nat)>)
    requires SearchArgs(shapes, placements, toFit, state, idx)
    requires FalseCorrect(shapes, placements, toFit, falseStates)
    ensures fits <==> Fits(shapes, placements, toFit, state, idx)
    ensures FalseCorrect(shapes, placements, toFit, falseStates') && falseStates <= falseStates'
    decreases |toFit| - idx
  {
    if idx == |toFit| {
      return true, falseStates;
    }
    if (state, idx) in falseStates {
      return false, falseStates;
    }
    var present := shapes[toFit[idx]];
    falseStates' := falseStates;
    for k := 0 to |placements|
      invariant FalseCorrect(shapes, placements, toFit, falseStates') && falseStates <= falseStates'
      invariant FitsFrom(shapes, placements, toFit, state, idx, 0) <==> FitsFrom(shapes, placements, toFit, state, idx, k)
    {
      var placement := placements[k];
      var collided, placementState := CheckCollideAndPlace(present, placement.0, state, placement.1, placement.2);
      PaintedArgs(shapes, placements, toFit, state, idx, Covered(present, placement));
      if !collided {
        var rest;
        rest, falseStates' := CanFitHelper(placementState, shapes, placements, toFit, idx + 1, falseStates');
        SearchStep(shapes, placements, toFit, state, idx, k, false, placementState, rest);
        if rest {
          return true, falseStates';
        }
      } else {
        SearchStep(shapes, placements, toFit, state, idx, k, true, placementState, false);
      }
    }
    falseStates' := falseStates' + {(state, idx)};
    return false, falseStates';
  }

  // ---------------------------------------------------------------------------
  // Room for the presents

  /** The free positions of a state. */
  ghost function FreeCells(state: seq<seq<bool>>): set<Coordinate>
  {
    set x: nat, y: nat | y < |state| && x < |state[y]| && !state[y][x] :: (x, y)
  }

  /** Placing a present on free positions takes exactly those positions away from the free ones. */
  lemma PaintedFreeCells(state: seq<seq<bool>>, cells: set<Coordinate>)
    requires Free(state, cells)
    ensures |FreeCells(Painted(state, cells))| == |FreeCells(state)| - |cells|
  {
    var before, after := FreeCells(state), FreeCells(Painted(state, cells));
    assert cells <= before by {
      forall c | c in cells ensures c in before {
        assert c == (c.0, c.1);
      }
    }
    assert after == before - cells;
  }

  lemma StartFreeCells(r: Region)
    ensures FreeCells(StartState(r)) == Block(0, r.length, 0, r.height)
    ensures |FreeCells(StartState(r))| == RegionSize(r)
  {
    BlockFacts(0, r.length, 0, r.height);
    var free := FreeCells(StartState(r));
    forall c | c in Block(0, r.length, 0, r.height) ensures c in free {
      assert c == (c.0, c.1);
    }
  }

  /** The sum of the sizes of the presents `toFit[idx..]`. */
  function SizesSum(shapes: seq<PresentShape>, toFit: seq<nat>, idx: nat): nat
    requires IndicesBelow(toFit, |shapes|) && idx <= |toFit|
    decreases |toFit| - idx
  {
    if idx == |toFit| then 0 else Size(shapes[toFit[idx]]) + SizesSum(shapes, toFit, idx + 1)
  }

  predicate AllExactlyBoxed(shapes: seq<PresentShape>)
  {
    forall k :: 0 <= k < |shapes| ==> ExactlyBoxed(shapes[k])
  }

  /** Presents that can all be placed need at least as many free positions as they have cells together. */
  lemma {:induction false} FitsNeedsRoom(shapes: seq<PresentShape>, placements: seq<Placement>, toFit: seq<nat>, state: seq<seq<bool>>, idx: nat)
    requires SearchArgs(shapes, placements, toFit, state, idx) && AllExactlyBoxed(shapes)
    requires Fits(shapes, placements, toFit, state, idx)
    ensures SizesSum(shapes, toFit, idx) <= |FreeCells(state)|
    decreases |toFit| - idx
  {
    if idx < |toFit| {
      var m := PickPlacement(shapes, placements, toFit, state, idx);
      var shape := shapes[toFit[idx]];
      var cells := Covered(shape, placements[m]);
      PaintedArgs(shapes, placements, toFit, state, idx, cells);
      assert Free(state, cells) && Fits(shapes, placements, toFit, Painted(state, cells), idx + 1);
      FitsNeedsRoom(shapes, placements, toFit, Painted(state, cells), idx + 1);
      FootprintSize(shape, placements[m].0, placements[m].1, placements[m].2);
      RoomAfter(state, cells, Size(shape), SizesSum(shapes, toFit, idx + 1));
    }
  }

  /** A placement by which the next present fits, when the presents fit. */
  lemma PickPlacement(shapes: seq<PresentShape>, placements: seq<Placement>, toFit: seq<nat>, state: seq<seq<bool>>, idx: nat)
    returns (m: nat)
    requires SearchArgs(shapes, placements, toFit, state, idx) && idx < |toFit|
    requires Fits(shapes, placements, toFit, state, idx)
    ensures m < |placements| && FitsWith(shapes, placements, toFit, state, idx, m)
  {
    FitsFromSome(shapes, placements, toFit, state, idx, 0);
    m :| 0 <= m < |placements| && FitsWith(shapes, placements, toFit, state, idx, m);
  }

  lemma RoomAfter(state: seq<seq<bool>>, cells: set<Coordinate>, size: nat, rest: nat)
    requires Free(state, cells) && |cells| == size && rest <= |FreeCells(Painted(state, cells))|
    ensures size + rest <= |FreeCells(state)|
  {
    PaintedFreeCells(state, cells);
  }

  lemma SizeAtMostNine(s: PresentShape)
    requires ExactlyBoxed(s)
    ensures Size(s) <= 9
  {
    BoxCountSize(s);
  }

  lemma {:induction false} SizesSumBound(shapes: seq<PresentShape>, toFit: seq<nat>, idx: nat)
    requires IndicesBelow(toFit, |shapes|) && idx <= |toFit| && AllExactlyBoxed(shapes)
    ensures SizesSum(shapes, toFit, idx) <= 9 * (|toFit| - idx)
    decreases |toFit| - idx
  {
    if idx < |toFit| {
      SizesSumBound(shapes, toFit, idx + 1);
      SizeAtMostNine(shapes[toFit[idx]]);
    }
  }

  // ---------------------------------------------------------------------------
  // The quick decision before the search

  /**
   * The two checks `can_fit` makes before searching, as written: reject when
   * the presents' cells add up to at least the region's size, accept when
   * there are no more presents than disjoint 3-by-3 boxes in the region;
   * `None` when the search must decide.
   */
  function QuickCheckAsWritten(total: nat, count: nat, r: Region): Option<bool>
  {
    if total >= RegionSize(r) then Some(false)
    else if count <= DefinitelyCanPack(r) then Some(true)
    else None
  }

  /** A 3-by-3 present that fills its whole box. */
  const FullBox: PresentShape := PresentShape([[true, true, true], [true, true, true], [true, true, true]])

  /**
   * As written, a 3-by-3 region asked to hold one present that fills its
   * whole box is rejected, although the present fits (placed at the corner)
   * and although the count is within what the region can definitely hold.
   */
  lemma QuickCheckRejectsFittingRegion()
    ensures var r := Region(3, 3, [1]);
      && Expanded(r.presentsRequired) == [0]
      && |Expanded(r.presentsRequired)| <= DefinitelyCanPack(r)
      && QuickCheckAsWritten(SizesSum([FullBox], [0], 0), 1, r) == Some(false)
      && SearchArgs([FullBox], PlacementGrid(1, 1), [0], StartState(r), 0)
      && Fits([FullBox], PlacementGrid(1, 1), [0], StartState(r), 0)
  {
    var r := Region(3, 3, [1]);
    assert Expanded([1]) == [0] by {
      assert [1][..0] == [];
    }
    BoxCountSize(FullBox);
    OnePresentFits(r, FullBox);
  }

  /** A single present always fits in an empty region at least three wide and three high. */
  lemma OnePresentFits(r: Region, s: PresentShape)
    requires Boxed(s) && r.length >= 3 && r.height >= 3
    ensures SearchArgs([s], PlacementGrid(r.length - 2, r.height - 2), [0], StartState(r), 0)
    ensures Fits([s], PlacementGrid(r.length - 2, r.height - 2), [0], StartState(r), 0)
  {
    var state, placements := StartState(r), PlacementGrid(r.length - 2, r.height - 2);
    PlacementsAllInside(r);
    PossiblePlacementsFacts(r, ((0, 0), NoRotation, false));
    assert SearchArgs([s], placements, [0], state, 0);
    var k :| 0 <= k < |placements| && placements[k] == ((0, 0), NoRotation, false);
    var cells := Covered(s, placements[k]);
    FreeAtStart(r, s, placements[k]);
    PaintedArgs([s], placements, [0], state, 0, cells);
    assert FitsWith([s], placements, [0], state, 0, k);
    FitsFromSome([s], placements, [0], state, 0, 0);
  }

  /** In the empty region, every placement inside the region is free. */
  lemma FreeAtStart(r: Region, s: PresentShape, p: Placement)
    requires Boxed(s) && Inside(StartState(r), p.0)
    ensures Free(StartState(r), Covered(s, p))
  {
    FootprintInBox(s, p.0, p.1, p.2);
    BlockFacts(p.0.0, 3, p.0.1, 3);
  }

  /** The quick checks with the rejection made strict: reject only when the presents' cells outnumber the region's positions. */
  function QuickCheck(total: nat, count: nat, r: Region): Option<bool>
  {
    if total > RegionSize(r) then Some(false)
    else if count <= DefinitelyCanPack(r) then Some(true)
    else None
  }

  /** A rejection is always right: presents with more cells than the region has positions cannot all be placed. */
  lemma QuickCheckRejectSound(r: Region, shapes: seq<PresentShape>, placements: seq<Placement>)
    requires AllExactlyBoxed(shapes) && IndicesBelow(Expanded(r.presentsRequired), |shapes|)
    requires AllInside(StartState(r), placements)
    requires QuickCheck(SizesSum(shapes, Expanded(r.presentsRequired), 0), |Expanded(r.presentsRequired)|, r) == Some(false)
    ensures !Fits(shapes, placements, Expanded(r.presentsRequired), StartState(r), 0)
  {
    var toFit := Expanded(r.presentsRequired);
    StartFreeCells(r);
    if Fits(shapes, placements, toFit, StartState(r), 0) {
      FitsNeedsRoom(shapes, placements, toFit, StartState(r), 0);
    }
  }

  /** With presents of at most nine cells, a count the region can definitely hold is accepted and never rejected. */
  lemma QuickCheckAcceptsBoxes(r: Region, shapes: seq<PresentShape>)
    requires AllExactlyBoxed(shapes) && IndicesBelow(Expanded(r.presentsRequired), |shapes|)
    requires |Expanded(r.presentsRequired)| <= DefinitelyCanPack(r)
    ensures QuickCheck(SizesSum(shapes, Expanded(r.presentsRequired), 0), |Expanded(r.presentsRequired)|, r) == Some(true)
  {
    SizesSumBound(shapes, Expanded(r.presentsRequired), 0);
  }

  /**
   * As written, a count the region can definitely hold is accepted unless
   * the presents' cells exactly fill the region, in which case it is rejected.
   */
  lemma QuickCheckAsWrittenAccepts(r: Region, shapes: seq<PresentShape>)
    requires AllExactlyBoxed(shapes) && IndicesBelow(Expanded(r.presentsRequired), |shapes|)
    requires |Expanded(r.presentsRequired)| <= DefinitelyCanPack(r)
    ensures var total := SizesSum(shapes, Expanded(r.presentsRequired), 0);
      QuickCheckAsWritten(total, |Expanded(r.presentsRequired)|, r) == if total == RegionSize(r) then Some(false) else Some(true)
  {
    SizesSumBound(shapes, Expanded(r.presentsRequired), 0);
  }

  // ---------------------------------------------------------------------------
  // Can the region hold its presents?

  /**
   * What the search after the quick checks decides: whether the presents can
   * be placed from the empty region by the possible placements. `None`
   * stands for the source's panics in the search: a region narrower or lower
   * than three, or a present not drawn on a full box.
   */
  ghost function SearchOutcome(r: Region, shapes: seq<PresentShape>): Option<bool>
    requires IndicesBelow(Expanded(r.presentsRequired), |shapes|)
  {
    if r.length >= 3 && r.height >= 3 && AllBoxed(shapes) then Some(RegionFits(r, shapes)) else None
  }

  /**
   * What `Region::can_fit` decides: the quick checks as written, then the
   * search. `None` also stands for a required present with no shape.
   */
  ghost function CanFitOutcome(r: Region, shapes: seq<PresentShape>): Option<bool>
  {
    var toFit := Expanded(r.presentsRequired);
    if !IndicesBelow(toFit, |shapes|) then None
    else
      var quick := QuickCheckAsWritten(SizesSum(shapes, toFit, 0), |toFit|, r);
      if quick.Some? then quick else SearchOutcome(r, shapes)
  }

  /** The same decision with the strict rejection of `QuickCheck`. */
  ghost function CorrectedOutcome(r: Region, shapes: seq<PresentShape>): Option<bool>
  {
    var toFit := Expanded(r.presentsRequired);
    if !IndicesBelow(toFit, |shapes|) then None
    else
      var quick := QuickCheck(SizesSum(shapes, toFit, 0), |toFit|, r);
      if quick.Some? then quick else SearchOutcome(r, shapes)
  }

  /** With the strict rejection, a region is only declared unable to hold its presents when they cannot in fact all be placed. */
  lemma CorrectedRejectSound(r: Region, shapes: seq<PresentShape>)
    requires IndicesBelow(Expanded(r.presentsRequired), |shapes|) && AllExactlyBoxed(shapes) && r.length >= 3 && r.height >= 3
    requires CorrectedOutcome(r, shapes) == Some(false)
    ensures !RegionFits(r, shapes)
  {
    var toFit := Expanded(r.presentsRequired);
    var quick := QuickCheck(SizesSum(shapes, toFit, 0), |toFit|, r);
    if quick.Some? {
      PlacementsAllInside(r);
      QuickCheckRejectSound(r, shapes, PlacementGrid(r.length - 2, r.height - 2));
    } else {
      assert AllBoxed(shapes) by {
        forall k | 0 <= k < |shapes| ensures Boxed(shapes[k]) {
          assert ExactlyBoxed(shapes[k]);
        }
      }
      assert CorrectedOutcome(r, shapes) == Some(RegionFits(r, shapes));
    }
  }

  /** The two decisions differ only where the presents' cells exactly fill the region, and there `can_fit` rejects. */
  lemma OutcomesDiffer(r: Region, shapes: seq<PresentShape>)
    ensures var toFit := Expanded(r.presentsRequired);
      CanFitOutcome(r, shapes) != CorrectedOutcome(r, shapes) ==>
        IndicesBelow(toFit, |shapes|) && SizesSum(shapes, toFit, 0) == RegionSize(r) && CanFitOutcome(r, shapes) == Some(false)
  {
  }

  /**
   * `can_fit` declares a region unable to hold its presents wrongly only
   * when their cells exactly fill it.
   */
  lemma CanFitRejectSound(r: Region, shapes: seq<PresentShape>)
    requires IndicesBelow(Expanded(r.presentsRequired), |shapes|) && AllExactlyBoxed(shapes) && r.length >= 3 && r.height >= 3
    requires CanFitOutcome(r, shapes) == Some(false)
    ensures !RegionFits(r, shapes) || SizesSum(shapes, Expanded(r.presentsRequired), 0) == RegionSize(r)
  {
    if SizesSum(shapes, Expanded(r.presentsRequired), 0) != RegionSize(r) {
      OutcomesDiffer(r, shapes);
      CorrectedRejectSound(r, shapes);
    }
  }

  /** `Region::can_fit`: the quick checks as written, then the search from the empty region over all possible placements. */
  method CanFit(r: Region, shapes: seq<PresentShape>) returns (result: Option<bool>)
    ensures result == CanFitOutcome(r, shapes)
  {
    var toAdd := PresentsToAdd(r);
    if !IndicesBelow(toAdd, |shapes|) {
      return None;
    }
    var quick := QuickCheckAsWritten(SizesSum(shapes, toAdd, 0), |toAdd|, r);
    if quick.Some? {
      return quick;
    }
    if r.length < 3 || r.height < 3 || !AllBoxed(shapes) {
      return None;
    }
    var placements := PossiblePlacements(r);
    PlacementsAllInside(r);
    var fits, _ := CanFitHelper(StartState(r), shapes, placements, toAdd, 0, {});
    return Some(fits);
  }

  /** The full box is a 3-by-3 present of nine cells. */
  lemma FullBoxSize()
    ensures ExactlyBoxed(FullBox) && Boxed(FullBox) && Size(FullBox) == 9
  {
    var l := FullBox.locs;
    assert |l| == 3 && |l[0]| == 3 && |l[1]| == 3 && |l[2]| == 3;
    BoxCountSize(FullBox);
    assert BoxCount(FullBox, 9) == 9;
  }

  /**
   * On a 3-by-3 region asked for one present that fills its whole box,
   * `can_fit` answers false although the present fits; the strict rejection
   * answers true.
   */
  lemma CanFitRejectsFittingRegion()
    ensures var r := Region(3, 3, [1]);
      && CanFitOutcome(r, [FullBox]) == Some(false)
      && CorrectedOutcome(r, [FullBox]) == Some(true)
      && RegionFits(r, [FullBox])
  {
    var r := Region(3, 3, [1]);
    QuickCheckRejectsFittingRegion();
    FullBoxSize();
    var total := SizesSum([FullBox], [0], 0);
    assert total == Size(FullBox) + SizesSum([FullBox], [0], 1);
    assert QuickCheck(total, 1, r) == Some(true);
    assert AllBoxed([FullBox]);
    assert IndicesBelow(Expanded(r.presentsRequired), 1);
    assert RegionFits(r, [FullBox]);
  }

  /** The region's presents can all be placed, starting from the empty region, by the possible placements. */
  ghost predicate RegionFits(r: Region, shapes: seq<PresentShape>)
    requires r.length >= 3 && r.height >= 3 && AllBoxed(shapes) && IndicesBelow(Expanded(r.presentsRequired), |shapes|)
  {
    PlacementsAllInside(r);
    Fits(shapes, PlacementGrid(r.length - 2, r.height - 2), Expanded(r.presentsRequired), StartState(r), 0)
  }

  lemma PlacementsAllInside(r: Region)
    requires r.length >= 3 && r.height >= 3
    ensures AllInside(StartState(r), PlacementGrid(r.length - 2, r.height - 2))
  {
    var placements := PlacementGrid(r.length - 2, r.height - 2);
    forall k | 0 <= k < |placements| ensures Inside(StartState(r), placements[k].0) {
      PossiblePlacementsFacts(r, placements[k]);
    }
  }
}
