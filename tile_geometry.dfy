/**
 * 2025 day 9: red tiles on a grid. Part one ranks every rectangle whose
 * opposite corners are two red tiles by the number of tiles it covers; part
 * two walks the closed loop the red tiles trace and decides whether a
 * rectangle lies inside it by how the loop's segments cross the rectangle.
 */
module TileGeometry {
  import opened Wrappers
  import opened Numbers
  import opened Sorting
  import opened Grids

  /** A straight run of tiles between two coordinates (a rectangle is given the same way, by two opposite corners). */
  type Segment = (Coordinate, Coordinate)

  // ---------------------------------------------------------------------------
  // Rectangles and tiles

  /** The tiles of the rectangle with opposite corners `c1` and `c2`, edges included. */
  ghost function Tiles(c1: Coordinate, c2: Coordinate): set<Coordinate>
  {
    Block(Min(c1.0, c2.0), AbsDiff(c1.0, c2.0) + 1, Min(c1.1, c2.1), AbsDiff(c1.1, c2.1) + 1)
  }

  /** `area`: how many tiles the rectangle with opposite corners `c1` and `c2` covers. */
  function Area(c1: Coordinate, c2: Coordinate): (a: nat)
    ensures a >= 1
  {
    (AbsDiff(c1.0, c2.0) + 1) * (AbsDiff(c1.1, c2.1) + 1)
  }

  /**
   * The area counts exactly the tiles between the two corners on both axes,
   * whichever order the corners come in.
   */
  lemma AreaCountsTiles(c1: Coordinate, c2: Coordinate)
    ensures forall p: Coordinate :: p in Tiles(c1, c2) <==>
      Min(c1.0, c2.0) <= p.0 <= Max(c1.0, c2.0) && Min(c1.1, c2.1) <= p.1 <= Max(c1.1, c2.1)
    ensures Area(c1, c2) == |Tiles(c1, c2)|
    ensures Area(c1, c2) == Area(c2, c1)
  {
    var x0, w, y0, h := Min(c1.0, c2.0), AbsDiff(c1.0, c2.0) + 1, Min(c1.1, c2.1), AbsDiff(c1.1, c2.1) + 1;
    assert Tiles(c1, c2) == Block(x0, w, y0, h);
    assert forall p: Coordinate :: p in Tiles(c1, c2) <==>
      Min(c1.0, c2.0) <= p.0 <= Max(c1.0, c2.0) && Min(c1.1, c2.1) <= p.1 <= Max(c1.1, c2.1) by {
      assert x0 + w == Max(c1.0, c2.0) + 1 && y0 + h == Max(c1.1, c2.1) + 1;
      BlockMembers(x0, w, y0, h);
    }
    assert Area(c1, c2) == w * h;
    BlockSize(x0, w, y0, h);
    assert Area(c1, c2) == Area(c2, c1) by {
      assert AbsDiff(c1.0, c2.0) == AbsDiff(c2.0, c1.0) && AbsDiff(c1.1, c2.1) == AbsDiff(c2.1, c1.1);
    }
  }

  /** The four tiles sharing an edge with `c` (fewer on the grid's lower borders). */
  function Neighbours(c: Coordinate): set<Coordinate>
  {
    {(c.0 + 1, c.1), (c.0, c.1 + 1)}
    + (if c.0 > 0 then {(c.0 - 1, c.1)} else {})
    + (if c.1 > 0 then {(c.0, c.1 - 1)} else {})
  }

  /** `adjacent`: the two tiles share an edge (in either order). */
  function Adjacent(c1: Coordinate, c2: Coordinate): (b: bool)
    ensures b <==> c2 in Neighbours(c1)
    ensures b <==> c1 in Neighbours(c2)
  {
    (AbsDiff(c1.0, c2.0) == 1 && c1.1 == c2.1) || (AbsDiff(c1.1, c2.1) == 1 && c1.0 == c2.0)
  }

  /**
   * `point_in_rect`: the point lies strictly inside the rectangle, whichever
   * corners give it; a rectangle one tile thin has no inside.
   */
  function PointInRect(rect: Segment, p: Coordinate): (b: bool)
    ensures b <==>
      Min(rect.0.0, rect.1.0) < p.0 < Max(rect.0.0, rect.1.0) && Min(rect.0.1, rect.1.1) < p.1 < Max(rect.0.1, rect.1.1)
    ensures rect.0.0 == rect.1.0 || rect.0.1 == rect.1.1 ==> !b
  {
    ((p.0 < rect.0.0 && p.0 > rect.1.0) || (p.0 > rect.0.0 && p.0 < rect.1.0))
    && ((p.1 < rect.0.1 && p.1 > rect.1.1) || (p.1 > rect.0.1 && p.1 < rect.1.1))
  }

  // ---------------------------------------------------------------------------
  // Segments crossing rectangle edges

  /** The segment runs along one axis. */
  predicate AxisAligned(s: Segment)
  {
    s.0.0 == s.1.0 || s.0.1 == s.1.1
  }

  /** `p` lies in the bounding box of `s`; for an axis-aligned segment, on the segment. */
  predicate OnSegment(p: Coordinate, s: Segment)
  {
    Min(s.0.0, s.1.0) <= p.0 <= Max(s.0.0, s.1.0) && Min(s.0.1, s.1.1) <= p.1 <= Max(s.0.1, s.1.1)
  }

  /** One segment moves along x and the other along y, which is all `line_intersection` looks at. */
  predicate Orthogonal(rectLine: Segment, line: Segment)
  {
    (line.0.0 != line.1.0 && rectLine.0.1 != rectLine.1.1) || (line.0.1 != line.1.1 && rectLine.0.0 != rectLine.1.0)
  }

  /**
   * `line_intersection`: for two orthogonal axis-aligned segments, the point
   * they share if they share one, and nothing for any other pair.
   */
  function LineIntersection(rectLine: Segment, line: Segment): (r: Option<Coordinate>)
    ensures r.Some? ==> Orthogonal(rectLine, line)
    ensures AxisAligned(rectLine) && AxisAligned(line) && r.Some? ==>
      OnSegment(r.value, rectLine) && OnSegment(r.value, line)
    ensures AxisAligned(rectLine) && AxisAligned(line) && Orthogonal(rectLine, line) ==>
      forall p :: OnSegment(p, rectLine) && OnSegment(p, line) ==> r == Some(p)
  {
    if line.0.0 != line.1.0 && rectLine.0.1 != rectLine.1.1 then
      if rectLine.0.0 > Max(line.0.0, line.1.0) || rectLine.0.0 < Min(line.0.0, line.1.0) then None
      else if line.0.1 > Max(rectLine.0.1, rectLine.1.1) || line.0.1 < Min(rectLine.0.1, rectLine.1.1) then None
      else Some((rectLine.0.0, line.0.1))
    else if line.0.1 != line.1.1 && rectLine.0.0 != rectLine.1.0 then
      if rectLine.0.1 > Max(line.0.1, line.1.1) || rectLine.0.1 < Min(line.0.1, line.1.1) then None
      else if line.0.0 > Max(rectLine.0.0, rectLine.1.0) || line.0.0 < Min(rectLine.0.0, rectLine.1.0) then None
      else Some((line.0.0, rectLine.0.1))
    else
      None
  }

  /** The rectangle's edges in the order `crossover_point` tries them. */
  function RectEdges(rect: Segment): (edges: seq<Segment>)
    ensures |edges| == 4
    ensures forall i :: 0 <= i < 4 ==> AxisAligned(edges[i])
  {
    var others := ((rect.0.0, rect.1.1), (rect.1.0, rect.0.1));
    [(rect.0, others.0), (rect.0, others.1), (rect.1, others.0), (rect.1, others.1)]
  }

  /** `p` lies on the rectangle's border. */
  predicate OnBorder(rect: Segment, p: Coordinate)
  {
    exists i :: 0 <= i < 4 && OnSegment(p, RectEdges(rect)[i])
  }

  /**
   * `crossover_point`: where the segment meets the first edge of the
   * rectangle it meets; `None` where the source panics.
   */
  function CrossoverPoint(rect: Segment, line: Segment): (r: Option<Coordinate>)
    ensures r.Some? <==> exists i :: 0 <= i < 4 && LineIntersection(RectEdges(rect)[i], line).Some?
    ensures r.Some? ==> exists i :: 0 <= i < 4 && LineIntersection(RectEdges(rect)[i], line) == r &&
                               (forall j :: 0 <= j < i ==> LineIntersection(RectEdges(rect)[j], line).None?)
    ensures AxisAligned(line) && r.Some? ==> OnSegment(r.value, line) && OnBorder(rect, r.value)
  {
    var edges := RectEdges(rect);
    var hits := [LineIntersection(edges[0], line), LineIntersection(edges[1], line),
                 LineIntersection(edges[2], line), LineIntersection(edges[3], line)];
    if hits[0].Some? then hits[0]
    else if hits[1].Some? then hits[1]
    else if hits[2].Some? then hits[2]
    else hits[3]
  }

  /**
   * An axis-aligned segment with one end strictly inside the rectangle and the
   * other not always meets an edge, so `crossover_point` never panics on the
   * segments of a loop of red tiles.
   */
  lemma CrossoverFound(rect: Segment, line: Segment)
    requires AxisAligned(line)
    requires PointInRect(rect, line.0) != PointInRect(rect, line.1)
    ensures CrossoverPoint(rect, line).Some?
  {
    var edges := RectEdges(rect);
    var outside := if PointInRect(rect, line.0) then line.1 else line.0;
    if line.0.0 != line.1.0 {
      if outside.0 <= Min(rect.0.0, rect.1.0) {
        var p := (Min(rect.0.0, rect.1.0), line.0.1);
        if rect.0.0 < rect.1.0 {
          assert LineIntersection(edges[0], line) == Some(p);
        } else {
          assert LineIntersection(edges[3], line) == Some(p);
        }
      } else {
        var p := (Max(rect.0.0, rect.1.0), line.0.1);
        if rect.0.0 > rect.1.0 {
          assert LineIntersection(edges[0], line) == Some(p);
        } else {
          assert LineIntersection(edges[3], line) == Some(p);
        }
      }
    } else {
      if outside.1 <= Min(rect.0.1, rect.1.1) {
        var p := (line.0.0, Min(rect.0.1, rect.1.1));
        if rect.0.1 < rect.1.1 {
          assert LineIntersection(edges[1], line) == Some(p);
        } else {
          assert LineIntersection(edges[2], line) == Some(p);
        }
      } else {
        var p := (line.0.0, Max(rect.0.1, rect.1.1));
        if rect.0.1 > rect.1.1 {
          assert LineIntersection(edges[1], line) == Some(p);
        } else {
          assert LineIntersection(edges[2], line) == Some(p);
        }
      }
    }
  }

  // ---------------------------------------------------------------------------
  // Part one: rectangles by area

  /** Each pair of corners with the area of its rectangle. */
  function WithArea(pairs: seq<(Coordinate, Coordinate)>): (r: seq<(Coordinate, Coordinate, nat)>)
    ensures |r| == |pairs|
    ensures forall k :: 0 <= k < |r| ==> r[k] == (pairs[k].0, pairs[k].1, Area(pairs[k].0, pairs[k].1))
  {
    seq(|pairs|, k requires 0 <= k < |pairs| => (pairs[k].0, pairs[k].1, Area(pairs[k].0, pairs[k].1)))
  }

  /** The comparator `|a, b| b.2.cmp(&a.2)`: larger areas first. */
  predicate LargerArea(a: (Coordinate, Coordinate, nat), b: (Coordinate, Coordinate, nat))
  {
    a.2 >= b.2
  }

  lemma LargerAreaTotal()
    ensures TotalPreorder(LargerArea)
  {
  }

  /**
   * `max_area_coords`: every pair of red tiles `i < j` with its area, largest
   * area first, so the head is a largest rectangle.
   */
  method MaxAreaCoords(coords: seq<Coordinate>) returns (r: seq<(Coordinate, Coordinate, nat)>)
    ensures multiset(r) == multiset(WithArea(Pairs(coords)))
    ensures |r| == |coords| * (|coords| - 1) / 2
    ensures SortedBy(r, LargerArea)
    ensures forall t :: t in r ==> exists i, j :: 0 <= i < j < |coords| && t == (coords[i], coords[j], Area(coords[i], coords[j]))
    ensures forall i, j :: 0 <= i < j < |coords| ==> (coords[i], coords[j], Area(coords[i], coords[j])) in r
    ensures forall i, j :: 0 <= i < j < |coords| ==> 0 < |r| && r[0].2 >= Area(coords[i], coords[j])
  {
    var combos := WithArea(Pairs(coords));
    LargerAreaTotal();
    r := Sort(combos, LargerArea);
    PairsIndex(coords);
    assert |r| == |multiset(r)| == |combos|;
    PairsListed(coords, combos);
    forall t ensures t in r <==> t in combos {
      assert t in r <==> t in multiset(r);
    }
    forall i, j | 0 <= i < j < |coords|
      ensures 0 < |r| && r[0].2 >= Area(coords[i], coords[j])
    {
      HeadLargest(r, (coords[i], coords[j], Area(coords[i], coords[j])));
    }
  }

  /** The listing holds exactly the pairs `i < j` of coordinates, each with its area. */
  lemma PairsListed(coords: seq<Coordinate>, combos: seq<(Coordinate, Coordinate, nat)>)
    requires combos == WithArea(Pairs(coords))
    ensures forall i, j :: 0 <= i < j < |coords| ==> (coords[i], coords[j], Area(coords[i], coords[j])) in combos
    ensures forall t :: t in combos ==> exists i, j :: 0 <= i < j < |coords| && t == (coords[i], coords[j], Area(coords[i], coords[j]))
  {
    PairsIndex(coords);
    forall i, j | 0 <= i < j < |coords|
      ensures (coords[i], coords[j], Area(coords[i], coords[j])) in combos
    {
      IndexPairsMember(|coords|, 0, (i, j));
      var k :| 0 <= k < |IndexPairs(|coords|, 0)| && IndexPairs(|coords|, 0)[k] == (i, j);
      assert combos[k] == (coords[i], coords[j], Area(coords[i], coords[j]));
    }
    forall t | t in combos
      ensures exists i, j :: 0 <= i < j < |coords| && t == (coords[i], coords[j], Area(coords[i], coords[j]))
    {
      var k :| 0 <= k < |combos| && combos[k] == t;
      var p := IndexPairs(|coords|, 0)[k];
      assert t == (coords[p.0], coords[p.1], Area(coords[p.0], coords[p.1]));
    }
  }

  /** In a largest-first listing, the head has the largest area. */
  lemma HeadLargest(r: seq<(Coordinate, Coordinate, nat)>, t: (Coordinate, Coordinate, nat))
    requires SortedBy(r, LargerArea) && t in r
    ensures r[0].2 >= t.2
  {
    var k :| 0 <= k < |r| && r[k] == t;
    if k > 0 {
      assert LargerArea(r[0], r[k]);
    }
  }

  // ---------------------------------------------------------------------------
  // Part two: the loop of red tiles

  /**
   * `lines`: the segments of the closed loop through the red tiles in order,
   * starting with the one from the last tile back to the first.
   */
  method Lines(coords: seq<Coordinate>) returns (r: seq<Segment>)
    requires |coords| > 0
    ensures |r| == |coords|
    ensures r[0] == (coords[|coords| - 1], coords[0])
    ensures forall k :: 0 < k < |r| ==> r[k] == (coords[k - 1], coords[k])
    ensures forall k :: 0 <= k < |r| ==> r[k].1 == r[if k + 1 < |r| then k + 1 else 0].0
  {
    r := [];
    var prev := coords[|coords| - 1];
    for i := 0 to |coords|
      invariant |r| == i
      invariant i > 0 ==> r[0] == (coords[|coords| - 1], coords[0])
      invariant forall k :: 0 < k < i ==> r[k] == (coords[k - 1], coords[k])
      invariant prev == if i == 0 then coords[|coords| - 1] else coords[i - 1]
    {
      r := r + [(prev, coords[i])];
      prev := coords[i];
    }
    forall k | 0 <= k < |r| ensures r[k].1 == r[if k + 1 < |r| then k + 1 else 0].0 {
      if k == 0 {
        assert r[0] == (coords[|coords| - 1], coords[0]);
        assert r[k].1 == coords[k];
      } else {
        assert r[k] == (coords[k - 1], coords[k]);
        assert r[k].1 == coords[k];
      }
    }
  }

  /** The tile halfway along the segment, rounded down. */
  function Midpoint(s: Segment): Coordinate
  {
    ((s.0.0 + s.1.0) / 2, (s.0.1 + s.1.1) / 2)
  }

  /** The segment's midpoint is on neither end's side of the rectangle's border, so it cuts across. */
  predicate Cuts(rect: Segment, s: Segment)
  {
    var mid := PointInRect(rect, Midpoint(s));
    mid != PointInRect(rect, s.0) && mid != PointInRect(rect, s.1)
  }

  predicate Exits(rect: Segment, s: Segment)
  {
    PointInRect(rect, s.0) && !PointInRect(rect, s.1)
  }

  predicate Enters(rect: Segment, s: Segment)
  {
    !PointInRect(rect, s.0) && PointInRect(rect, s.1)
  }

  /** Every segment that leaves or enters the rectangle meets one of its edges. */
  predicate Resolvable(rect: Segment, lines: seq<Segment>)
  {
    forall i :: 0 <= i < |lines| && (Exits(rect, lines[i]) || Enters(rect, lines[i])) ==>
      CrossoverPoint(rect, lines[i]).Some?
  }

  /** On a loop of red tiles every segment is axis-aligned, so every crossing resolves. */
  lemma AlignedResolvable(rect: Segment, lines: seq<Segment>)
    requires forall i :: 0 <= i < |lines| ==> AxisAligned(lines[i])
    ensures Resolvable(rect, lines)
  {
    forall i | 0 <= i < |lines| && (Exits(rect, lines[i]) || Enters(rect, lines[i]))
      ensures CrossoverPoint(rect, lines[i]).Some?
    {
      CrossoverFound(rect, lines[i]);
    }
  }

  /** A place where the loop crosses the rectangle's border, leaving it or entering it. */
  datatype Crossing = Crossing(exiting: bool, at: Coordinate)

  function CrossingOf(rect: Segment, s: Segment): seq<Crossing>
    requires Exits(rect, s) || Enters(rect, s) ==> CrossoverPoint(rect, s).Some?
  {
    if Exits(rect, s) then [Crossing(true, CrossoverPoint(rect, s).value)]
    else if Enters(rect, s) then [Crossing(false, CrossoverPoint(rect, s).value)]
    else []
  }

  /** The border crossings of the segments, in order. */
  ghost function Crossings(rect: Segment, lines: seq<Segment>): seq<Crossing>
    requires Resolvable(rect, lines)
    decreases |lines|
  {
    if |lines| == 0 then []
    else
      assert Resolvable(rect, lines[..|lines| - 1]) by {
        forall i | 0 <= i < |lines| - 1 ensures lines[..|lines| - 1][i] == lines[i] { }
      }
      Crossings(rect, lines[..|lines| - 1]) + CrossingOf(rect, lines[|lines| - 1])
  }

  /** Crossings `2k` and `2k + 1` are a leaving and an entering, in either order, at adjacent tiles. */
  predicate PairOk(cs: seq<Crossing>, k: nat)
  {
    2 * k + 1 < |cs| && cs[2 * k].exiting != cs[2 * k + 1].exiting && Adjacent(cs[2 * k].at, cs[2 * k + 1].at)
  }

  /** Every leaving is matched, right before or right after, with an entering next to it. */
  predicate PairedUp(cs: seq<Crossing>)
  {
    |cs| % 2 == 0 && forall k: nat :: k < |cs| / 2 ==> PairOk(cs, k)
  }

  predicate NoCut(rect: Segment, lines: seq<Segment>)
  {
    forall i :: 0 <= i < |lines| ==> !Cuts(rect, lines[i])
  }

  /**
   * `enclosed`: the rectangle lies inside the loop when no segment cuts
   * across it and the loop's border crossings pair up into a leaving and an
   * entering at adjacent tiles.
   */
  method Enclosed(rect: Segment, lines: seq<Segment>) returns (b: bool)
    requires Resolvable(rect, lines)
    ensures b <==> NoCut(rect, lines) && PairedUp(Crossings(rect, lines))
  {
    var lastExit: Option<Coordinate> := None;
    var lastEntrance: Option<Coordinate> := None;
    ScanStart(rect, lines);
    for i := 0 to |lines|
      invariant Scanned(rect, lines, i, lastExit, lastEntrance)
    {
      var line := lines[i];
      var first := PointInRect(rect, line.0);
      var second := PointInRect(rect, line.1);
      var mid := PointInRect(rect, Midpoint(line));
      if mid != first && mid != second {
        CutFound(rect, lines, i);
        return false;
      }
      if first && !second {
        var crossover := CrossoverPoint(rect, line).value;
        ghost var c := Crossing(true, crossover);
        if lastExit.None? && lastEntrance.None? {
          ScanOpen(rect, lines, i, c);
          lastExit := Some(crossover);
        } else if lastEntrance.Some? {
          if Adjacent(lastEntrance.value, crossover) {
            ScanClose(rect, lines, i, lastExit, lastEntrance, c);
            lastEntrance := None;
          } else {
            Mismatch(rect, lines, i, lastExit, lastEntrance, c);
            return false;
          }
        } else {
          Mismatch(rect, lines, i, lastExit, lastEntrance, c);
          return false;
        }
      } else if !first && second {
        var crossover := CrossoverPoint(rect, line).value;
        ghost var c := Crossing(false, crossover);
        if lastEntrance.None? && lastExit.None? {
          ScanOpen(rect, lines, i, c);
          lastEntrance := Some(crossover);
        } else if lastExit.Some? {
          if Adjacent(lastExit.value, crossover) {
            ScanClose(rect, lines, i, lastExit, lastEntrance, c);
            lastExit := None;
          } else {
            Mismatch(rect, lines, i, lastExit, lastEntrance, c);
            return false;
          }
        } else {
          Mismatch(rect, lines, i, lastExit, lastEntrance, c);
          return false;
        }
      } else {
        ScanSkip(rect, lines, i, lastExit, lastEntrance);
      }
    }
    ScanEnd(rect, lines, lastExit, lastEntrance);
    b := lastExit.None? && lastEntrance.None?;
  }

  /**
   * The scan's state after some crossings: every complete pair is good, and a
   * leaving or an entering is left waiting exactly when their number is odd.
   */
  ghost predicate Pending(cs: seq<Crossing>, lastExit: Option<Coordinate>, lastEntrance: Option<Coordinate>)
  {
    && (forall k: nat :: k < |cs| / 2 ==> PairOk(cs, k))
    && (lastExit.None? || lastEntrance.None?)
    && (|cs| % 2 == 0 <==> lastExit.None? && lastEntrance.None?)
    && (lastExit.Some? ==> cs[|cs| - 1] == Crossing(true, lastExit.value))
    && (lastEntrance.Some? ==> cs[|cs| - 1] == Crossing(false, lastEntrance.value))
  }

  /** The scan has passed the first `i` segments: none cuts the rectangle, and the crossings so far are pending as the state says. */
  ghost predicate Scanned(rect: Segment, lines: seq<Segment>, i: nat, lastExit: Option<Coordinate>, lastEntrance: Option<Coordinate>)
  {
    && i <= |lines| && Resolvable(rect, lines) && Resolvable(rect, lines[..i])
    && NoCut(rect, lines[..i])
    && Pending(Crossings(rect, lines[..i]), lastExit, lastEntrance)
  }

  /** The crossing `c` cannot follow the one waiting: it is of the same kind, or not next to it. */
  predicate Clashes(lastExit: Option<Coordinate>, lastEntrance: Option<Coordinate>, c: Crossing)
  {
    if c.exiting then lastExit.Some? || (lastEntrance.Some? && !Adjacent(lastEntrance.value, c.at))
    else lastEntrance.Some? || (lastExit.Some? && !Adjacent(lastExit.value, c.at))
  }

  lemma ScanStart(rect: Segment, lines: seq<Segment>)
    requires Resolvable(rect, lines)
    ensures Scanned(rect, lines, 0, None, None)
  {
    assert lines[..0] == [];
  }

  lemma ScanEnd(rect: Segment, lines: seq<Segment>, lastExit: Option<Coordinate>, lastEntrance: Option<Coordinate>)
    requires Scanned(rect, lines, |lines|, lastExit, lastEntrance)
    ensures lastExit.None? && lastEntrance.None? <==> NoCut(rect, lines) && PairedUp(Crossings(rect, lines))
  {
    assert lines[..|lines|] == lines;
  }

  /** Segment `i` cuts across the rectangle. */
  lemma CutFound(rect: Segment, lines: seq<Segment>, i: nat)
    requires i < |lines| && Cuts(rect, lines[i])
    ensures !NoCut(rect, lines)
  {
  }

  lemma NoCutStep(rect: Segment, lines: seq<Segment>, i: nat)
    requires i < |lines| && NoCut(rect, lines[..i]) && !Cuts(rect, lines[i])
    ensures NoCut(rect, lines[..i + 1])
  {
    assert lines[..i + 1] == lines[..i] + [lines[i]];
  }

  /** A segment that does not cross the border leaves the scan's state as it is. */
  lemma ScanSkip(rect: Segment, lines: seq<Segment>, i: nat, lastExit: Option<Coordinate>, lastEntrance: Option<Coordinate>)
    requires Scanned(rect, lines, i, lastExit, lastEntrance) && i < |lines|
    requires !Cuts(rect, lines[i]) && !Exits(rect, lines[i]) && !Enters(rect, lines[i])
    ensures Scanned(rect, lines, i + 1, lastExit, lastEntrance)
  {
    CrossingsStep(rect, lines, i);
    NoCutStep(rect, lines, i);
    assert Crossings(rect, lines[..i]) + [] == Crossings(rect, lines[..i]);
  }

  /** A crossing with nothing waiting is left waiting. */
  lemma ScanOpen(rect: Segment, lines: seq<Segment>, i: nat, c: Crossing)
    requires Scanned(rect, lines, i, None, None) && i < |lines|
    requires !Cuts(rect, lines[i]) && CrossingOf(rect, lines[i]) == [c]
    ensures Scanned(rect, lines, i + 1, if c.exiting then Some(c.at) else None, if c.exiting then None else Some(c.at))
  {
    CrossingsStep(rect, lines, i);
    NoCutStep(rect, lines, i);
    PairOpened(Crossings(rect, lines[..i]), c);
  }

  /** A crossing that pairs with the one waiting completes a good pair. */
  lemma ScanClose(rect: Segment, lines: seq<Segment>, i: nat, lastExit: Option<Coordinate>, lastEntrance: Option<Coordinate>, c: Crossing)
    requires Scanned(rect, lines, i, lastExit, lastEntrance) && i < |lines|
    requires lastExit.Some? || lastEntrance.Some?
    requires !Cuts(rect, lines[i]) && CrossingOf(rect, lines[i]) == [c] && !Clashes(lastExit, lastEntrance, c)
    ensures Scanned(rect, lines, i + 1, None, None)
  {
    CrossingsStep(rect, lines, i);
    NoCutStep(rect, lines, i);
    PairClosed(Crossings(rect, lines[..i]), c);
  }

  /** A crossing that clashes with the one waiting means the crossings do not pair up. */
  lemma Mismatch(rect: Segment, lines: seq<Segment>, i: nat, lastExit: Option<Coordinate>, lastEntrance: Option<Coordinate>, c: Crossing)
    requires Scanned(rect, lines, i, lastExit, lastEntrance) && i < |lines|
    requires CrossingOf(rect, lines[i]) == [c] && Clashes(lastExit, lastEntrance, c)
    ensures !PairedUp(Crossings(rect, lines))
  {
    CrossingsStep(rect, lines, i);
    var cs := Crossings(rect, lines[..i]);
    BadPair(cs, c);
    Unpairable(rect, lines, i + 1, cs + [c], |cs| / 2);
  }

  lemma PairOpened(cs: seq<Crossing>, c: Crossing)
    requires |cs| % 2 == 0 && forall k: nat :: k < |cs| / 2 ==> PairOk(cs, k)
    ensures Pending(cs + [c], if c.exiting then Some(c.at) else None, if c.exiting then None else Some(c.at))
  {
    forall k: nat | k < |cs + [c]| / 2 ensures PairOk(cs + [c], k) {
      assert PairOk(cs, k);
    }
  }

  lemma PairClosed(cs: seq<Crossing>, c: Crossing)
    requires |cs| % 2 == 1 && forall k: nat :: k < |cs| / 2 ==> PairOk(cs, k)
    requires cs[|cs| - 1].exiting != c.exiting && Adjacent(cs[|cs| - 1].at, c.at)
    ensures Pending(cs + [c], None, None)
  {
    forall k: nat | k < |cs + [c]| / 2 ensures PairOk(cs + [c], k) {
      if k < |cs| / 2 {
        assert PairOk(cs, k);
      }
    }
  }

  lemma ResolvablePrefix(rect: Segment, lines: seq<Segment>, n: nat)
    requires Resolvable(rect, lines) && n <= |lines|
    ensures Resolvable(rect, lines[..n])
  {
    forall i | 0 <= i < n ensures lines[..n][i] == lines[i] { }
  }

  lemma CrossingsStep(rect: Segment, lines: seq<Segment>, i: nat)
    requires Resolvable(rect, lines) && i < |lines|
    ensures Resolvable(rect, lines[..i]) && Resolvable(rect, lines[..i + 1])
    ensures Crossings(rect, lines[..i + 1]) == Crossings(rect, lines[..i]) + CrossingOf(rect, lines[i])
  {
    ResolvablePrefix(rect, lines, i);
    ResolvablePrefix(rect, lines, i + 1);
    assert lines[..i + 1][..i] == lines[..i];
  }

  lemma CrossingsPrefix(rect: Segment, lines: seq<Segment>, n: nat)
    requires Resolvable(rect, lines) && n <= |lines|
    ensures Resolvable(rect, lines[..n])
    ensures Crossings(rect, lines[..n]) <= Crossings(rect, lines)
    decreases |lines| - n
  {
    if n < |lines| {
      CrossingsPrefix(rect, lines, n + 1);
      CrossingsStep(rect, lines, n);
    } else {
      assert lines[..n] == lines;
    }
  }

  /** A crossing of the same kind as the one waiting, or not next to it, makes a bad pair. */
  lemma BadPair(cs: seq<Crossing>, c: Crossing)
    requires |cs| % 2 == 1
    requires cs[|cs| - 1].exiting == c.exiting || !Adjacent(cs[|cs| - 1].at, c.at)
    ensures 2 * (|cs| / 2) + 1 < |cs + [c]| && !PairOk(cs + [c], |cs| / 2)
  {
  }

  /** A bad pair among the first `n` segments' crossings spoils every longer run of crossings. */
  lemma Unpairable(rect: Segment, lines: seq<Segment>, n: nat, cs: seq<Crossing>, k: nat)
    requires Resolvable(rect, lines) && n <= |lines|
    requires Resolvable(rect, lines[..n]) && cs == Crossings(rect, lines[..n])
    requires 2 * k + 1 < |cs| && !PairOk(cs, k)
    ensures !PairedUp(Crossings(rect, lines))
  {
    CrossingsPrefix(rect, lines, n);
    var all := Crossings(rect, lines);
    assert cs[2 * k] == all[2 * k] && cs[2 * k + 1] == all[2 * k + 1];
    assert !PairOk(all, k);
  }
}
