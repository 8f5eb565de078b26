/** Rectangular blocks of grid positions, and how many positions they hold. */
module Grids {

  /** A position on a grid: column, then row. */
  type Coordinate = (nat, nat)

  /** The positions `(x, y0)` to `(x, y0 + h - 1)`. */
  ghost function Column(x: nat, y0: nat, h: nat): set<Coordinate>
  {
    if h == 0 then {} else Column(x, y0, h - 1) + {(x, y0 + h - 1)}
  }

  /** The `w` by `h` block of positions whose lowest corner is `(x0, y0)`. */
  ghost function Block(x0: nat, w: nat, y0: nat, h: nat): set<Coordinate>
  {
    if w == 0 then {} else Block(x0, w - 1, y0, h) + Column(x0 + w - 1, y0, h)
  }

  lemma {:induction false} ColumnMembers(x: nat, y0: nat, h: nat)
    ensures forall p :: p in Column(x, y0, h) <==> p.0 == x && y0 <= p.1 < y0 + h
  {
    if h > 0 {
      ColumnMembers(x, y0, h - 1);
    }
  }

  lemma {:induction false} ColumnSize(x: nat, y0: nat, h: nat)
    ensures |Column(x, y0, h)| == h
  {
    if h > 0 {
      ColumnSize(x, y0, h - 1);
      ColumnMembers(x, y0, h - 1);
      assert (x, y0 + h - 1) !in Column(x, y0, h - 1);
    }
  }

  lemma ColumnFacts(x: nat, y0: nat, h: nat)
    ensures forall p :: p in Column(x, y0, h) <==> p.0 == x && y0 <= p.1 < y0 + h
    ensures |Column(x, y0, h)| == h
  {
    ColumnMembers(x, y0, h);
    ColumnSize(x, y0, h);
  }

  lemma {:induction false} BlockMembers(x0: nat, w: nat, y0: nat, h: nat)
    ensures forall p :: p in Block(x0, w, y0, h) <==> x0 <= p.0 < x0 + w && y0 <= p.1 < y0 + h
  {
    if w > 0 {
      BlockMembers(x0, w - 1, y0, h);
      ColumnMembers(x0 + w - 1, y0, h);
    }
  }

  /** The column just past the block's right edge shares no position with it. */
  lemma BlockBesideColumn(x0: nat, w: nat, y0: nat, h: nat)
    ensures Block(x0, w, y0, h) !! Column(x0 + w, y0, h)
  {
    BlockMembers(x0, w, y0, h);
    ColumnMembers(x0 + w, y0, h);
  }

  lemma {:induction false} BlockSize(x0: nat, w: nat, y0: nat, h: nat)
    ensures |Block(x0, w, y0, h)| == w * h
  {
    if w > 0 {
      var left, right := Block(x0, w - 1, y0, h), Column(x0 + w - 1, y0, h);
      BlockSize(x0, w - 1, y0, h);
      BlockBesideColumn(x0, w - 1, y0, h);
      ColumnSize(x0 + w - 1, y0, h);
      DisjointUnionSize(left, right);
      MulSucc(w - 1, h);
    }
  }

  lemma DisjointUnionSize<T>(a: set<T>, b: set<T>)
    requires a !! b
    ensures |a + b| == |a| + |b|
  {
    assert a * b == {};
  }

  lemma MulSucc(a: nat, b: nat)
    ensures a * b + b == (a + 1) * b
  {
  }

  lemma BlockFacts(x0: nat, w: nat, y0: nat, h: nat)
    ensures forall p :: p in Block(x0, w, y0, h) <==> x0 <= p.0 < x0 + w && y0 <= p.1 < y0 + h
    ensures |Block(x0, w, y0, h)| == w * h
  {
    BlockMembers(x0, w, y0, h);
    BlockSize(x0, w, y0, h);
  }
}
