/** Grid positions, the 8-neighbour scan order and the Moore neighbourhood. */
module Geometry {
  import opened Basics

  /** A (row, column) position; rows and columns may be any integer, bounds are checked separately. */
  type Pos = (int, int)

  /** The neighbour offsets in the order every scan of the game uses:
      up, down, left, right, then the diagonals up-left, up-right, down-left, down-right. */
  const Directions: seq<(int, int)> :=
    [(-1, 0), (1, 0), (0, -1), (0, 1), (-1, -1), (-1, 1), (1, -1), (1, 1)]

  /** The neighbour of `p` reached by direction number `k`. */
  function Offset(p: Pos, k: nat): Pos
    requires k < 8
  {
    (p.0 + Directions[k].0, p.1 + Directions[k].1)
  }

  /** Chebyshev (king-move) distance. */
  function Chebyshev(p: Pos, q: Pos): nat
  {
    Max(Abs(p.0 - q.0), Abs(p.1 - q.1))
  }

  /** `q` is one of the eight cells around `p`. */
  predicate Adjacent(p: Pos, q: Pos)
  {
    p != q && -1 <= p.0 - q.0 <= 1 && -1 <= p.1 - q.1 <= 1
  }

  /** `q` lies in the closed Moore neighbourhood of `p` (the 3x3 block centred on `p`). */
  predicate Near(p: Pos, q: Pos)
  {
    -1 <= p.0 - q.0 <= 1 && -1 <= p.1 - q.1 <= 1
  }

  /** `p` lies inside a grid of `rows` by `cols` cells. */
  predicate Within(rows: int, cols: int, p: Pos)
  {
    0 <= p.0 < rows && 0 <= p.1 < cols
  }

  /** Every cell of a `rows` by `cols` grid. */
  function AllCells(rows: int, cols: int): (s: set<Pos>)
    ensures forall p :: p in s <==> Within(rows, cols, p)
  {
    var s := set r, c | 0 <= r < rows && 0 <= c < cols :: (r, c);
    assert forall p :: Within(rows, cols, p) ==> p in s by {
      forall p | Within(rows, cols, p)
        ensures p in s
      {
        assert p == (p.0, p.1);
      }
    }
    s
  }

  /** The eight directions reach exactly the eight adjacent cells. */
  lemma AdjacentIsOffset(p: Pos, q: Pos)
    ensures Adjacent(p, q) <==> exists k :: 0 <= k < 8 && q == Offset(p, k)
  {
    if Adjacent(p, q) {
      var dr, dc := q.0 - p.0, q.1 - p.1;
      var k :=
        if dr == -1 && dc == 0 then 0
        else if dr == 1 && dc == 0 then 1
        else if dr == 0 && dc == -1 then 2
        else if dr == 0 && dc == 1 then 3
        else if dr == -1 && dc == -1 then 4
        else if dr == -1 && dc == 1 then 5
        else if dr == 1 && dc == -1 then 6
        else 7;
      assert q == Offset(p, k);
    }
  }

  /** Every direction leads to an adjacent cell. */
  lemma OffsetIsAdjacent(p: Pos, k: nat)
    requires k < 8
    ensures Adjacent(p, Offset(p, k))
  {
  }

  /** Adjacent cells are exactly those at Chebyshev distance one. */
  lemma AdjacentIsDistanceOne(p: Pos, q: Pos)
    ensures Adjacent(p, q) <==> Chebyshev(p, q) == 1
  {
  }
}
