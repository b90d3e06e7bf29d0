/**
  * The tile matrix shared by the level, the movers and the path planner:
  * tile codes, tile coordinates, 4-neighbourhoods, passability and walks,
  * and the "does this box overlap a tile of that kind" query.
  */
module Grid {
  import opened Geometry

  /** Tile codes as stored in the level's matrix. */
  const Floor: int := 0
  const Wall: int := 1
  const Lemon: int := 2
  const Lava: int := 3
  const Finish: int := 4

  /** A tile coordinate `(column, row)`. */
  type Tile = (int, int)

  /** A matrix is indexed `g[row][column]`; all rows have the width of row 0. */
  predicate Rectangular(g: seq<seq<int>>)
  {
    |g| > 0 && forall y :: 0 <= y < |g| ==> |g[y]| == |g[0]|
  }

  predicate InBounds(g: seq<seq<int>>, t: Tile)
    requires |g| > 0
  {
    0 <= t.1 < |g| && 0 <= t.0 < |g[0]|
  }

  /** What the pursuer may walk on: in bounds and not a wall. */
  predicate Open(g: seq<seq<int>>, t: Tile)
    requires Rectangular(g)
  {
    InBounds(g, t) && g[t.1][t.0] != Wall
  }

  /** The four neighbours in the planner's expansion order: right, left, down, up. */
  function Neighbour(t: Tile, i: int): (n: Tile)
    ensures Adjacent(t, n)
  {
    if i == 0 then (t.0 + 1, t.1)
    else if i == 1 then (t.0 - 1, t.1)
    else if i == 2 then (t.0, t.1 + 1)
    else (t.0, t.1 - 1)
  }

  /** Two tiles one step apart horizontally or vertically. */
  predicate Adjacent(a: Tile, b: Tile)
  {
    (a.1 == b.1 && (b.0 == a.0 + 1 || b.0 == a.0 - 1)) ||
    (a.0 == b.0 && (b.1 == a.1 + 1 || b.1 == a.1 - 1))
  }

  /** The neighbour index that steps from `a` to an adjacent `b`. */
  function Direction(a: Tile, b: Tile): (i: int)
    requires Adjacent(a, b)
    ensures 0 <= i < 4 && Neighbour(a, i) == b
  {
    if b.0 == a.0 + 1 then 0
    else if b.0 == a.0 - 1 then 1
    else if b.1 == a.1 + 1 then 2
    else 3
  }

  /** Every one of the four neighbours is adjacent, and no other tile is. */
  lemma NeighbourAdjacent(a: Tile, b: Tile)
    ensures Adjacent(a, b) <==> exists i :: 0 <= i < 4 && Neighbour(a, i) == b
  {
    if Adjacent(a, b) {
      var i := Direction(a, b);
    }
  }

  /**
    * `p` is a walk from `start` to `goal` as the planner builds them: it starts at
    * `start` (which is not itself checked), ends at `goal`, every step moves to an
    * adjacent tile, and every tile after the first is in bounds and not a wall.
    */
  ghost predicate IsWalk(g: seq<seq<int>>, p: seq<Tile>, start: Tile, goal: Tile)
    requires Rectangular(g)
  {
    |p| > 0 && p[0] == start && p[|p| - 1] == goal &&
    forall i :: 1 <= i < |p| ==> Open(g, p[i]) && Adjacent(p[i - 1], p[i])
  }

  ghost predicate Reachable(g: seq<seq<int>>, start: Tile, goal: Tile)
    requires Rectangular(g)
  {
    exists p :: IsWalk(g, p, start, goal)
  }

  /** The box `r` overlaps the box of some tile of the matrix holding `kind`. */
  predicate TileOverlap(g: seq<seq<int>>, r: Rect, kind: int)
  {
    exists y, x :: 0 <= y < |g| && 0 <= x < |g[y]| && g[y][x] == kind && Colliderect(r, TileBox(x, y))
  }

  predicate WallOverlap(g: seq<seq<int>>, r: Rect)
  {
    TileOverlap(g, r, Wall)
  }
}
