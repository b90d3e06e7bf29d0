/**
  * The collision-resolving mover shared by the player and the pursuer: move a
  * box along x and take the move back if the box now overlaps a wall tile,
  * then do the same along y. Resolving the axes one after the other is what
  * lets a box slide along a wall instead of sticking to it.
  */
module Mover {
  import opened Geometry
  import opened Grid

  /** One axis of the mover: shift by `dx`, keep the shift only if no wall is hit. */
  function StepX(g: seq<seq<int>>, r: Rect, dx: int): (r': Rect)
    ensures r'.y == r.y && r'.w == r.w && r'.h == r.h
    ensures r'.x == r.x + dx <==> dx == 0 || !WallOverlap(g, r.(x := r.x + dx))
    ensures r'.x != r.x + dx ==> r'.x == r.x
    ensures !WallOverlap(g, r) ==> !WallOverlap(g, r')
  {
    var moved := r.(x := r.x + dx);
    if WallOverlap(g, moved) then r else moved
  }

  function StepY(g: seq<seq<int>>, r: Rect, dy: int): (r': Rect)
    ensures r'.x == r.x && r'.w == r.w && r'.h == r.h
    ensures r'.y == r.y + dy <==> dy == 0 || !WallOverlap(g, r.(y := r.y + dy))
    ensures r'.y != r.y + dy ==> r'.y == r.y
    ensures !WallOverlap(g, r) ==> !WallOverlap(g, r')
  {
    var moved := r.(y := r.y + dy);
    if WallOverlap(g, moved) then r else moved
  }

  /** The whole mover: x first, then y from wherever x left the box. */
  function Slide(g: seq<seq<int>>, r: Rect, dx: int, dy: int): (s: Rect)
    ensures s.w == r.w && s.h == r.h
    ensures (s.x == r.x || s.x == r.x + dx) && (s.y == r.y || s.y == r.y + dy)
  {
    StepY(g, StepX(g, r, dx), dy)
  }

  /** Wall containment: a box clear of walls before the move is clear after it. */
  lemma SlideStaysClear(g: seq<seq<int>>, r: Rect, dx: int, dy: int)
    requires !WallOverlap(g, r)
    ensures !WallOverlap(g, Slide(g, r, dx, dy))
    ensures Slide(g, r, dx, dy).w == r.w && Slide(g, r, dx, dy).h == r.h
  {
  }

  /**
    * Each coordinate either moves by its full delta or stays; x moves iff the
    * x-shifted box is clear, and y moves iff the y-shift is clear from where x ended.
    */
  lemma SlideAxes(g: seq<seq<int>>, r: Rect, dx: int, dy: int)
    ensures var s := Slide(g, r, dx, dy);
      (s.x == r.x + dx <==> dx == 0 || !WallOverlap(g, r.(x := r.x + dx))) &&
      (s.x == r.x || s.x == r.x + dx) &&
      (s.y == r.y + dy <==> dy == 0 || !WallOverlap(g, r.(x := s.x, y := r.y + dy))) &&
      (s.y == r.y || s.y == r.y + dy)
  {
  }

  /**
    * Sliding: when the x move is blocked, the y move still happens as long as
    * the y-shifted box is clear of walls.
    */
  lemma SlideAlongWall(g: seq<seq<int>>, r: Rect, dx: int, dy: int)
    requires WallOverlap(g, r.(x := r.x + dx))
    requires !WallOverlap(g, r.(y := r.y + dy))
    ensures Slide(g, r, dx, dy) == r.(y := r.y + dy)
  {
  }

  /** Moving one axis at a time, as the player does, is the same as one combined call. */
  lemma SlideSplit(g: seq<seq<int>>, r: Rect, dx: int, dy: int)
    ensures Slide(g, Slide(g, r, dx, 0), 0, dy) == Slide(g, r, dx, dy)
  {
  }
}
