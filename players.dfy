/**
  * The player: a 30 x 30 box moved by the arrow keys, one axis per frame with
  * the horizontal keys taking precedence, each axis move taken back if it runs
  * into a wall. After moving, the player picks up the first lemon it overlaps,
  * which scores a point, and records whether it moved at all this frame.
  */
module Players {
  import opened Geometry
  import opened Grid
  import opened Mover
  import opened Levels
  import opened RuleTracking

  /** The arrow keys held down this frame. */
  datatype Keys = Keys(left: bool, right: bool, up: bool, down: bool)

  /** `keys[pos] - keys[neg]`: +1, -1, or 0 when both or neither are held. */
  function KeyAxis(neg: bool, pos: bool): (v: int)
    ensures -1 <= v <= 1
    ensures v == 0 <==> neg == pos
    ensures v == 1 <==> pos && !neg
    ensures v == -1 <==> neg && !pos
  {
    (if pos then 1 else 0) - (if neg then 1 else 0)
  }

  /**
    * The frame's requested move: the horizontal keys scaled by the speed, and the
    * vertical keys only when there is no horizontal move.
    */
  function AxisLockedDelta(keys: Keys, speed: int): (d: (int, int))
    ensures d.0 == KeyAxis(keys.left, keys.right) * speed
    ensures d.0 != 0 ==> d.1 == 0
    ensures d.0 == 0 ==> d.1 == KeyAxis(keys.up, keys.down) * speed
    ensures Abs(d.0) <= Abs(speed) && Abs(d.1) <= Abs(speed)
  {
    var horizontal := KeyAxis(keys.left, keys.right) * speed;
    var vertical := KeyAxis(keys.up, keys.down) * speed;
    if horizontal != 0 then (horizontal, 0) else (horizontal, vertical)
  }

  /**
    * Axis lock: a frame's move never changes both coordinates, never changes y
    * while a horizontal move is requested, and changes a coordinate by at most
    * the speed.
    */
  lemma AxisLock(g: seq<seq<int>>, r: Rect, keys: Keys, speed: int)
    ensures var d := AxisLockedDelta(keys, speed);
      var s := Slide(g, r, d.0, d.1);
      && (d.0 != 0 ==> s.y == r.y)
      && (s.x == r.x || s.y == r.y)
      && Abs(s.x - r.x) <= Abs(speed) && Abs(s.y - r.y) <= Abs(speed)
  {
    var d := AxisLockedDelta(keys, speed);
    SlideAxes(g, r, d.0, d.1);
  }

  class Player {
    const startX: int
    const startY: int
    const speed: int
    var rect: Rect
    var movedThisFrame: bool

    /** A player box at `(x, y)`, remembering that spot as its start. */
    constructor (x: int, y: int, speed: int)
      ensures startX == x && startY == y && this.speed == speed
      ensures rect == Rect(x, y, HitboxSize, HitboxSize)
      ensures !movedThisFrame
    {
      startX := x;
      startY := y;
      this.speed := speed;
      rect := Rect(x, y, HitboxSize, HitboxSize);
      movedThisFrame := false;
    }

    /** `reset_position`: move the box to `(x, y)`; its size is kept. */
    method ResetPosition(x: int, y: int)
      modifies this`rect
      ensures rect == old(rect).(x := x, y := y)
    {
      rect := rect.(x := x);
      rect := rect.(y := y);
    }

    /**
      * `_move_axis`: a non-zero `dx` is applied and taken back if the box then
      * overlaps a wall; then the same for `dy`.
      */
    method MoveAxis(dx: int, dy: int, level: Level)
      modifies this`rect
      ensures rect == Slide(level.mapData, old(rect), dx, dy)
    {
      if dx != 0 {
        rect := rect.(x := rect.x + dx);
        var hit := level.CollidesWithWall(rect);
        if hit {
          rect := rect.(x := rect.x - dx);
        }
      }
      if dy != 0 {
        rect := rect.(y := rect.y + dy);
        var hit := level.CollidesWithWall(rect);
        if hit {
          rect := rect.(y := rect.y - dy);
        }
      }
    }

    /**
      * `update`: move by the axis-locked request, pick up the first lemon the box
      * now overlaps (one point for it), and record whether the box moved.
      */
    method Update(keys: Keys, rules: Rules, level: Level)
      requires level.Valid()
      modifies this`rect, this`movedThisFrame, rules`score, level`items
      ensures level.Valid()
      ensures var d := AxisLockedDelta(keys, speed); rect == Slide(level.mapData, old(rect), d.0, d.1)
      ensures var items, k := old(level.items), FirstHit(old(level.items), rect);
        && (k < |items| ==> rules.score == old(rules.score) + 1 && level.items == Without(items, k))
        && (k == |items| ==> rules.score == old(rules.score) && level.items == items)
      ensures movedThisFrame <==> rect.x != old(rect.x) || rect.y != old(rect.y)
      ensures !WallOverlap(level.mapData, old(rect)) ==> !WallOverlap(level.mapData, rect)
    {
      var oldX, oldY := rect.x, rect.y;

      var horizontal := KeyAxis(keys.left, keys.right) * speed;
      var vertical := KeyAxis(keys.up, keys.down) * speed;
      if horizontal != 0 {
        vertical := 0;
      }

      MoveAxis(horizontal, 0, level);
      MoveAxis(0, vertical, level);
      SlideSplit(level.mapData, old(rect), horizontal, vertical);

      var picked := level.CheckPickup(rect);
      if picked {
        rules.OnItemPicked();
      }

      movedThisFrame := rect.x != oldX || rect.y != oldY;
    }
  }
}
