/**
  * Axis-aligned integer rectangles with the semantics the game takes from
  * pygame's `Rect`: a box `(x, y, w, h)`, its centre by integer halving, and
  * an overlap test in which boxes that only touch along an edge do not collide.
  */
module Geometry {

  /** Edge of one grid tile in pixels (the level's default and the value the game uses). */
  const TileSize: int := 32

  /** Edge of the square collision box of the player and of the pursuer. */
  const HitboxSize: int := 30

  datatype Rect = Rect(x: int, y: int, w: int, h: int)

  function Abs(n: int): nat
  {
    if n < 0 then -n else n
  }

  /** `rect.centerx`: the left edge plus half the width, rounded down. */
  function CenterX(r: Rect): int
  {
    r.x + r.w / 2
  }

  /** `rect.centery`: the top edge plus half the height, rounded down. */
  function CenterY(r: Rect): int
  {
    r.y + r.h / 2
  }

  /** `a.colliderect(b)`: the open interiors overlap on both axes. */
  predicate Colliderect(a: Rect, b: Rect)
  {
    a.x < b.x + b.w && b.x < a.x + a.w && a.y < b.y + b.h && b.y < a.y + a.h
  }

  /** The pixel `(px, py)` lies inside `r` (left and top edges inclusive). */
  predicate Contains(r: Rect, px: int, py: int)
  {
    r.x <= px < r.x + r.w && r.y <= py < r.y + r.h
  }

  /** The pixel box of tile `(tx, ty)`. */
  function TileBox(tx: int, ty: int): Rect
  {
    Rect(tx * TileSize, ty * TileSize, TileSize, TileSize)
  }

  /** A box collides with every box of positive size that contains its centre. */
  lemma CollidesWhereCenterLies(r: Rect, b: Rect)
    requires r.w > 0 && r.h > 0
    requires Contains(b, CenterX(r), CenterY(r))
    ensures Colliderect(r, b)
  {
  }

  /** The tile index holding pixel coordinate `p`: floor division `p // 32`, negatives included. */
  function PixelToTile(p: int): (t: int)
    ensures t * TileSize <= p < t * TileSize + TileSize
  {
    p / TileSize
  }
}
