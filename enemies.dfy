/**
  * The pursuer: it holds a planned path of tiles, searches again when its
  * cooldown has run out or it holds no path, and each frame steps its box
  * towards the centre of the second tile of the path with the wall-reverting
  * mover, dropping the head of the path once it is within a pixel of that centre.
  *
  * The per-frame step `(stepX, stepY)` comes from a floating-point direction
  * computation and is an input here.
  */
module Enemies {
  import opened Geometry
  import opened Grid
  import opened Mover
  import opened PathFinding
  import opened Levels

  /** Frames a held path is kept before the next search. */
  const RepathInterval: int := 12

  /** `_tile_from_px`: the tile whose box holds pixel `(x, y)`; no other tile does. */
  function TileFromPx(x: int, y: int): (t: Tile)
    ensures Contains(TileBox(t.0, t.1), x, y)
    ensures forall tx, ty :: Contains(TileBox(tx, ty), x, y) ==> tx == t.0 && ty == t.1
  {
    (PixelToTile(x), PixelToTile(y))
  }

  /** `_center_for_tile`: the centre pixel of tile `(tx, ty)`'s box. */
  function CenterForTile(tx: int, ty: int): (c: (int, int))
    ensures c.0 == CenterX(TileBox(tx, ty)) && c.1 == CenterY(TileBox(tx, ty))
    ensures TileFromPx(c.0, c.1) == (tx, ty)
  {
    (tx * TileSize + TileSize / 2, ty * TileSize + TileSize / 2)
  }

  /** Both centre coordinates of `r` are within one pixel of `target`. */
  predicate NearWaypoint(r: Rect, target: (int, int))
  {
    Abs(CenterX(r) - target.0) <= 1 && Abs(CenterY(r) - target.1) <= 1
  }

  /**
    * `_ensure_path` as a relation between states: a held path is kept while the
    * cooldown runs down; otherwise the path is a fresh search result from the
    * pursuer's tile to the player's and the cooldown starts again.
    */
  ghost predicate Repathed(g: seq<seq<int>>, me: Rect, player: Rect,
                           cooldown0: int, path0: seq<Tile>, cooldown: int, path: seq<Tile>)
    requires Rectangular(g)
  {
    if cooldown0 > 0 && path0 != [] then
      path == path0 && cooldown == cooldown0 - 1
    else
      ShortestOrEmpty(g, CentreTile(me), CentreTile(player), path) && cooldown == RepathInterval
  }

  /** The path after a frame's waypoint check, given the box where the step left the pursuer. */
  function AfterWaypoint(path: seq<Tile>, r: Rect): (p: seq<Tile>)
    requires |path| >= 2
    ensures p == path || p == path[1..]
    ensures p == path[1..] <==> NearWaypoint(r, CenterForTile(path[1].0, path[1].1)) && path[0] != path[1]
  {
    if NearWaypoint(r, CenterForTile(path[1].0, path[1].1)) && path[0] != path[1] then path[1..] else path
  }

  /** Consecutive tiles of a walk differ, so a searched path never blocks its own waypoint pop. */
  lemma WalkStepsDiffer(g: seq<seq<int>>, p: seq<Tile>, start: Tile, goal: Tile)
    requires Rectangular(g) && IsWalk(g, p, start, goal)
    ensures forall i :: 1 <= i < |p| ==> p[i - 1] != p[i]
  {
    forall i | 1 <= i < |p|
      ensures p[i - 1] != p[i]
    {
      assert Adjacent(p[i - 1], p[i]);
    }
  }

  class Enemy {
    var rect: Rect
    var path: seq<Tile>
    var repathCooldown: int

    /** A pursuer at pixel `(startX, startY)` with no path and no cooldown. */
    constructor (startX: int, startY: int)
      ensures rect == Rect(startX, startY, HitboxSize, HitboxSize)
      ensures path == [] && repathCooldown == 0
    {
      rect := Rect(startX, startY, HitboxSize, HitboxSize);
      path := [];
      repathCooldown := 0;
    }

    /** `_ensure_path`: keep the held path while cooling down, otherwise search again. */
    method EnsurePath(level: Level, playerRect: Rect)
      requires WellFormedArena(level.mapData)
      modifies this`path, this`repathCooldown
      ensures Repathed(level.mapData, rect, playerRect, old(repathCooldown), old(path), repathCooldown, path)
    {
      if repathCooldown > 0 && path != [] {
        repathCooldown := repathCooldown - 1;
        return;
      }
      var myTile := TileFromPx(CenterX(rect), CenterY(rect));
      var playerTile := TileFromPx(CenterX(playerRect), CenterY(playerRect));
      path := Bfs(level.mapData, myTile, playerTile);
      repathCooldown := RepathInterval;
    }

    /**
      * The moving half of `update`, once the plan has a next tile: step towards
      * its centre one axis at a time, taking back a step that hits a wall, and
      * drop the head of the plan once the centre is within a pixel of the next
      * tile's centre.
      */
    method Advance(level: Level, stepX: int, stepY: int)
      requires WellFormedArena(level.mapData)
      requires |path| >= 2
      modifies this`rect, this`path
      ensures rect == Slide(level.mapData, old(rect), stepX, stepY)
      ensures path == AfterWaypoint(old(path), rect)
    {
      var next := path[1];
      var target := CenterForTile(next.0, next.1);

      var oldX, oldY := rect.x, rect.y;
      rect := rect.(x := rect.x + stepX);
      var hit := level.CollidesWithWall(rect);
      if hit {
        rect := rect.(x := oldX);
      }
      rect := rect.(y := rect.y + stepY);
      hit := level.CollidesWithWall(rect);
      if hit {
        rect := rect.(y := oldY);
      }

      if Abs(CenterX(rect) - target.0) <= 1 && Abs(CenterY(rect) - target.1) <= 1 {
        if path != [] && path[0] != next {
          path := path[1..];
        }
      }
    }

    /**
      * `update`: plan, then move along the plan when it has a next tile.
      * `planned` is the path as planning left it.
      */
    method Update(level: Level, playerRect: Rect, stepX: int, stepY: int) returns (ghost planned: seq<Tile>)
      requires WellFormedArena(level.mapData)
      modifies this
      ensures Repathed(level.mapData, old(rect), playerRect, old(repathCooldown), old(path), repathCooldown, planned)
      ensures |planned| < 2 ==> rect == old(rect) && path == planned
      ensures |planned| >= 2 ==> rect == Slide(level.mapData, old(rect), stepX, stepY)
      ensures |planned| >= 2 ==> path == AfterWaypoint(planned, rect)
      ensures path != [] <==> planned != []
      ensures !WallOverlap(level.mapData, old(rect)) ==> !WallOverlap(level.mapData, rect)
    {
      EnsurePath(level, playerRect);
      planned := path;
      if |path| < 2 {
        return;
      }
      Advance(level, stepX, stepY);
    }
  }
}
