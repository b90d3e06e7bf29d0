/**
  * The level: a 20 x 15 tile matrix with a wall border, lava and lemons
  * scattered over the interior by per-cell random draws, a finish tile, and no
  * lava next to the start or the finish. Lemons are also kept as a list of
  * tiles, from which pickups remove and which a soft reset restores.
  *
  * The random draws are an input: `draw(x, y)` is the number in [0, 1) that the
  * generator's random source produced for interior cell `(x, y)`.
  */
module Levels {
  import opened Geometry
  import opened Grid
  import opened Options

  const Cols: int := 20
  const Rows: int := 15
  const StartTile: Tile := (2, 2)
  const FinishTile: Tile := (Cols - 2, 2)

  /** How many pixels a lemon's pickup box is inset from its tile on every side. */
  const LemonPadCollision: int := 2

  /** Draws below this turn a floor cell into lava. */
  const LavaChance: real := 0.08

  /** Draws from `LavaChance` up to below this turn a floor cell into a lemon. */
  const LemonChance: real := 0.13

  // ---- Generation, cell by cell ----

  predicate Shaped(m: seq<seq<int>>)
  {
    |m| == Rows && forall y :: 0 <= y < Rows ==> |m[y]| == Cols
  }

  predicate OnBorder(x: int, y: int)
  {
    x == 0 || y == 0 || x == Cols - 1 || y == Rows - 1
  }

  /** `(x, y)` lies in the 3 x 3 block centred on `c`. */
  predicate Near(x: int, y: int, c: Tile)
  {
    c.0 - 1 <= x <= c.0 + 1 && c.1 - 1 <= y <= c.1 + 1
  }

  /** The walled arena before scattering: wall on the border, floor inside. */
  function BaseCell(x: int, y: int): int
  {
    if OnBorder(x, y) then Wall else Floor
  }

  /** What one draw does to an interior cell holding `cell`. */
  function Scatter(r: real, cell: int): int
  {
    if r < LavaChance then Lava else if r < LemonChance then Lemon else cell
  }

  /** The draw applies to interior cells other than the start and the finish. */
  predicate Scattered(x: int, y: int)
  {
    !OnBorder(x, y) && (x, y) != StartTile && (x, y) != FinishTile
  }

  /** The cell after the arena is built and the draws are applied. */
  function ScatteredCell(draw: (int, int) -> real, x: int, y: int): int
  {
    if Scattered(x, y) then Scatter(draw(x, y), BaseCell(x, y)) else BaseCell(x, y)
  }

  /** The cell of the finished level: the finish placed, lava near start and finish cleared. */
  function GeneratedCell(draw: (int, int) -> real, x: int, y: int): int
  {
    if (x, y) == FinishTile then Finish
    else
      var c := ScatteredCell(draw, x, y);
      if c == Lava && (Near(x, y, StartTile) || Near(x, y, FinishTile)) then Floor else c
  }

  ghost predicate GeneratedFrom(m: seq<seq<int>>, draw: (int, int) -> real)
  {
    Shaped(m) &&
    forall y, x :: 0 <= y < Rows && 0 <= x < Cols ==> m[y][x] == GeneratedCell(draw, x, y)
  }

  /** What every generated level satisfies, whatever the draws. */
  predicate WellFormedArena(m: seq<seq<int>>)
  {
    && Shaped(m)
    && (forall y, x :: 0 <= y < Rows && 0 <= x < Cols ==> Floor <= m[y][x] <= Finish)
    && (forall y, x :: 0 <= y < Rows && 0 <= x < Cols && OnBorder(x, y) ==> m[y][x] == Wall)
    && (forall y, x :: 0 <= y < Rows && 0 <= x < Cols && !OnBorder(x, y) ==> m[y][x] != Wall)
    && m[FinishTile.1][FinishTile.0] == Finish
    && m[StartTile.1][StartTile.0] == Floor
    && (forall y, x :: 0 <= y < Rows && 0 <= x < Cols && (Near(x, y, StartTile) || Near(x, y, FinishTile))
          ==> m[y][x] != Lava)
  }

  /**
    * Border cells are walls, the finish holds the finish code, the start is plain
    * floor, and no lava lies in the 3 x 3 blocks around the start and the finish.
    */
  lemma GeneratedWellFormed(m: seq<seq<int>>, draw: (int, int) -> real)
    requires GeneratedFrom(m, draw)
    ensures WellFormedArena(m)
  {
  }

  /** Builds the walled arena row by row. */
  method WalledArena() returns (m: seq<seq<int>>)
    ensures Shaped(m)
    ensures forall y, x :: 0 <= y < Rows && 0 <= x < Cols ==> m[y][x] == BaseCell(x, y)
  {
    m := [seq(Cols, _ => Wall)];
    for i := 0 to Rows - 2
      invariant |m| == i + 1
      invariant forall y :: 0 <= y < |m| ==> |m[y]| == Cols
      invariant forall y, x :: 0 <= y < |m| && 0 <= x < Cols ==> m[y][x] == BaseCell(x, y)
    {
      m := m + [[Wall] + seq(Cols - 2, _ => Floor) + [Wall]];
    }
    m := m + [seq(Cols, _ => Wall)];
  }

  /** Cells of row `y` strictly before `(x, y)` in row-major order, or any earlier row. */
  predicate Before(xx: int, yy: int, x: int, y: int)
  {
    yy < y || (yy == y && xx < x)
  }

  /** Applies the draws to every interior cell except the start and the finish. */
  method ScatterHazards(m0: seq<seq<int>>, draw: (int, int) -> real) returns (m: seq<seq<int>>)
    requires Shaped(m0)
    ensures Shaped(m)
    ensures forall y, x :: 0 <= y < Rows && 0 <= x < Cols ==>
      m[y][x] == if Scattered(x, y) then Scatter(draw(x, y), m0[y][x]) else m0[y][x]
  {
    m := m0;
    for y := 1 to Rows - 1
      invariant Shaped(m)
      invariant forall yy, xx :: 0 <= yy < Rows && 0 <= xx < Cols ==>
        m[yy][xx] == if Before(xx, yy, 0, y) && Scattered(xx, yy) then Scatter(draw(xx, yy), m0[yy][xx]) else m0[yy][xx]
    {
      for x := 1 to Cols - 1
        invariant Shaped(m)
        invariant forall yy, xx :: 0 <= yy < Rows && 0 <= xx < Cols ==>
          m[yy][xx] == if Before(xx, yy, x, y) && Scattered(xx, yy) then Scatter(draw(xx, yy), m0[yy][xx]) else m0[yy][xx]
      {
        if (x, y) == StartTile || (x, y) == FinishTile {
          continue;
        }
        var r := draw(x, y);
        if r < LavaChance {
          m := m[y := m[y][x := Lava]];
        } else if r < LemonChance {
          m := m[y := m[y][x := Lemon]];
        }
      }
    }
  }

  /** Turns every lava cell of the 3 x 3 block around `c` that lies in the matrix into floor. */
  method ClearLavaAround(m0: seq<seq<int>>, c: Tile) returns (m: seq<seq<int>>)
    requires Shaped(m0)
    ensures Shaped(m)
    ensures forall y, x :: 0 <= y < Rows && 0 <= x < Cols ==>
      m[y][x] == if Near(x, y, c) && m0[y][x] == Lava then Floor else m0[y][x]
  {
    m := m0;
    for dy := -1 to 2
      invariant Shaped(m)
      invariant forall y, x :: 0 <= y < Rows && 0 <= x < Cols ==>
        m[y][x] == if Near(x, y, c) && Before(x - c.0, y - c.1, -1, dy) && m0[y][x] == Lava then Floor else m0[y][x]
    {
      for dx := -1 to 2
        invariant Shaped(m)
        invariant forall y, x :: 0 <= y < Rows && 0 <= x < Cols ==>
          m[y][x] == if Near(x, y, c) && Before(x - c.0, y - c.1, dx, dy) && m0[y][x] == Lava then Floor else m0[y][x]
      {
        var tx, ty := c.0 + dx, c.1 + dy;
        if 0 <= ty < Rows && 0 <= tx < Cols {
          if m[ty][tx] == Lava {
            m := m[ty := m[ty][tx := Floor]];
          }
        }
      }
    }
  }

  /** Places the finish tile, then clears lava around the start and around the finish. */
  method PlaceFinishAndClear(m0: seq<seq<int>>) returns (m: seq<seq<int>>)
    requires Shaped(m0)
    ensures Shaped(m)
    ensures forall y, x :: 0 <= y < Rows && 0 <= x < Cols ==>
      m[y][x] == if (x, y) == FinishTile then Finish
                 else if m0[y][x] == Lava && (Near(x, y, StartTile) || Near(x, y, FinishTile)) then Floor
                 else m0[y][x]
  {
    m := m0[FinishTile.1 := m0[FinishTile.1][FinishTile.0 := Finish]];
    m := ClearLavaAround(m, StartTile);
    m := ClearLavaAround(m, FinishTile);
  }

  /** The whole generator: what the level's constructor computes into its matrix. */
  method Generate(draw: (int, int) -> real) returns (m: seq<seq<int>>)
    ensures GeneratedFrom(m, draw)
    ensures WellFormedArena(m)
  {
    var base := WalledArena();
    var scattered := ScatterHazards(base, draw);
    m := PlaceFinishAndClear(scattered);
    GeneratedWellFormed(m, draw);
  }

  // ---- The item list ----

  /** Row-major order of tiles: by row, then by column. */
  predicate RowMajorBefore(a: Tile, b: Tile)
  {
    a.1 < b.1 || (a.1 == b.1 && a.0 < b.0)
  }

  predicate RowMajor(s: seq<Tile>)
  {
    forall i, j :: 0 <= i < j < |s| ==> RowMajorBefore(s[i], s[j])
  }

  predicate NoDup(s: seq<Tile>)
  {
    forall i, j :: 0 <= i < j < |s| ==> s[i] != s[j]
  }

  /** The lemon tiles of row `y` from column `x` on, left to right. */
  function RowItems(row: seq<int>, y: int, x: nat): (r: seq<Tile>)
    decreases |row| - x
    ensures forall t :: t in r <==> t.1 == y && x <= t.0 < |row| && row[t.0] == Lemon
    ensures RowMajor(r)
  {
    if x >= |row| then []
    else if row[x] == Lemon then [(x, y)] + RowItems(row, y, x + 1)
    else RowItems(row, y, x + 1)
  }

  /** The lemon tiles of rows `y` onwards, in row-major order. */
  function ItemsFrom(m: seq<seq<int>>, y: nat): (r: seq<Tile>)
    decreases |m| - y
    ensures forall t :: t in r <==> y <= t.1 < |m| && 0 <= t.0 < |m[t.1]| && m[t.1][t.0] == Lemon
    ensures RowMajor(r)
  {
    if y >= |m| then []
    else
      var here, rest := RowItems(m[y], y, 0), ItemsFrom(m, y + 1);
      assert forall i, j :: 0 <= i < |here| && 0 <= j < |rest| ==> RowMajorBefore(here[i], rest[j]) by {
        forall i, j | 0 <= i < |here| && 0 <= j < |rest|
          ensures RowMajorBefore(here[i], rest[j])
        {
          assert here[i] in here && rest[j] in rest;
        }
      }
      here + rest
  }

  /** `_extract_items`: every lemon tile of the matrix, in row-major order. */
  function ExtractItems(m: seq<seq<int>>): (r: seq<Tile>)
    ensures forall t :: t in r <==> 0 <= t.1 < |m| && 0 <= t.0 < |m[t.1]| && m[t.1][t.0] == Lemon
    ensures RowMajor(r) && NoDup(r)
  {
    ItemsFrom(m, 0)
  }

  /** A lemon's pickup box: its tile shrunk by the pad on every side. */
  function ItemBox(t: Tile): (b: Rect)
    ensures b.w == b.h == TileSize - 2 * LemonPadCollision > 0
    ensures var tb := TileBox(t.0, t.1);
      tb.x < b.x && b.x + b.w < tb.x + tb.w && tb.y < b.y && b.y + b.h < tb.y + tb.h
  {
    Rect(t.0 * TileSize + LemonPadCollision, t.1 * TileSize + LemonPadCollision,
         TileSize - 2 * LemonPadCollision, TileSize - 2 * LemonPadCollision)
  }

  predicate HitsItem(t: Tile, r: Rect)
  {
    Colliderect(r, ItemBox(t))
  }

  /** Index of the first item whose pickup box `r` overlaps, or `|items|` when none does. */
  function FirstHit(items: seq<Tile>, r: Rect): (k: nat)
    ensures k <= |items|
    ensures forall j :: 0 <= j < k ==> !HitsItem(items[j], r)
    ensures k < |items| ==> HitsItem(items[k], r)
  {
    if items == [] then 0
    else if HitsItem(items[0], r) then 0
    else 1 + FirstHit(items[1..], r)
  }

  /** `list.remove(v)`: drop the first element equal to `v`. */
  function RemoveFirst(s: seq<Tile>, v: Tile): (r: seq<Tile>)
    requires v in s
    ensures |r| == |s| - 1
  {
    assert s == [s[0]] + s[1..];
    if s[0] == v then s[1..] else [s[0]] + RemoveFirst(s[1..], v)
  }

  /** The list with position `k` dropped and the rest kept in order. */
  function Without(s: seq<Tile>, k: nat): seq<Tile>
    requires k < |s|
  {
    s[..k] + s[k + 1..]
  }

  /** Removing the first occurrence of `s[k]`, when no earlier element equals it, drops exactly position `k`. */
  lemma {:induction false} RemoveFirstAt(s: seq<Tile>, k: nat)
    requires k < |s|
    requires forall j :: 0 <= j < k ==> s[j] != s[k]
    ensures RemoveFirst(s, s[k]) == Without(s, k)
  {
    if k > 0 {
      var t := s[1..];
      assert t[k - 1] == s[k];
      assert forall j :: 0 <= j < k - 1 ==> t[j] != t[k - 1] by {
        forall j | 0 <= j < k - 1
          ensures t[j] != t[k - 1]
        {
          assert t[j] == s[j + 1];
        }
      }
      RemoveFirstAt(t, k - 1);
      assert s[0] != s[k];
      assert t[..k - 1] == s[1..k];
      assert t[k..] == s[k + 1..];
      assert s[..k] == [s[0]] + s[1..k];
    }
  }

  /**
    * On a list without duplicates, the dropped item is gone and no duplicate
    * appears, so the same item cannot be picked up twice.
    */
  lemma WithoutRemoves(s: seq<Tile>, k: nat)
    requires k < |s| && NoDup(s)
    ensures s[k] !in Without(s, k)
    ensures NoDup(Without(s, k))
    ensures forall t :: t in Without(s, k) ==> t in s
  {
    var w := Without(s, k);
    forall i | 0 <= i < |w|
      ensures w[i] != s[k] && w[i] in s
    {
      if i < k {
        assert w[i] == s[i];
      } else {
        assert w[i] == s[i + 1];
      }
    }
    forall i, j | 0 <= i < j < |w|
      ensures w[i] != w[j]
    {
      var i' := if i < k then i else i + 1;
      var j' := if j < k then j else j + 1;
      assert w[i] == s[i'] && w[j] == s[j'];
    }
  }

  // ---- Queries ----

  /** Scans the matrix row by row for a tile of `kind` whose box overlaps `r`. */
  method ScanForOverlap(m: seq<seq<int>>, r: Rect, kind: int) returns (found: bool)
    ensures found == TileOverlap(m, r, kind)
  {
    for y := 0 to |m|
      invariant forall yy, xx :: 0 <= yy < y && 0 <= xx < |m[yy]| ==>
        !(m[yy][xx] == kind && Colliderect(r, TileBox(xx, yy)))
    {
      for x := 0 to |m[y]|
        invariant forall yy, xx :: 0 <= yy < |m| && 0 <= xx < |m[yy]| && Before(xx, yy, x, y) ==>
          !(m[yy][xx] == kind && Colliderect(r, TileBox(xx, yy)))
      {
        if m[y][x] == kind && Colliderect(r, TileBox(x, y)) {
          return true;
        }
      }
    }
    return false;
  }

  /** The tile whose box holds the centre of `r`; no other tile's box does. */
  function CentreTile(r: Rect): (t: Tile)
    ensures Contains(TileBox(t.0, t.1), CenterX(r), CenterY(r))
    ensures forall tx, ty :: Contains(TileBox(tx, ty), CenterX(r), CenterY(r)) ==> tx == t.0 && ty == t.1
  {
    (PixelToTile(CenterX(r)), PixelToTile(CenterY(r)))
  }

  /** A box whose centre is over a lava tile also overlaps that tile's box. */
  lemma OnRedOverlapsLava(level: Level, r: Rect)
    requires WellFormedArena(level.mapData) && r.w > 0 && r.h > 0
    requires level.IsOnRed(r)
    ensures TileOverlap(level.mapData, r, Lava)
  {
    var tx, ty :| 0 <= ty < Rows && 0 <= tx < Cols &&
      Contains(TileBox(tx, ty), CenterX(r), CenterY(r)) && level.mapData[ty][tx] == Lava;
    CollidesWhereCenterLies(r, TileBox(tx, ty));
  }

  class Level {
    const mapData: seq<seq<int>>
    const startX: int
    const startY: int
    const initialItems: seq<Tile>
    var items: seq<Tile>

    /** The level's invariant: the matrix is a generated arena and `items` is a sub-list of its lemons. */
    ghost predicate Valid()
      reads this
    {
      && WellFormedArena(mapData)
      && initialItems == ExtractItems(mapData)
      && NoDup(items)
      && (forall t :: t in items ==> t in initialItems)
    }

    /** Builds the level from the draws; the item list starts as every lemon of the matrix. */
    constructor (draw: (int, int) -> real)
      ensures GeneratedFrom(mapData, draw)
      ensures startX == TileSize * StartTile.0 && startY == TileSize * StartTile.1
      ensures initialItems == ExtractItems(mapData) && items == initialItems
      ensures Valid()
    {
      var m := Generate(draw);
      mapData := m;
      startX := TileSize * StartTile.0;
      startY := TileSize * StartTile.1;
      initialItems := ExtractItems(m);
      items := ExtractItems(m);
    }

    /** `collides_with_wall`: some wall tile's box overlaps `r`. */
    method CollidesWithWall(r: Rect) returns (b: bool)
      ensures b == WallOverlap(mapData, r)
    {
      b := ScanForOverlap(mapData, r, Wall);
    }

    /** `touches_exit`: some finish tile's box overlaps `r`. */
    method TouchesExit(r: Rect) returns (b: bool)
      ensures b == TileOverlap(mapData, r, Finish)
    {
      b := ScanForOverlap(mapData, r, Finish);
    }

    /** `reset_run_state`: every lemon comes back, whatever was picked up before. */
    method ResetRunState()
      requires Valid()
      modifies this`items
      ensures items == initialItems
      ensures Valid()
    {
      items := initialItems;
    }

    /**
      * `check_pickup`: finds the first item whose inset box overlaps `r`; if there
      * is one, removes it and reports true, otherwise leaves the list alone.
      */
    method CheckPickup(r: Rect) returns (picked: bool)
      requires Valid()
      modifies this`items
      ensures Valid()
      ensures picked <==> exists j :: 0 <= j < |old(items)| && HitsItem(old(items)[j], r)
      ensures picked ==> items == Without(old(items), FirstHit(old(items), r))
      ensures !picked ==> items == old(items)
    {
      var hit: Option<Tile> := None;
      ghost var k := 0;
      for i := 0 to |items|
        invariant hit.None?
        invariant forall j :: 0 <= j < i ==> !HitsItem(items[j], r)
      {
        if Colliderect(r, ItemBox(items[i])) {
          hit := Some(items[i]);
          k := i;
          break;
        }
      }
      if hit.Some? {
        assert FirstHit(items, r) == k;
        RemoveFirstAt(items, k);
        WithoutRemoves(items, k);
        items := RemoveFirst(items, hit.value);
        return true;
      }
      return false;
    }

    /**
      * `tile_at_pixel_center`: the code of the tile whose box holds the centre of
      * `r`, or a wall when that tile is outside the matrix.
      */
    function TileAtPixelCenter(r: Rect): (v: int)
      requires WellFormedArena(mapData)
      ensures forall tx, ty :: Contains(TileBox(tx, ty), CenterX(r), CenterY(r)) ==>
        v == if 0 <= ty < Rows && 0 <= tx < Cols then mapData[ty][tx] else Wall
    {
      var c := CentreTile(r);
      if 0 <= c.1 < Rows && 0 <= c.0 < Cols then mapData[c.1][c.0] else Wall
    }

    /** `is_on_red`: the centre of `r` is over a lava tile of the matrix. */
    function IsOnRed(r: Rect): (b: bool)
      requires WellFormedArena(mapData)
      ensures b <==> exists tx, ty ::
        && 0 <= ty < Rows && 0 <= tx < Cols
        && Contains(TileBox(tx, ty), CenterX(r), CenterY(r))
        && mapData[ty][tx] == Lava
    {
      var c := CentreTile(r);
      assert Contains(TileBox(c.0, c.1), CenterX(r), CenterY(r));
      TileAtPixelCenter(r) == Lava
    }
  }
}
