/** Tile collision (checkEntityCollision), the rectangle overlap test
    (checkRectOverlap) and the mob's wall probe (isBlocked), on integer
    pixel positions. */
module Collision {
  import opened Elements
  import opened Grids

  /** The part of a player or mob the collision code reads and writes. */
  datatype Body = Body(x: int, y: int, width: int, height: int,
                       vx: int, vy: int, grounded: bool)

  datatype Axis = Horizontal | Vertical

  /** The tile column or row holding pixel coordinate p (floor division). */
  function TileOf(p: int): int { p / TILE_SIZE }

  /** The tile range a body covers. The source subtracts 0.01 from the far
      edge; on integer pixels that is the last pixel, `x + width - 1`. */
  function Left(b: Body): int { TileOf(b.x) }
  function Right(b: Body): int { TileOf(b.x + b.width - 1) }
  function Top(b: Body): int { TileOf(b.y) }
  function Bottom(b: Body): int { TileOf(b.y + b.height - 1) }

  predicate InSpan(b: Body, tx: int, ty: int) {
    Left(b) <= tx <= Right(b) && Top(b) <= ty <= Bottom(b)
  }

  /** The tile a body covers holds its pixel. */
  lemma SpanHoldsPixels(b: Body, px: int, py: int)
    requires b.x <= px < b.x + b.width && b.y <= py < b.y + b.height
    ensures InSpan(b, TileOf(px), TileOf(py))
  {
  }

  /** Tiles a body runs into: not AIR, registered, not fluid, not the goal,
      not a spike and not translucent. */
  predicate Blocking(id: int) {
    id != AIR && Def(id).Some? && !Fluid(id) && id != GOAL && id != SPIKE && !Alpha(id)
  }

  /** The solid tiles, by name: every registered id except air, the fluids,
      the translucent blocks, spikes and the goal (items included, since they
      have entries with no flags). */
  lemma BlockingTiles(id: int)
    ensures Blocking(id) <==> id in {DIRT, GRASS, STONE, WOOD, BRICK, SAND, SNOW, COAL_ORE,
                                     GOLD_ORE, DIAMOND_ORE, TNT, PLANK, ICE, BOUNCE,
                                     SWORD, WAND, AXE, SPEAR}
  {
  }

  /** The reaction to a spike: a player touching one is bounced up. */
  function Spiked(b: Body, spiked: bool): Body {
    if spiked then b.(vy := -10) else b
  }

  /** Snapping against the blocking tile (tx, ty) along one axis: the moving
      edge is put flush with the tile's facing edge and that velocity is
      cleared; landing on a tile from above also grounds the body. */
  function Snap(b: Body, axis: Axis, tx: int, ty: int): (r: Body)
    ensures r.width == b.width && r.height == b.height
    ensures axis == Horizontal ==> r == b.(x := r.x, vx := 0)
    ensures axis == Horizontal && b.vx > 0 ==> r.x + r.width == tx * TILE_SIZE
    ensures axis == Horizontal && b.vx < 0 ==> r.x == (tx + 1) * TILE_SIZE
    ensures axis == Horizontal && b.vx == 0 ==> r.x == b.x
    ensures axis == Vertical && b.vy > 0 ==> r == b.(y := r.y, vy := 0, grounded := true)
    ensures axis == Vertical && b.vy > 0 ==> r.y + r.height == ty * TILE_SIZE
    ensures axis == Vertical && b.vy < 0 ==> r == b.(y := (ty + 1) * TILE_SIZE, vy := 0)
    ensures axis == Vertical && b.vy == 0 ==> r == b
  {
    match axis
    case Horizontal =>
      if b.vx > 0 then b.(x := tx * TILE_SIZE - b.width, vx := 0)
      else if b.vx < 0 then b.(x := (tx + 1) * TILE_SIZE, vx := 0)
      else b.(vx := 0)
    case Vertical =>
      if b.vy > 0 then b.(y := ty * TILE_SIZE - b.height, vy := 0, grounded := true)
      else if b.vy < 0 then b.(y := (ty + 1) * TILE_SIZE, vy := 0)
      else b
  }

  /** After a snap along the direction of motion the body no longer covers
      the tile it hit: it ends just before it (moving right or down) or just
      after it (moving left or up). */
  lemma SnapLeavesTheTile(b: Body, axis: Axis, tx: int, ty: int)
    ensures axis == Horizontal && b.vx > 0 ==> Right(Snap(b, axis, tx, ty)) == tx - 1
    ensures axis == Horizontal && b.vx < 0 ==> Left(Snap(b, axis, tx, ty)) == tx + 1
    ensures axis == Vertical && b.vy > 0 ==> Bottom(Snap(b, axis, tx, ty)) == ty - 1
    ensures axis == Vertical && b.vy < 0 ==> Top(Snap(b, axis, tx, ty)) == ty + 1
  {
  }

  /** Row-major scan order: rows top to bottom, each row left to right. */
  predicate Before(tx: int, ty: int, ux: int, uy: int) {
    ty < uy || (ty == uy && tx < ux)
  }

  /** The tiles the scan visits when it stops at `hit` (all of the span when
      it finds no blocking tile). */
  predicate Scanned(b: Body, hit: Option<(int, int)>, tx: int, ty: int) {
    InSpan(b, tx, ty) && (hit.None? || Before(tx, ty, hit.value.0, hit.value.1))
  }

  /** checkEntityCollision for one axis. The tiles under the body are scanned
      in row-major order; the first blocking tile is `hit` and the body is
      snapped against it; `spiked` tells whether the (player's) scan met a
      spike before stopping, which bounces the body and obliges the caller to
      apply the spike damage. Mobs are never spiked. */
  ghost predicate Resolved(world: Grid, b: Body, axis: Axis, isPlayer: bool,
                     r: Body, hit: Option<(int, int)>, spiked: bool) {
    // no blocking tile before the hit (or anywhere, without one)
    (forall tx, ty :: Scanned(b, hit, tx, ty) ==> !Blocking(GetBlock(world, tx, ty)))
    // the hit is a blocking tile under the body
    && (hit.Some? ==> InSpan(b, hit.value.0, hit.value.1)
                      && Blocking(GetBlock(world, hit.value.0, hit.value.1)))
    // the player's scan met a spike exactly when one lies before the hit
    && (spiked <==> isPlayer && exists tx, ty :: Scanned(b, hit, tx, ty)
                                                 && GetBlock(world, tx, ty) == SPIKE)
    // the spike bounce, then the snap against the hit tile
    && r == if hit.None? then Spiked(b, spiked)
            else Snap(Spiked(b, spiked), axis, hit.value.0, hit.value.1)
  }

  method Resolve(world: Grid, b: Body, axis: Axis, isPlayer: bool)
    returns (r: Body, hit: Option<(int, int)>, spiked: bool)
    ensures Resolved(world, b, axis, isPlayer, r, hit, spiked)
  {
    var left, right, top, bottom := Left(b), Right(b), Top(b), Bottom(b);
    r, hit, spiked := b, None, false;
    var y := top;
    while y <= bottom
      invariant top <= y && (y <= bottom + 1 || y == top)
      invariant forall tx, ty :: InSpan(b, tx, ty) && ty < y ==> !Blocking(GetBlock(world, tx, ty))
      invariant spiked <==> isPlayer && exists tx, ty :: InSpan(b, tx, ty) && ty < y
                                                        && GetBlock(world, tx, ty) == SPIKE
      invariant r == Spiked(b, spiked)
    {
      var x := left;
      while x <= right
        invariant left <= x && (x <= right + 1 || x == left)
        invariant forall tx, ty :: InSpan(b, tx, ty) && Before(tx, ty, x, y)
                                   ==> !Blocking(GetBlock(world, tx, ty))
        invariant spiked <==> isPlayer && exists tx, ty :: InSpan(b, tx, ty) && Before(tx, ty, x, y)
                                                          && GetBlock(world, tx, ty) == SPIKE
        invariant r == Spiked(b, spiked)
      {
        var id := GetBlock(world, x, y);
        if Blocking(id) {
          hit := Some((x, y));
          r := Snap(r, axis, x, y);
          return;
        }
        if id == SPIKE && isPlayer {
          spiked := true;
          r := r.(vy := -10);
        }
        x := x + 1;
      }
      y := y + 1;
    }
  }

  /** checkRectOverlap: strict overlap of two boxes. */
  predicate Overlap(x1: int, y1: int, w1: int, h1: int, x2: int, y2: int, w2: int, h2: int) {
    x1 < x2 + w2 && x1 + w1 > x2 && y1 < y2 + h2 && y1 + h1 > y2
  }

  /** Pixel (px, py) lies inside the box at (x, y) of size w by h. */
  predicate InBox(px: int, py: int, x: int, y: int, w: int, h: int) {
    x <= px < x + w && y <= py < y + h
  }

  /** Two boxes of positive size overlap exactly when some pixel lies inside
      both. */
  lemma {:induction false} OverlapMeansSharedPixel(x1: int, y1: int, w1: int, h1: int,
                                                  x2: int, y2: int, w2: int, h2: int)
    requires w1 > 0 && h1 > 0 && w2 > 0 && h2 > 0
    ensures Overlap(x1, y1, w1, h1, x2, y2, w2, h2)
            <==> exists px, py :: InBox(px, py, x1, y1, w1, h1) && InBox(px, py, x2, y2, w2, h2)
  {
    if Overlap(x1, y1, w1, h1, x2, y2, w2, h2) {
      var px := if x1 < x2 then x2 else x1;
      var py := if y1 < y2 then y2 else y1;
      assert InBox(px, py, x1, y1, w1, h1) && InBox(px, py, x2, y2, w2, h2);
    }
  }

  /** The guard that refuses to place a block on the player, as the source
      writes it: the player's box in tile units (pixel coordinates divided by
      the tile size) against the unit square of tile (tx, ty). */
  predicate PlacementGuard(tx: int, ty: int, px: int, py: int, pw: int, ph: int) {
    var x, y := px as real / TILE_SIZE as real, py as real / TILE_SIZE as real;
    var w, h := pw as real / TILE_SIZE as real, ph as real / TILE_SIZE as real;
    !(tx as real >= x + w || tx as real + 1.0 <= x || ty as real >= y + h || ty as real + 1.0 <= y)
  }

  /** The placement guard is the overlap test between the target tile's box
      and the player's box, in pixels. */
  lemma PlacementGuardIsOverlap(tx: int, ty: int, px: int, py: int, pw: int, ph: int)
    ensures PlacementGuard(tx, ty, px, py, pw, ph)
            <==> Overlap(tx * TILE_SIZE, ty * TILE_SIZE, TILE_SIZE, TILE_SIZE, px, py, pw, ph)
  {
  }

  /** isBlocked: the tile just ahead of a mob's feet (5 pixels past its
      leading edge, 5 pixels above its bottom) is neither air nor fluid. */
  function IsBlocked(world: Grid, b: Body): bool {
    var tx := TileOf(b.x + (if b.vx > 0 then b.width + 5 else -5));
    var ty := TileOf(b.y + b.height - 5);
    var id := GetBlock(world, tx, ty);
    id != AIR && !Fluid(id)
  }

  /** The probe is looser than collision: it reports every blocking tile,
      and also the goal, spikes, leaves, glass and unregistered ids, but
      never air, water or lava; off the grid it reports nothing. */
  lemma {:induction false} ProbeSeesEveryWall(world: Grid, b: Body)
    ensures var tx := TileOf(b.x + (if b.vx > 0 then b.width + 5 else -5));
            var ty := TileOf(b.y + b.height - 5);
            var id := GetBlock(world, tx, ty);
            (Blocking(id) ==> IsBlocked(world, b))
            && (IsBlocked(world, b) <==> id !in {AIR, WATER, LAVA})
            && (!InBounds(world, tx, ty) ==> !IsBlocked(world, b))
  {
    var tx := TileOf(b.x + (if b.vx > 0 then b.width + 5 else -5));
    var ty := TileOf(b.y + b.height - 5);
    FluidsAndTranslucents(GetBlock(world, tx, ty));
  }
}
