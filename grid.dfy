/** The grid store: `world[y][x]` holds block ids and `worldHealth[y][x]`
    durabilities, both as rows of columns. Reads outside the grid return AIR
    and writes outside it are ignored. */
module Grids {
  import opened Elements

  type Grid = seq<seq<int>>

  /** Every row has the same width. */
  ghost predicate Rectangular(g: Grid, width: nat, height: nat) {
    |g| == height && forall y :: 0 <= y < height ==> |g[y]| == width
  }

  /** The world and its durability grid have the same rows and columns. */
  predicate SameShape(g: Grid, h: Grid) {
    |g| == |h| && forall y :: 0 <= y < |g| ==> |g[y]| == |h[y]|
  }

  predicate InBounds(g: Grid, x: int, y: int) {
    0 <= y < |g| && 0 <= x < |g[y]|
  }

  /** getBlock: `world[y][x]` inside the grid, AIR outside it. */
  function GetBlock(g: Grid, x: int, y: int): int {
    if InBounds(g, x, y) then g[y][x] else AIR
  }

  /** setBlock: the one cell (x, y) takes `id`; outside the grid nothing
      changes. Also used for the direct `worldHealth[y][x] = v` writes. */
  function SetBlock(g: Grid, x: int, y: int, id: int): (r: Grid)
    ensures |r| == |g| && forall i :: 0 <= i < |g| ==> |r[i]| == |g[i]|
    ensures forall a, b :: InBounds(r, a, b) <==> InBounds(g, a, b)
    ensures forall a, b :: GetBlock(r, a, b)
                          == if a == x && b == y && InBounds(g, x, y) then id else GetBlock(g, a, b)
    ensures !InBounds(g, x, y) ==> r == g
  {
    if InBounds(g, x, y) then g[y := g[y][x := id]] else g
  }

  /** Reading back a write: the cell holds the new id inside the grid, AIR
      outside it, and every other cell reads as before. */
  lemma ReadAfterWrite(g: Grid, x: int, y: int, id: int, a: int, b: int)
    ensures GetBlock(SetBlock(g, x, y, id), x, y) == if InBounds(g, x, y) then id else AIR
    ensures (a, b) != (x, y) ==> GetBlock(SetBlock(g, x, y, id), a, b) == GetBlock(g, a, b)
  {
  }

  /** Two grids of the same shape that read alike everywhere are equal. */
  lemma SameGrid(g: Grid, h: Grid)
    requires SameShape(g, h)
    requires forall x, y :: InBounds(g, x, y) ==> GetBlock(g, x, y) == GetBlock(h, x, y)
    ensures g == h
  {
    forall y | 0 <= y < |g| ensures g[y] == h[y] {
      forall x | 0 <= x < |g[y]| ensures g[y][x] == h[y][x] {
        assert GetBlock(g, x, y) == GetBlock(h, x, y);
      }
    }
  }

  /** A grid of the world's shape keeps the world's width and height and
      the shape of its durability grid. */
  lemma Reshaped(world: Grid, next: Grid, health: Grid, width: nat, height: nat)
    requires Rectangular(world, width, height) && SameShape(world, health) && SameShape(world, next)
    ensures Rectangular(next, width, height) && SameShape(next, health)
  {
  }

  /** Every hard cell has durability between 1 and its block's maximum. */
  ghost predicate Durable(world: Grid, health: Grid) {
    forall x, y :: InBounds(world, x, y) && Hard(GetBlock(world, x, y))
      ==> 1 <= GetBlock(health, x, y) <= Props(GetBlock(world, x, y)).maxHp
  }

  /** Changes that only turn cells into blocks that are not hard (air, water)
      keep every hard cell's durability in range. */
  lemma ClearingKeepsDurable(world: Grid, next: Grid, health: Grid)
    requires Durable(world, health) && SameShape(world, next)
    requires forall x, y :: InBounds(world, x, y)
                            ==> GetBlock(next, x, y) == GetBlock(world, x, y) || !Hard(GetBlock(next, x, y))
    ensures Durable(next, health)
  {
    forall x, y | InBounds(next, x, y) && Hard(GetBlock(next, x, y))
      ensures 1 <= GetBlock(health, x, y) <= Props(GetBlock(next, x, y)).maxHp
    {
      assert InBounds(world, x, y);
    }
  }
}
