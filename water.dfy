/** The water flow of game.java: every fifth tick, rows are visited from the
    second-lowest up to the top and each row from left to right; a water
    cell with air directly below swaps with it. Because the rows below are
    done first, a whole column of water standing over a gap drops by one
    cell in a single pass. */
module WaterFlow {
  import opened Elements
  import opened Grids

  // ---------------------------------------------------------------------
  // The pass as the loops perform it

  /** One visit of cell (x, y): water over air moves down one cell. The loops
      keep both cells inside the grid. */
  function FallCell(g: Grid, x: int, y: int): Grid {
    if InBounds(g, x, y + 1) && GetBlock(g, x, y) == WATER && GetBlock(g, x, y + 1) == AIR
    then SetBlock(SetBlock(g, x, y + 1, WATER), x, y, AIR)
    else g
  }

  /** Visiting the cells x, x+1, ..., w-1 of row y. */
  function FallRow(g: Grid, y: int, x: int, w: nat): Grid
    decreases w - x
  {
    if x >= w then g else FallRow(FallCell(g, x, y), y, x + 1, w)
  }

  /** Visiting the rows y, y-1, ..., 0. */
  function FallFrom(g: Grid, y: int, w: nat): Grid
    decreases y + 1
  {
    if y < 0 then g else FallFrom(FallRow(g, y, 0, w), y - 1, w)
  }

  /** One whole pass over a grid `w` cells wide, starting at the row above
      the bottom one. */
  function Pass(g: Grid, w: nat): Grid {
    FallFrom(g, |g| - 2, w)
  }

  // ---------------------------------------------------------------------
  // Reference: where each cell ends up, per column

  /** The water at (x, y) moves down in this pass: it has air below it, or
      water below it that moves down first. */
  predicate Falls(g: Grid, x: int, y: int)
    decreases |g| - y
  {
    0 <= y && y + 1 < |g| && GetBlock(g, x, y) == WATER
    && (GetBlock(g, x, y + 1) == AIR || Falls(g, x, y + 1))
  }

  /** The content of (x, y) after the pass: it receives the water from above
      when that falls, is emptied when its own water falls, and otherwise
      keeps what it held. */
  function Settled(g: Grid, x: int, y: int): int {
    if Falls(g, x, y - 1) then WATER
    else if Falls(g, x, y) then AIR
    else GetBlock(g, x, y)
  }

  /** Cell (x, y) while the pass is under way: the rows below `k` are done,
      and row `k` is done too in the columns left of `x0`. Finished rows hold
      their settled content, except the top one, whose falling water has
      left while nothing has yet arrived from above; unvisited rows hold
      their original content. */
  function Midway(g: Grid, k: int, x0: int, x: int, y: int): int {
    var done := if x < x0 then k - 1 else k;
    if y > done + 1 then Settled(g, x, y)
    else if y == done + 1 then (if Falls(g, x, y) then AIR else GetBlock(g, x, y))
    else GetBlock(g, x, y)
  }

  ghost predicate MatchesMidway(cur: Grid, g: Grid, w: nat, k: int, x0: int) {
    Rectangular(cur, w, |g|)
    && forall x, y :: 0 <= x < w && 0 <= y < |g| ==> GetBlock(cur, x, y) == Midway(g, k, x0, x, y)
  }

  lemma {:induction false} FallRowMatches(g: Grid, w: nat, k: int, cur: Grid, x0: int)
    requires Rectangular(g, w, |g|) && 0 <= k && k + 1 < |g| && 0 <= x0
    requires MatchesMidway(cur, g, w, k, x0)
    ensures MatchesMidway(FallRow(cur, k, x0, w), g, w, k, w)
    decreases w - x0
  {
    if x0 < w {
      var next := FallCell(cur, x0, k);
      forall x, y | 0 <= x < w && 0 <= y < |g|
        ensures GetBlock(next, x, y) == Midway(g, k, x0 + 1, x, y)
      {
        if x == x0 && (y == k || y == k + 1) {
          assert GetBlock(cur, x, k) == GetBlock(g, x, k);
          assert GetBlock(cur, x, k + 1) == if Falls(g, x, k + 1) then AIR else GetBlock(g, x, k + 1);
          assert Falls(g, x, k) <==> GetBlock(cur, x, k) == WATER && GetBlock(cur, x, k + 1) == AIR;
        } else {
          assert GetBlock(next, x, y) == GetBlock(cur, x, y);
        }
      }
      FallRowMatches(g, w, k, next, x0 + 1);
    } else {
      forall x, y | 0 <= x < w && 0 <= y < |g|
        ensures GetBlock(cur, x, y) == Midway(g, k, w, x, y)
      {
        assert Midway(g, k, x0, x, y) == Midway(g, k, w, x, y);
      }
    }
  }

  lemma {:induction false} FallFromMatches(g: Grid, w: nat, k: int, cur: Grid)
    requires Rectangular(g, w, |g|) && -1 <= k && k + 1 < |g|
    requires MatchesMidway(cur, g, w, k, 0)
    ensures MatchesMidway(FallFrom(cur, k, w), g, w, -1, 0)
    decreases k + 1
  {
    if k >= 0 {
      FallRowMatches(g, w, k, cur, 0);
      var next := FallRow(cur, k, 0, w);
      forall x, y | 0 <= x < w && 0 <= y < |g|
        ensures GetBlock(next, x, y) == Midway(g, k - 1, 0, x, y)
      {
        assert Midway(g, k, w, x, y) == Midway(g, k - 1, 0, x, y);
      }
      FallFromMatches(g, w, k - 1, next);
    }
  }

  /** The pass leaves every cell of a rectangular grid as Settled says, and
      keeps the grid's shape. */
  lemma {:induction false} PassSettles(g: Grid, w: nat)
    requires Rectangular(g, w, |g|)
    ensures Rectangular(Pass(g, w), w, |g|)
    ensures forall x, y :: 0 <= x < w && 0 <= y < |g| ==> GetBlock(Pass(g, w), x, y) == Settled(g, x, y)
  {
    if |g| >= 2 {
      forall x, y | 0 <= x < w && 0 <= y < |g|
        ensures GetBlock(g, x, y) == Midway(g, |g| - 2, 0, x, y)
      {
        assert !Falls(g, x, |g| - 1);
      }
      FallFromMatches(g, w, |g| - 2, g);
      forall x, y | 0 <= x < w && 0 <= y < |g|
        ensures Midway(g, -1, 0, x, y) == Settled(g, x, y)
      {
        assert !Falls(g, x, -1);
      }
    } else {
      forall x, y | 0 <= x < w && 0 <= y < |g|
        ensures GetBlock(g, x, y) == Settled(g, x, y)
      {
        assert !Falls(g, x, y) && !Falls(g, x, y - 1);
      }
    }
  }

  // ---------------------------------------------------------------------
  // Consequences

  /** Water with air directly below ends the pass one cell lower; only water
      and air cells change; and every water cell afterwards held water, or
      had water directly above it, before. */
  lemma {:induction false} WaterDropsOneCell(g: Grid, w: nat, x: int, y: int)
    requires Rectangular(g, w, |g|) && 0 <= x < w && 0 <= y < |g|
    ensures y + 1 < |g| && GetBlock(g, x, y) == WATER && GetBlock(g, x, y + 1) == AIR
            ==> GetBlock(Pass(g, w), x, y + 1) == WATER
    ensures GetBlock(g, x, y) != WATER && GetBlock(g, x, y) != AIR
            ==> GetBlock(Pass(g, w), x, y) == GetBlock(g, x, y)
    ensures GetBlock(Pass(g, w), x, y) == WATER
            ==> GetBlock(g, x, y) == WATER || GetBlock(g, x, y - 1) == WATER
  {
    PassSettles(g, w);
    if y + 1 < |g| && GetBlock(g, x, y) == WATER && GetBlock(g, x, y + 1) == AIR {
      assert Falls(g, x, y);
      assert GetBlock(Pass(g, w), x, y + 1) == Settled(g, x, y + 1);
    }
    assert GetBlock(Pass(g, w), x, y) == Settled(g, x, y);
    if Falls(g, x, y - 1) {
      assert GetBlock(g, x, y) == AIR || Falls(g, x, y);
    }
  }

  /** The pass writes only water and air, so every other block stays where
      it is, and keeps the grid's shape. */
  lemma PassOnlyMovesWater(g: Grid, w: nat, x: int, y: int)
    requires Rectangular(g, w, |g|) && 0 <= x < w && 0 <= y < |g|
    ensures SameShape(g, Pass(g, w))
    ensures GetBlock(Pass(g, w), x, y) == GetBlock(g, x, y)
            || GetBlock(Pass(g, w), x, y) == WATER || GetBlock(Pass(g, w), x, y) == AIR
  {
    PassSettles(g, w);
  }

  /** A column resting on a floor, with no air under any of its water, does
      not move. */
  lemma {:induction false} RestingWaterStays(g: Grid, w: nat)
    requires Rectangular(g, w, |g|)
    requires forall x, y :: 0 <= x < w && 0 <= y && y + 1 < |g| && GetBlock(g, x, y) == WATER
                            ==> GetBlock(g, x, y + 1) != AIR
    ensures Pass(g, w) == g
  {
    PassSettles(g, w);
    forall x, y | 0 <= x < w && 0 <= y < |g|
      ensures !Falls(g, x, y)
    {
      NoFallOnFloor(g, w, x, y);
    }
    forall y | 0 <= y < |g|
      ensures Pass(g, w)[y] == g[y]
    {
      forall x | 0 <= x < w
        ensures Pass(g, w)[y][x] == g[y][x]
      {
        NoFallOnFloor(g, w, x, y - 1);
        assert GetBlock(Pass(g, w), x, y) == Settled(g, x, y);
      }
    }
  }

  lemma {:induction false} NoFallOnFloor(g: Grid, w: nat, x: int, y: int)
    requires Rectangular(g, w, |g|) && 0 <= x < w
    requires forall x, y :: 0 <= x < w && 0 <= y && y + 1 < |g| && GetBlock(g, x, y) == WATER
                            ==> GetBlock(g, x, y + 1) != AIR
    ensures !Falls(g, x, y)
    decreases |g| - y
  {
    if 0 <= y && y + 1 < |g| && GetBlock(g, x, y) == WATER {
      NoFallOnFloor(g, w, x, y + 1);
    }
  }

  // ---------------------------------------------------------------------
  // Conservation: the pass only rearranges cells

  /** How many cells of the grid hold `id`. */
  function GridCount(g: Grid, id: int): nat {
    if |g| == 0 then 0 else GridCount(g[..|g| - 1], id) + multiset(g[|g| - 1])[id]
  }

  lemma {:induction false} GridCountUpdate(g: Grid, y: int, row: seq<int>, id: int)
    requires 0 <= y < |g|
    ensures GridCount(g[y := row], id) + multiset(g[y])[id] == GridCount(g, id) + multiset(row)[id]
    decreases |g|
  {
    var n := |g| - 1;
    if y == n {
      assert g[y := row][..n] == g[..n];
    } else {
      assert g[y := row][..n] == g[..n][y := row];
      GridCountUpdate(g[..n], y, row, id);
    }
  }

  lemma {:induction false} FallCellKeepsCounts(g: Grid, x: int, y: int, id: int)
    ensures GridCount(FallCell(g, x, y), id) == GridCount(g, id)
  {
    if InBounds(g, x, y + 1) && GetBlock(g, x, y) == WATER && GetBlock(g, x, y + 1) == AIR {
      var g1 := SetBlock(g, x, y + 1, WATER);
      GridCountUpdate(g, y + 1, g[y + 1][x := WATER], id);
      assert multiset(g[y + 1][x := WATER]) == multiset(g[y + 1]) - multiset{AIR} + multiset{WATER};
      GridCountUpdate(g1, y, g1[y][x := AIR], id);
      assert multiset(g1[y][x := AIR]) == multiset(g1[y]) - multiset{WATER} + multiset{AIR};
    }
  }

  lemma {:induction false} FallRowKeepsCounts(g: Grid, y: int, x: int, w: nat, id: int)
    ensures GridCount(FallRow(g, y, x, w), id) == GridCount(g, id)
    decreases w - x
  {
    if x < w {
      FallCellKeepsCounts(g, x, y, id);
      FallRowKeepsCounts(FallCell(g, x, y), y, x + 1, w, id);
    }
  }

  lemma {:induction false} FallFromKeepsCounts(g: Grid, y: int, w: nat, id: int)
    ensures GridCount(FallFrom(g, y, w), id) == GridCount(g, id)
    decreases y + 1
  {
    if y >= 0 {
      FallRowKeepsCounts(g, y, 0, w, id);
      FallFromKeepsCounts(FallRow(g, y, 0, w), y - 1, w, id);
    }
  }

  /** The pass neither creates nor destroys water, air or anything else. */
  lemma PassKeepsCounts(g: Grid, w: nat, id: int)
    ensures GridCount(Pass(g, w), id) == GridCount(g, id)
  {
    FallFromKeepsCounts(g, |g| - 2, w, id);
  }

  /** The pass keeps every hard cell's durability in range: it writes only
      water and air. */
  lemma PassKeepsDurable(g: Grid, w: nat, health: Grid)
    requires Rectangular(g, w, |g|) && Durable(g, health)
    ensures SameShape(g, Pass(g, w)) && Durable(Pass(g, w), health)
  {
    PassSettles(g, w);
    forall x, y | InBounds(g, x, y)
      ensures GetBlock(Pass(g, w), x, y) == GetBlock(g, x, y) || !Hard(GetBlock(Pass(g, w), x, y))
    {
      PassOnlyMovesWater(g, w, x, y);
    }
    ClearingKeepsDurable(g, Pass(g, w), health);
  }

  /** The nested loops of the water step on a grid `w` cells wide: rows
      from the second-lowest up, cells left to right, water over air
      swapping with it. */
  method WaterPass(g: Grid, w: nat) returns (r: Grid)
    requires Rectangular(g, w, |g|)
    ensures r == Pass(g, w)
  {
    r := g;
    var y := |g| - 2;
    while y >= 0
      invariant y <= |g| - 2 && (-1 <= y || y == |g| - 2)
      invariant Rectangular(r, w, |g|)
      invariant FallFrom(r, y, w) == Pass(g, w)
    {
      var x := 0;
      while x < w
        invariant 0 <= x <= w
        invariant Rectangular(r, w, |g|)
        invariant FallFrom(FallRow(r, y, x, w), y - 1, w) == Pass(g, w)
      {
        if r[y][x] == WATER && r[y + 1][x] == AIR {
          r := SetBlock(SetBlock(r, x, y + 1, WATER), x, y, AIR);
        }
        x := x + 1;
      }
      y := y - 1;
    }
  }
}
