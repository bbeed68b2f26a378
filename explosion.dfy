/** explode: the terrain carve, and which mobs and whether the player are
    caught by the blast. How much damage a caught mob or player takes
    depends on a square root of the distance and is a parameter here (a
    `Harm`, never negative, as the source clamps the damage factor at 0).
    Caught mobs are thrown upward; the player's push away from the centre
    is not modelled. */
module Explosion {
  import opened Elements
  import opened Grids
  import opened Rules
  import opened Mobs
  import opened Players
  import opened Timers

  // ---------------------------------------------------------------------
  // Terrain

  /** The cells the nested loops visit and clear: within `reach` of the
      centre on both axes and within the disc of squared radius `limit`. */
  predicate InDisc(blast: Blast, dx: int, dy: int) {
    var r: int := blast.reach;
    -r <= dx <= r && -r <= dy <= r && dx * dx + dy * dy <= blast.limit
  }

  /** Cell (x, y) after a blast at (cx, cy) whose centre is not the goal:
      the centre is cleared whatever it holds, and any other cell of the disc
      unless it is brick or the goal. */
  function CarvedCell(g: Grid, cx: int, cy: int, blast: Blast, x: int, y: int): int {
    var b := GetBlock(g, x, y);
    if x == cx && y == cy then AIR
    else if InDisc(blast, x - cx, y - cy) && b != BRICK && b != GOAL then AIR
    else b
  }

  /** The terrain after explode(cx, cy): nothing at all happens when the
      centre holds the goal. */
  function Carve(g: Grid, cx: int, cy: int, blast: Blast): (r: Grid)
    ensures |r| == |g| && forall y :: 0 <= y < |g| ==> |r[y]| == |g[y]|
  {
    if GetBlock(g, cx, cy) == GOAL then g
    else seq(|g|, y requires 0 <= y < |g| =>
               seq(|g[y]|, x requires 0 <= x < |g[y]| => CarvedCell(g, cx, cy, blast, x, y)))
  }

  lemma CarveReads(g: Grid, cx: int, cy: int, blast: Blast, x: int, y: int)
    ensures GetBlock(Carve(g, cx, cy, blast), x, y)
            == if GetBlock(g, cx, cy) == GOAL || !InBounds(g, x, y) then GetBlock(g, x, y)
               else CarvedCell(g, cx, cy, blast, x, y)
  {
  }

  /** What a blast does to one cell: nothing when the centre is the goal;
      outside the disc nothing; brick and the goal survive except as the
      centre; the centre is cleared; other cells of the disc are cleared; and
      a changed cell is always AIR. */
  lemma {:induction false} CarveEffects(g: Grid, cx: int, cy: int, blast: Blast, x: int, y: int)
    ensures GetBlock(g, cx, cy) == GOAL ==> Carve(g, cx, cy, blast) == g
    ensures !InDisc(blast, x - cx, y - cy) ==> GetBlock(Carve(g, cx, cy, blast), x, y) == GetBlock(g, x, y)
    ensures (x != cx || y != cy) && (GetBlock(g, x, y) == BRICK || GetBlock(g, x, y) == GOAL)
            ==> GetBlock(Carve(g, cx, cy, blast), x, y) == GetBlock(g, x, y)
    ensures InBounds(g, cx, cy) && GetBlock(g, cx, cy) != GOAL
            ==> GetBlock(Carve(g, cx, cy, blast), cx, cy) == AIR
    ensures GetBlock(g, cx, cy) != GOAL && InDisc(blast, x - cx, y - cy)
            && GetBlock(g, x, y) != BRICK && GetBlock(g, x, y) != GOAL
            ==> GetBlock(Carve(g, cx, cy, blast), x, y) == AIR
    ensures GetBlock(Carve(g, cx, cy, blast), x, y) in {GetBlock(g, x, y), AIR}
    ensures GetBlock(Carve(g, cx, cy, blast), x, y) == GOAL <==> GetBlock(g, x, y) == GOAL
  {
    CarveReads(g, cx, cy, blast, x, y);
    CarveReads(g, cx, cy, blast, cx, cy);
    assert InDisc(blast, 0, 0);
  }

  /** A second blast at the same place changes nothing more. */
  lemma {:induction false} CarveIsIdempotent(g: Grid, cx: int, cy: int, blast: Blast)
    ensures Carve(Carve(g, cx, cy, blast), cx, cy, blast) == Carve(g, cx, cy, blast)
  {
    var once := Carve(g, cx, cy, blast);
    CarveEffects(g, cx, cy, blast, cx, cy);
    forall x, y | InBounds(once, x, y)
      ensures GetBlock(Carve(once, cx, cy, blast), x, y) == GetBlock(once, x, y)
    {
      CarveReads(once, cx, cy, blast, x, y);
      CarveReads(g, cx, cy, blast, x, y);
    }
    SameGrid(Carve(once, cx, cy, blast), once);
  }

  /** Two blasts leave the same terrain in either order, so the order in
      which expired fuses are processed does not matter to the world. */
  lemma {:induction false} CarveCommutes(g: Grid, c1x: int, c1y: int, c2x: int, c2y: int, blast: Blast)
    ensures Carve(Carve(g, c1x, c1y, blast), c2x, c2y, blast)
            == Carve(Carve(g, c2x, c2y, blast), c1x, c1y, blast)
  {
    var g1, g2 := Carve(g, c1x, c1y, blast), Carve(g, c2x, c2y, blast);
    var a, b := Carve(g1, c2x, c2y, blast), Carve(g2, c1x, c1y, blast);
    CarveEffects(g, c1x, c1y, blast, c2x, c2y);
    CarveEffects(g, c2x, c2y, blast, c1x, c1y);
    forall x, y | InBounds(a, x, y)
      ensures GetBlock(a, x, y) == GetBlock(b, x, y)
    {
      CarveReads(g, c1x, c1y, blast, x, y);
      CarveReads(g, c2x, c2y, blast, x, y);
      CarveReads(g1, c2x, c2y, blast, x, y);
      CarveReads(g2, c1x, c1y, blast, x, y);
    }
    SameGrid(a, b);
  }

  /** A blast leaves every hard cell's durability in range: it only clears
      cells. */
  lemma CarveKeepsDurable(g: Grid, health: Grid, cx: int, cy: int, blast: Blast)
    requires Durable(g, health)
    ensures Durable(Carve(g, cx, cy, blast), health)
  {
    forall x, y | InBounds(g, x, y)
      ensures GetBlock(Carve(g, cx, cy, blast), x, y) == GetBlock(g, x, y)
              || !Hard(GetBlock(Carve(g, cx, cy, blast), x, y))
    {
      CarveEffects(g, cx, cy, blast, x, y);
    }
    ClearingKeepsDurable(g, Carve(g, cx, cy, blast), health);
  }

  /** The two radii of a wand bolt give different shapes: radius 1.5 (game.js)
      takes the four diagonal neighbours, radius 1.2 (game.java) only the
      plus sign; a TNT blast (radius 4) reaches four cells straight out but
      not (3, 3). */
  lemma BlastShapes()
    ensures InDisc(JS_BOLT_BLAST, 1, 1) && !InDisc(JS_BOLT_BLAST, 2, 0)
    ensures !InDisc(JAVA_BOLT_BLAST, 1, 1) && InDisc(JAVA_BOLT_BLAST, 1, 0)
    ensures InDisc(TNT_BLAST, 4, 0) && InDisc(TNT_BLAST, 2, 3) && !InDisc(TNT_BLAST, 3, 3)
  {
  }

  // ---------------------------------------------------------------------
  // Mobs and the player

  /** `dist < radius + 1`, where dist is measured in tiles from the centre
      tile to the entity's top-left corner, scaled to pixel offsets. */
  predicate Caught(blast: Blast, dx: int, dy: int) {
    dx * dx + dy * dy < blast.hitPx2
  }

  /** Damage as a function of the pixel offset from the centre tile's
      corner: to mobs, and to the player (never negative). */
  datatype Harm = Harm(mob: (int, int) -> nat, player: (int, int) -> nat)

  /** A caught mob loses the harm, is thrown upward and, in game.js, flashes
      hurt for 10 ticks; other mobs are untouched. */
  function BlastMob(m: Mob, cx: int, cy: int, blast: Blast, harm: Harm, marksHurt: bool): Mob {
    var dx, dy := m.x - cx * TILE_SIZE, m.y - cy * TILE_SIZE;
    if Caught(blast, dx, dy) then
      m.(hp := m.hp - harm.mob(dx, dy), vy := -10, hurtTimer := if marksHurt then 10 else m.hurtTimer)
    else m
  }

  function BlastMobs(ms: seq<Mob>, cx: int, cy: int, blast: Blast, harm: Harm, marksHurt: bool): (r: seq<Mob>)
    ensures |r| == |ms|
  {
    seq(|ms|, i requires 0 <= i < |ms| => BlastMob(ms[i], cx, cy, blast, harm, marksHurt))
  }

  /** What explode reads and writes. */
  datatype Scene = Scene(world: Grid, mobs: seq<Mob>, vitals: Vitals)

  /** explode(cx, cy) with the player's top-left corner at (px, py): the
      goal at the centre stops everything; otherwise the terrain is carved,
      the caught mobs are harmed and, when `hurtPlayer`, a caught player
      takes one takeDamage. */
  function Blow(s: Scene, cx: int, cy: int, blast: Blast, harm: Harm, hurtPlayer: bool,
                px: int, py: int, rules: RuleSet): Scene
  {
    if GetBlock(s.world, cx, cy) == GOAL then s
    else
      var dx, dy := px - cx * TILE_SIZE, py - cy * TILE_SIZE;
      Scene(Carve(s.world, cx, cy, blast),
            BlastMobs(s.mobs, cx, cy, blast, harm, rules.blastMarksHurt),
            if hurtPlayer && Caught(blast, dx, dy)
            then Hurt(s.vitals, harm.player(dx, dy), rules.invulnerableFrames)
            else s.vitals)
  }

  /** A blast never adds or removes mobs, leaves every mob outside its reach
      as it was, harms each caught mob exactly once and never heals one. */
  lemma {:induction false} BlowMobs(s: Scene, cx: int, cy: int, blast: Blast, harm: Harm, hurtPlayer: bool,
                                    px: int, py: int, rules: RuleSet, i: int)
    requires 0 <= i < |s.mobs|
    ensures var r := Blow(s, cx, cy, blast, harm, hurtPlayer, px, py, rules);
            var m := s.mobs[i];
            var dx, dy := m.x - cx * TILE_SIZE, m.y - cy * TILE_SIZE;
            |r.mobs| == |s.mobs| && r.mobs[i].hp <= m.hp
            && (GetBlock(s.world, cx, cy) == GOAL || !Caught(blast, dx, dy) ==> r.mobs[i] == m)
            && (GetBlock(s.world, cx, cy) != GOAL && Caught(blast, dx, dy)
                ==> r.mobs[i].hp == m.hp - harm.mob(dx, dy) && r.mobs[i].vy == -10
                    && r.mobs[i].x == m.x && r.mobs[i].y == m.y && r.mobs[i].reward == m.reward)
  {
  }

  /** The player is hurt by a blast only when caught, not standing behind
      the goal, with `hurtPlayer` set, and not invulnerable. */
  lemma BlowPlayer(s: Scene, cx: int, cy: int, blast: Blast, harm: Harm, hurtPlayer: bool,
                   px: int, py: int, rules: RuleSet)
    ensures var dx, dy := px - cx * TILE_SIZE, py - cy * TILE_SIZE;
            Blow(s, cx, cy, blast, harm, hurtPlayer, px, py, rules).vitals != s.vitals
            ==> hurtPlayer && Caught(blast, dx, dy) && GetBlock(s.world, cx, cy) != GOAL
                && s.vitals.invulnerable <= 0
    ensures Blow(s, cx, cy, blast, harm, hurtPlayer, px, py, rules).vitals.hp <= s.vitals.hp
  {
  }

  /** The radii behind the blast constants: the loop bound is ceil(r), the
      carve test `d <= r*r` on an integer d is `d <= limit`, and the catch
      test `dist < r + 1` in pixels is `< hitPx2`. */
  lemma BlastsMatchRadii(d: int)
    ensures (d as real <= 4.0 * 4.0 <==> d <= TNT_BLAST.limit) && TNT_BLAST.reach == 4
    ensures (d as real <= 1.5 * 1.5 <==> d <= JS_BOLT_BLAST.limit) && JS_BOLT_BLAST.reach == 2
    ensures (d as real <= 1.2 * 1.2 <==> d <= JAVA_BOLT_BLAST.limit) && JAVA_BOLT_BLAST.reach == 2
    ensures TNT_BLAST.hitPx2 as real == 1600.0 * (4.0 + 1.0) * (4.0 + 1.0)
    ensures JS_BOLT_BLAST.hitPx2 as real == 1600.0 * (1.5 + 1.0) * (1.5 + 1.0)
    ensures JAVA_BOLT_BLAST.hitPx2 as real == 1600.0 * (1.2 + 1.0) * (1.2 + 1.0)
  {
  }

  /** The TNT fuses `ts` going off one after another, in list order, with the
      player's corner at (px, py). */
  function BlowAll(s: Scene, ts: seq<Timer>, blast: Blast, harm: Harm, px: int, py: int,
                   rules: RuleSet): Scene
    decreases |ts|
  {
    if |ts| == 0 then s
    else
      var last := ts[|ts| - 1];
      Blow(BlowAll(s, ts[..|ts| - 1], blast, harm, px, py, rules), last.x, last.y, blast, harm, true,
           px, py, rules)
  }

  /** One more fuse going off after a list of them. */
  lemma BlowAllSnoc(s: Scene, ts: seq<Timer>, t: Timer, blast: Blast, harm: Harm, px: int, py: int,
                    rules: RuleSet)
    ensures BlowAll(s, ts + [t], blast, harm, px, py, rules)
            == Blow(BlowAll(s, ts, blast, harm, px, py, rules), t.x, t.y, blast, harm, true, px, py, rules)
  {
    assert (ts + [t])[..|ts|] == ts;
  }

  /** However many fuses go off in one tick, the player is hurt at most once
      by them: the first hit starts the invulnerability window and the later
      blasts find the player invulnerable. */
  lemma {:induction false} OneHurtPerTick(s: Scene, ts: seq<Timer>, blast: Blast, harm: Harm,
                                          px: int, py: int, rules: RuleSet)
    requires rules.invulnerableFrames > 0
    ensures var r := BlowAll(s, ts, blast, harm, px, py, rules);
            r.vitals == s.vitals
            || (s.vitals.invulnerable <= 0 && r.vitals.invulnerable == rules.invulnerableFrames
                && exists k :: 0 <= k < |ts| && r.vitals == Hurt(s.vitals, harm.player(px - ts[k].x * TILE_SIZE, py - ts[k].y * TILE_SIZE), rules.invulnerableFrames))
    decreases |ts|
  {
    if |ts| > 0 {
      var init, last := ts[..|ts| - 1], ts[|ts| - 1];
      OneHurtPerTick(s, init, blast, harm, px, py, rules);
      var mid := BlowAll(s, init, blast, harm, px, py, rules);
      if mid.vitals != s.vitals {
        var k :| 0 <= k < |init| && mid.vitals == Hurt(s.vitals, harm.player(px - init[k].x * TILE_SIZE, py - init[k].y * TILE_SIZE), rules.invulnerableFrames);
        assert ts[k] == init[k];
      } else {
        assert ts[|ts| - 1] == last;
      }
    }
  }
}
