/** handleInteraction: a mouse click on the world. With a weapon selected a
    left click attacks; otherwise, within reach, a left click mines the tile
    under the cursor and a right click builds the selected block on it.
    The attack itself (the melee sweep and the wand bolt) is not modelled
    here; only the cooldowns it sets are. */
module Interaction {
  import opened Elements
  import opened Grids
  import opened Rules
  import opened Timers
  import opened Collision

  /** What handleInteraction reads and writes: the block grid, the
      durability grid, the armed TNT list, and the player's gold and two
      cooldowns. */
  datatype Stage = Stage(world: Grid, health: Grid, tnts: seq<Timer>,
                         gold: int, actionTimer: int, attackTimer: int)

  /** The player's box in pixels. */
  datatype Box = Box(x: int, y: int, width: int, height: int)

  /** The action cooldown after any mine or build attempt within reach. */
  const TOOL_RECOVERY: int := 8

  /** `hypot(player centre - mouse) > INTERACTION_RANGE`, squared and at twice
      the scale so that the half-pixel centre stays an integer. */
  predicate OutOfReach(p: Box, mx: int, my: int) {
    var dx, dy := 2 * p.x + p.width - 2 * mx, 2 * p.y + p.height - 2 * my;
    dx * dx + dy * dy > 4 * INTERACTION_RANGE * INTERACTION_RANGE
  }

  /** The integer test is the distance test of the source: the centre at
      (x + width/2, y + height/2) is farther than the range from the mouse. */
  lemma OutOfReachIsDistance(p: Box, mx: int, my: int)
    ensures var cx := p.x as real + p.width as real / 2.0 - mx as real;
            var cy := p.y as real + p.height as real / 2.0 - my as real;
            OutOfReach(p, mx, my)
            <==> cx * cx + cy * cy > INTERACTION_RANGE as real * INTERACTION_RANGE as real
  {
    var dx, dy := 2 * p.x + p.width - 2 * mx, 2 * p.y + p.height - 2 * my;
    var cx := p.x as real + p.width as real / 2.0 - mx as real;
    var cy := p.y as real + p.height as real / 2.0 - my as real;
    assert cx == dx as real / 2.0 && cy == dy as real / 2.0;
    assert cx * cx + cy * cy == (dx * dx + dy * dy) as real / 4.0;
  }

  /** The attack cooldown a weapon click sets: shootWand for the wand,
      performAttack otherwise, with its longer cooldown for the axe. */
  function WeaponCooldown(selected: int, rules: RuleSet): nat {
    if selected == WAND then rules.wandCooldown
    else if selected == AXE then rules.axeCooldown
    else rules.swordCooldown
  }

  /** The price of building a block: water 5, lava 30, TNT 10, anything
      else 1. */
  function PlaceCost(selected: int): (c: nat)
    ensures 1 <= c <= 30
  {
    if selected == WATER then 5
    else if selected == LAVA then 30
    else if selected == TNT then 10
    else 1
  }

  // ---------------------------------------------------------------------
  // Mining

  /** A left click within reach on tile (tx, ty). The goal and air are left
      alone; TNT is lit for free (the cell empties and a fuse is armed); a
      hard block with durability above 1 loses one point for free; any other
      block is cleared for 1 gold, paying back its ore value, or left alone
      when the player has no gold. */
  function Mine(s: Stage, tx: int, ty: int, fuse: int): Stage {
    var cur := GetBlock(s.world, tx, ty);
    if cur == GOAL || cur == AIR then s
    else if cur == TNT then
      s.(world := SetBlock(s.world, tx, ty, AIR), tnts := s.tnts + [Timer(tx, ty, fuse)])
    else if Hard(cur) && GetBlock(s.health, tx, ty) > 1 then
      s.(health := SetBlock(s.health, tx, ty, GetBlock(s.health, tx, ty) - 1))
    else if s.gold >= 1 then
      s.(gold := s.gold - 1 + Props(cur).value, world := SetBlock(s.world, tx, ty, AIR))
    else s
  }

  /** What one mining click can do: the only cell it touches is (tx, ty) and
      that only becomes AIR; the goal never goes; a block is cleared exactly
      when it is lit TNT or a paid-for clearing hit; gold moves only on a
      clearing hit, by the ore value less 1; a chipping hit takes exactly one
      point of durability and nothing else; and only lit TNT adds a fuse. */
  lemma MineEffects(s: Stage, tx: int, ty: int, fuse: int)
    ensures var r := Mine(s, tx, ty, fuse);
            forall a, b :: (a, b) != (tx, ty) ==> GetBlock(r.world, a, b) == GetBlock(s.world, a, b)
    ensures var r := Mine(s, tx, ty, fuse);
            GetBlock(r.world, tx, ty) in {GetBlock(s.world, tx, ty), AIR}
    ensures GetBlock(s.world, tx, ty) == GOAL ==> Mine(s, tx, ty, fuse) == s
    ensures var r := Mine(s, tx, ty, fuse);
            var cur := GetBlock(s.world, tx, ty);
            var chip := Hard(cur) && GetBlock(s.health, tx, ty) > 1;
            GetBlock(r.world, tx, ty) != cur
            <==> cur == TNT || (cur != AIR && cur != GOAL && !chip && s.gold >= 1)
    ensures var r := Mine(s, tx, ty, fuse);
            var cur := GetBlock(s.world, tx, ty);
            r.gold != s.gold ==> cur != TNT && GetBlock(r.world, tx, ty) == AIR && s.gold >= 1
                                 && r.gold == s.gold - 1 + Props(cur).value
    ensures var r := Mine(s, tx, ty, fuse);
            var cur := GetBlock(s.world, tx, ty);
            var d := GetBlock(s.health, tx, ty);
            cur != TNT && Hard(cur) && d > 1
            ==> r.world == s.world && r.gold == s.gold && r.tnts == s.tnts
                && GetBlock(r.health, tx, ty) == d - 1
                && forall a, b :: (a, b) != (tx, ty) ==> GetBlock(r.health, a, b) == GetBlock(s.health, a, b)
    ensures var r := Mine(s, tx, ty, fuse);
            r.tnts != s.tnts ==> GetBlock(s.world, tx, ty) == TNT && r.tnts == s.tnts + [Timer(tx, ty, fuse)]
                                 && r.gold == s.gold
  {
    var cur := GetBlock(s.world, tx, ty);
    if cur != GOAL && cur != AIR && cur != TNT && !(Hard(cur) && GetBlock(s.health, tx, ty) > 1) {
      assert cur != AIR ==> InBounds(s.world, tx, ty);
    }
  }

  /** `n` mining clicks on the same tile, cooldowns aside. */
  function MineTimes(s: Stage, tx: int, ty: int, fuse: int, n: nat): Stage
    decreases n
  {
    if n == 0 then s else MineTimes(Mine(s, tx, ty, fuse), tx, ty, fuse, n - 1)
  }

  /** A hard block with durability d falls on the d-th click: the first
      d - 1 clicks only chip it and cost nothing, and the last one clears
      it for 1 gold (plus its ore value). A full-strength stone costs 1 gold
      in all, not one per hit. */
  lemma {:induction false} HardBlockFallsOnLastHit(s: Stage, tx: int, ty: int, fuse: int, d: nat)
    requires Hard(GetBlock(s.world, tx, ty)) && s.gold >= 1
    requires d >= 1 && GetBlock(s.health, tx, ty) == d && InBounds(s.health, tx, ty)
    ensures var r := MineTimes(s, tx, ty, fuse, d - 1);
            r.world == s.world && r.gold == s.gold && GetBlock(r.health, tx, ty) == 1
    ensures var r := MineTimes(s, tx, ty, fuse, d);
            GetBlock(r.world, tx, ty) == AIR
            && r.gold == s.gold - 1 + Props(GetBlock(s.world, tx, ty)).value
    decreases d
  {
    var cur := GetBlock(s.world, tx, ty);
    HardBlocksAreTheStones(cur);
    if d == 1 {
      assert MineTimes(s, tx, ty, fuse, 0) == s;
      assert MineTimes(s, tx, ty, fuse, 1) == MineTimes(Mine(s, tx, ty, fuse), tx, ty, fuse, 0);
    } else {
      var s1 := Mine(s, tx, ty, fuse);
      assert s1 == s.(health := SetBlock(s.health, tx, ty, d - 1));
      assert GetBlock(s1.health, tx, ty) == d - 1;
      HardBlockFallsOnLastHit(s1, tx, ty, fuse, d - 1);
      assert MineTimes(s, tx, ty, fuse, d - 1) == MineTimes(s1, tx, ty, fuse, d - 2);
    }
  }

  // ---------------------------------------------------------------------
  // Building

  /** A right click within reach, as the source writes it. Items, a tile
      overlapping the player, a tile already holding the selected block and
      a tile that is neither air nor translucent are refused; otherwise the
      cost is charged when affordable and the block is written with its
      starting durability. A tile outside the world reads as AIR, so it is
      charged for even though both writes are lost. */
  function PlaceAsWritten(s: Stage, selected: int, tx: int, ty: int, p: Box): Stage {
    var cur := GetBlock(s.world, tx, ty);
    if selected >= 100 then s
    else if PlacementGuard(tx, ty, p.x, p.y, p.width, p.height) then s
    else if cur == selected then s
    else if !(cur == AIR || Alpha(cur)) then s
    else if s.gold >= PlaceCost(selected) then
      s.(gold := s.gold - PlaceCost(selected),
         world := SetBlock(s.world, tx, ty, selected),
         health := SetBlock(s.health, tx, ty, InitialDurability(selected)))
    else s
  }

  /** Building as intended: a tile outside the world is refused before
      anything is charged. */
  function Place(s: Stage, selected: int, tx: int, ty: int, p: Box): Stage {
    if !InBounds(s.world, tx, ty) then s else PlaceAsWritten(s, selected, tx, ty, p)
  }

  /** What one building click can do: it pays exactly when the selected
      block appears at (tx, ty), and then exactly its cost; it only ever
      writes that tile, only over air or a translucent block, only a block
      (not an item), never onto the player; the new cell starts at its full
      durability; and a refused click changes nothing. */
  lemma {:induction false} PlaceEffects(s: Stage, selected: int, tx: int, ty: int, p: Box)
    requires SameShape(s.world, s.health)
    ensures var r := Place(s, selected, tx, ty, p);
            r.gold < s.gold
            <==> GetBlock(s.world, tx, ty) != selected && GetBlock(r.world, tx, ty) == selected
    ensures var r := Place(s, selected, tx, ty, p);
            r.gold == s.gold ==> r == s
    ensures var r := Place(s, selected, tx, ty, p);
            var cur := GetBlock(s.world, tx, ty);
            r.gold != s.gold
            ==> r.gold == s.gold - PlaceCost(selected)
                && selected < 100 && (cur == AIR || Alpha(cur))
                && !Overlap(tx * TILE_SIZE, ty * TILE_SIZE, TILE_SIZE, TILE_SIZE, p.x, p.y, p.width, p.height)
                && r.world == SetBlock(s.world, tx, ty, selected)
                && GetBlock(r.health, tx, ty) == InitialDurability(selected)
                && r.tnts == s.tnts
  {
    PlacementGuardIsOverlap(tx, ty, p.x, p.y, p.width, p.height);
    if InBounds(s.world, tx, ty) {
      assert InBounds(s.health, tx, ty);
    }
  }

  // ---------------------------------------------------------------------
  // The whole click

  /** handleInteraction(button) with the selected slot holding `selected`,
      the mouse at world pixel (mx, my) and the player's box `p`. */
  function Interact(s: Stage, rules: RuleSet, button: int, selected: int,
                    mx: int, my: int, p: Box): Stage
  {
    if s.actionTimer > 0 then s
    else if button == 0 && IsItemId(selected) then
      if s.attackTimer <= 0
      then s.(attackTimer := WeaponCooldown(selected, rules), actionTimer := rules.weaponRecovery)
      else s
    else if OutOfReach(p, mx, my) then s
    else UseTool(s.(actionTimer := TOOL_RECOVERY), rules, button, selected,
                 mx / TILE_SIZE, my / TILE_SIZE, p)
  }

  /** The tool part of a click on tile (tx, ty): the left button mines, the
      right button builds, any other button does nothing more. */
  function UseTool(s: Stage, rules: RuleSet, button: int, selected: int,
                   tx: int, ty: int, p: Box): Stage
  {
    if button == 0 then Mine(s, tx, ty, rules.tntFuse)
    else if button == 2 then Place(s, selected, tx, ty, p)
    else s
  }

  /** The gates in front of mining and building: nothing happens during the
      action cooldown; a weapon click never looks at the distance or the
      world and only starts the cooldowns when the attack is ready; and a
      click out of reach changes nothing. */
  lemma InteractGates(s: Stage, rules: RuleSet, button: int, selected: int,
                      mx: int, my: int, p: Box, mx2: int, my2: int)
    ensures s.actionTimer > 0 ==> Interact(s, rules, button, selected, mx, my, p) == s
    ensures button == 0 && IsItemId(selected)
            ==> Interact(s, rules, button, selected, mx, my, p)
                == Interact(s, rules, button, selected, mx2, my2, p)
    ensures var r := Interact(s, rules, button, selected, mx, my, p);
            button == 0 && IsItemId(selected)
            ==> r.world == s.world && r.health == s.health && r.tnts == s.tnts && r.gold == s.gold
    ensures var r := Interact(s, rules, button, selected, mx, my, p);
            button == 0 && IsItemId(selected) && s.attackTimer > 0 ==> r == s
    ensures var r := Interact(s, rules, button, selected, mx, my, p);
            !(button == 0 && IsItemId(selected)) && OutOfReach(p, mx, my) ==> r == s
  {
  }

  /** Gold never goes negative through a click. */
  lemma InteractKeepsGold(s: Stage, rules: RuleSet, button: int, selected: int,
                          mx: int, my: int, p: Box)
    requires s.gold >= 0
    ensures Interact(s, rules, button, selected, mx, my, p).gold >= 0
  {
  }

  /** A mining click keeps every hard cell's durability in range: a chip
      only takes a point off a cell above 1, and a clearing hit leaves AIR. */
  lemma MineKeepsDurable(s: Stage, tx: int, ty: int, fuse: int)
    requires SameShape(s.world, s.health) && Durable(s.world, s.health)
    ensures var r := Mine(s, tx, ty, fuse);
            SameShape(r.world, r.health) && Durable(r.world, r.health)
  {
  }

  /** A building click keeps every hard cell's durability in range: a new
      hard block starts at its maximum. */
  lemma PlaceKeepsDurable(s: Stage, selected: int, tx: int, ty: int, p: Box)
    requires SameShape(s.world, s.health) && Durable(s.world, s.health)
    ensures var r := Place(s, selected, tx, ty, p);
            SameShape(r.world, r.health) && Durable(r.world, r.health)
  {
    HardBlocksAreTheStones(selected);
  }

  /** Clicks keep every hard cell's durability in range. */
  lemma InteractKeepsDurable(s: Stage, rules: RuleSet, button: int, selected: int,
                             mx: int, my: int, p: Box)
    requires SameShape(s.world, s.health) && Durable(s.world, s.health)
    ensures var r := Interact(s, rules, button, selected, mx, my, p);
            SameShape(r.world, r.health) && Durable(r.world, r.health)
  {
    var s1 := s.(actionTimer := TOOL_RECOVERY);
    MineKeepsDurable(s1, mx / TILE_SIZE, my / TILE_SIZE, rules.tntFuse);
    PlaceKeepsDurable(s1, selected, mx / TILE_SIZE, my / TILE_SIZE, p);
  }

  /** The defect in PlaceAsWritten, on a reachable click: with the player
      at the left edge of the world, a right click 20 pixels to its left is
      within reach and names tile column -1. The click as written takes the
      gold and builds nothing; Place refuses it. */
  lemma OffGridPlacementCharges(s: Stage)
    requires s.gold >= 1 && s.actionTimer <= 0 && |s.world| > 10
    ensures var p := Box(0, 400, 28, 38);
            !OutOfReach(p, -20, 420) && -20 / TILE_SIZE == -1 && 420 / TILE_SIZE == 10
    ensures var r := PlaceAsWritten(s, DIRT, -1, 10, Box(0, 400, 28, 38));
            r.gold == s.gold - 1 && r.world == s.world && r.health == s.health
    ensures Interact(s, JS_RULES, 2, DIRT, -20, 420, Box(0, 400, 28, 38))
            == s.(actionTimer := TOOL_RECOVERY)
  {
    assert GetBlock(s.world, -1, 10) == AIR;
  }
}
