/** The running game: the world grids, the timer and mob lists, the
    inventory and the player, and the operations of game.js and game.java
    that update them in place. Which file's rules apply is fixed by the
    `rules` the game is created with. */
module Simulation {
  import opened Elements
  import opened VariantElements
  import opened Grids
  import opened Rules
  import opened Collision
  import opened WaterFlow
  import opened Timers
  import opened Mobs
  import opened Players
  import opened Explosion
  import opened Interaction
  import opened Shop

  datatype GameState = Menu | Play | ShopOpen | Dead

  /** The inventory the game starts with: the sword and ten blocks. */
  const STARTING_INVENTORY: seq<int> :=
    [SWORD, DIRT, STONE, WOOD, PLANK, TNT, GLASS, WATER, LAVA, ICE, BOUNCE]

  /** The starting inventory holds none of the tools sold in the shop. */
  lemma StartingInventoryHasNoTools()
    ensures forall i :: 0 <= i < |STARTING_INVENTORY| ==> STARTING_INVENTORY[i] !in {WAND, AXE, SPEAR}
  {
  }

  /** The durability grid as level generation lays it down: the block's maxHp
      for a hard block, 1 for anything else, cell by cell. */
  method StartingDurability(world: Grid) returns (health: Grid)
    ensures SameShape(world, health)
    ensures forall x, y :: InBounds(world, x, y)
                           ==> GetBlock(health, x, y) == InitialDurability(GetBlock(world, x, y))
    ensures Durable(world, health)
  {
    health := [];
    var y := 0;
    while y < |world|
      invariant 0 <= y <= |world| && |health| == y
      invariant forall j :: 0 <= j < y ==> |health[j]| == |world[j]|
      invariant forall j, i :: 0 <= j < y && 0 <= i < |world[j]|
                               ==> health[j][i] == InitialDurability(world[j][i])
    {
      var row := [];
      var x := 0;
      while x < |world[y]|
        invariant 0 <= x <= |world[y]| && |row| == x
        invariant forall i :: 0 <= i < x ==> row[i] == InitialDurability(world[y][i])
      {
        row := row + [InitialDurability(world[y][x])];
        x := x + 1;
      }
      health := health + [row];
      y := y + 1;
    }
    HardBlocksMaxHp(world, health);
  }

  lemma HardBlocksMaxHp(world: Grid, health: Grid)
    requires SameShape(world, health)
    requires forall x, y :: InBounds(world, x, y)
                            ==> GetBlock(health, x, y) == InitialDurability(GetBlock(world, x, y))
    ensures Durable(world, health)
  {
    forall x, y | InBounds(world, x, y) && Hard(GetBlock(world, x, y))
      ensures 1 <= GetBlock(health, x, y) <= Props(GetBlock(world, x, y)).maxHp
    {
      HardBlocksAreTheStones(GetBlock(world, x, y));
    }
  }

  /** The reverse loop of the crumble tick on the timer list `crumbles`
      and the world `world`. */
  method CrumbleLoop(crumbles: seq<Timer>, world: Grid) returns (cs: seq<Timer>, g: Grid)
    ensures cs == Countdown(crumbles)
    ensures g == ClearCells(world, Expired(crumbles))
  {
    cs, g := crumbles, world;
    var i := |cs| - 1;
    while i >= 0
      invariant -1 <= i < |crumbles|
      invariant cs == crumbles[..i + 1] + Countdown(crumbles[i + 1..])
      invariant g == ClearCells(world, Expired(crumbles[i + 1..]))
    {
      TickStep(crumbles, i);
      var c := cs[i];
      if Expires(c) {
        ClearCellsSnoc(world, Expired(crumbles[i + 1..]), c);
        g := SetBlock(g, c.x, c.y, AIR);
        cs := cs[..i] + cs[i + 1..];
      } else {
        cs := cs[..i] + [Tick(c)] + cs[i + 1..];
      }
      i := i - 1;
    }
    assert crumbles[0..] == crumbles;
  }

  /** The reverse loop over the mob list with the counters it updates:
      mob i is dropped, paid for and removed, or kept. */
  method DeathLoop(ms: seq<Mob>, t: Tally, rules: RuleSet, floor: int) returns (living: seq<Mob>, r: Tally)
    ensures living == Living(ms, floor)
    ensures r == Sweep(ms, t, rules, floor).1
  {
    living, r := ms, t;
    // n mobs are still to visit: the loop index of the source is n - 1
    var n := |ms|;
    assert ms[..n] == ms && ms[n..] == [];
    while n > 0
      invariant 0 <= n <= |ms|
      invariant living == ms[..n] + Living(ms[n..], floor)
      invariant Sweep(ms, t, rules, floor).1 == Sweep(ms[..n], r, rules, floor).1
    {
      var m := living[n - 1];
      // FateOf tells a mob below the floor (dropped) from one with no hit
      // points left (paid for by Settle) and from one that lives on
      var settled := Settle(m, r, rules, floor);
      var kept := if FateOf(m, floor) == Lives then living else living[..n - 1] + living[n..];
      DeathStep(ms, t, n, living, r, kept, settled, rules, floor);
      living, r := kept, settled;
      n := n - 1;
    }
    assert ms[..0] == [] && ms[0..] == ms;
  }

  /** The combo countdown at the start of update in game.js: the timer runs
      down while positive, and the combo resets once it is out. */
  function ComboTick(combo: int, comboTimer: int): (int, int) {
    if comboTimer > 0 then (combo, comboTimer - 1) else (0, comboTimer)
  }

  /** completeLevel on the game state and the gold. */
  function Completion(state: GameState, gold: int, bonus: nat): (GameState, int) {
    if state == ShopOpen then (state, gold) else (ShopOpen, gold + bonus)
  }

  /** The level bonus is paid once: reaching the goal again while the shop
      is open pays nothing more. */
  lemma CompletionPaysOnce(state: GameState, gold: int, bonus: nat)
    ensures var (s1, g1) := Completion(state, gold, bonus);
            s1 == ShopOpen && Completion(s1, g1, bonus) == (s1, g1)
    ensures state != ShopOpen ==> Completion(state, gold, bonus).1 == gold + bonus
    ensures state == ShopOpen ==> Completion(state, gold, bonus).1 == gold
  {
  }

  /** A kill within the combo window keeps counting; a combo left alone for
      `comboTimer` + 1 ticks is reset. */
  lemma {:induction false} ComboExpires(combo: int, comboTimer: nat)
    ensures ComboRun(combo, comboTimer, comboTimer) == (combo, 0)
    ensures ComboRun(combo, comboTimer, comboTimer + 1) == (0, 0)
    decreases comboTimer
  {
    if comboTimer > 0 {
      ComboExpires(combo, comboTimer - 1);
      ComboRunShift(combo, comboTimer, comboTimer - 1);
      ComboRunShift(combo, comboTimer, comboTimer);
    }
  }

  /** n ticks of the combo countdown. */
  function ComboRun(combo: int, comboTimer: int, n: nat): (int, int)
    decreases n
  {
    if n == 0 then (combo, comboTimer)
    else var (c, t) := ComboTick(combo, comboTimer); ComboRun(c, t, n - 1)
  }

  lemma {:induction false} ComboRunShift(combo: int, comboTimer: nat, n: nat)
    requires comboTimer > 0
    ensures ComboRun(combo, comboTimer, n + 1) == ComboRun(combo, comboTimer - 1, n)
  {
  }

  class Game {
    const rules: RuleSet
    const registry: map<string, MobStats>
    const dashCost: Option<real>
    const worldWidth: nat
    const worldHeight: nat
    const player: Player
    var world: Grid
    var health: Grid
    var crumbles: seq<Timer>
    var tnts: seq<Timer>
    var mobs: seq<Mob>
    var inventory: seq<int>
    var selected: int
    var combo: int
    var comboTimer: int
    var state: GameState
    var gameTime: int
    var level: nat
    var jumpForce: int

    /** The player is valid and each owned tool is in the inventory once;
        the grids are worldWidth by worldHeight and every hard cell has
        durability in range; at most one crumble timer per tile; the
        selected slot exists; rewards and the combo are never negative; and
        takeDamage opens a real invulnerability window. Each part reads only
        the fields it is about. */
    ghost predicate Valid()
      reads this, player
    {
      player.Valid() && ToolsListed(Purse()) && GridsSound() && CrumblesSound() && SlotSound()
      && ComboSound() && MobsSound() && RegistrySound()
    }

    ghost predicate GridsSound()
      reads this`world, this`health
    {
      Rectangular(world, worldWidth, worldHeight) && SameShape(world, health) && Durable(world, health)
    }

    ghost predicate CrumblesSound()
      reads this`crumbles
    {
      OnePerTile(crumbles)
    }

    ghost predicate ComboSound()
      reads this`combo
    {
      combo >= 0
    }

    ghost predicate RegistrySound() {
      (forall k :: k in registry ==> registry[k].reward >= 0) && rules.invulnerableFrames > 0
    }

    ghost predicate SlotSound()
      reads this`inventory, this`selected
    {
      0 <= selected < |inventory|
    }

    ghost predicate MobsSound()
      reads this`mobs
    {
      forall m :: m in mobs ==> m.reward >= 0
    }

    function Purse(): Purse
      reads this`inventory, player`gold, player`hp, player`maxHp, player`damage, player`speed,
            player`hasWand, player`hasAxe, player`hasSpear
    {
      Shop.Purse(player.gold, player.hp, player.maxHp, player.damage, player.speed,
                 player.hasWand, player.hasAxe, player.hasSpear, inventory)
    }

    function Stage(): Stage
      reads this, player
    {
      Interaction.Stage(world, health, tnts, player.gold, player.actionTimer, player.attackTimer)
    }

    function Scene(): Scene
      reads this, player
    {
      Explosion.Scene(world, mobs, player.Vital())
    }

    function Box(): Box
      reads this, player
    {
      Interaction.Box(player.x, player.y, player.width, player.height)
    }

    function Body(): Body
      reads this, player
    {
      Collision.Body(player.x, player.y, player.width, player.height, player.vx, player.vy,
                     player.grounded)
    }

    function Tally(): Tally
      reads this, player
    {
      Mobs.Tally(player.gold, combo, comboTimer)
    }

    /** Despawn line: mobs deeper than this many pixels are dropped. */
    function Floor(): int
      reads this
    {
      worldHeight * TILE_SIZE + rules.despawnMargin
    }

    /** A new game: the page-load state (a fresh player, the starting
        inventory with the sword selected, no combo, the clock at 0) and then
        generateLevel for a generated `world`: the durability grid laid down
        from it, no timers and no mobs yet, and play under way with the
        player at column 5 and height `startY` (three tiles above the
        column's surface in game.js, the top row in game.java). */
    constructor (rules: RuleSet, registry: map<string, MobStats>, dashCost: Option<real>,
                 worldWidth: nat, worldHeight: nat, world: Grid, level: nat, startY: int)
      requires Rectangular(world, worldWidth, worldHeight)
      requires forall k :: k in registry ==> registry[k].reward >= 0
      requires rules.invulnerableFrames > 0
      ensures Valid()
      ensures this.rules == rules && this.registry == registry && this.dashCost == dashCost
      ensures this.worldWidth == worldWidth && this.worldHeight == worldHeight
      ensures this.world == world && this.level == level
      ensures forall x, y :: InBounds(world, x, y)
                             ==> GetBlock(health, x, y) == InitialDurability(GetBlock(world, x, y))
      ensures crumbles == [] && tnts == [] && mobs == []
      ensures inventory == STARTING_INVENTORY && selected == 0
      ensures combo == 0 && comboTimer == 0 && state == Play && gameTime == 0
      ensures jumpForce == INITIAL_JUMP_FORCE
      ensures fresh(player)
      ensures player.State() == Snapshot(5 * TILE_SIZE, startY, 0, 0, false, true, false, 0, 0, 0,
                                         100, 100, 100.0, 0, 6, 15, 0, 0, 0, false, false, false)
    {
      this.rules, this.registry, this.dashCost := rules, registry, dashCost;
      this.worldWidth, this.worldHeight := worldWidth, worldHeight;
      this.world, this.level := world, level;
      var hp := StartingDurability(world);
      health := hp;
      crumbles, tnts, mobs := [], [], [];
      inventory, selected := STARTING_INVENTORY, 0;
      combo, comboTimer, state, gameTime := 0, 0, Play, 0;
      jumpForce := INITIAL_JUMP_FORCE;
      player := new Player(5 * TILE_SIZE, startY);
      new;
      StartingInventoryHasNoTools();
    }

    // -------------------------------------------------------------------
    // handleInteraction

    /** A click with the mouse at world pixel (mx, my): the step-by-step
        code of handleInteraction, with the build refused outside the
        world before anything is charged. */
    method HandleInteraction(button: int, mx: int, my: int)
      requires Valid()
      modifies this`world, this`health, this`tnts, player`gold, player`actionTimer, player`attackTimer
      ensures Valid()
      ensures Stage() == Interact(old(Stage()), rules, button, old(inventory[selected]), mx, my, old(Box()))
    {
      var sel := inventory[selected];
      if player.actionTimer > 0 {
        return;
      }
      if button == 0 && IsItemId(sel) {
        player.StartAttack(WeaponCooldown(sel, rules), rules.weaponRecovery);
        return;
      }
      if OutOfReach(Box(), mx, my) {
        return;
      }
      ToolClick(button, sel, mx, my);
    }

    /** A mining or building click that has passed the gates: the tool
        recovery starts and the tool is used on the tile under the mouse. */
    method ToolClick(button: int, sel: int, mx: int, my: int)
      requires Valid() && player.actionTimer <= 0 && !(button == 0 && IsItemId(sel))
      requires !OutOfReach(Box(), mx, my)
      modifies this`world, this`health, this`tnts, player`gold, player`actionTimer
      ensures Valid()
      ensures Stage() == Interact(old(Stage()), rules, button, sel, mx, my, old(Box()))
    {
      ghost var s0 := Stage();
      player.StartAction(TOOL_RECOVERY);
      assert Stage() == s0.(actionTimer := TOOL_RECOVERY);
      ApplyTool(button, sel, mx / TILE_SIZE, my / TILE_SIZE);
    }

    /** The tool part of handleInteraction on tile (tx, ty). */
    method ApplyTool(button: int, sel: int, tx: int, ty: int)
      requires Valid()
      modifies this`world, this`health, this`tnts, player`gold
      ensures Valid()
      ensures Stage() == UseTool(old(Stage()), rules, button, sel, tx, ty, old(Box()))
    {
      if button == 0 {
        MineTile(tx, ty);
      } else if button == 2 {
        BuildTile(sel, tx, ty);
      }
    }

    /** The mining half of handleInteraction, on tile (tx, ty). */
    method MineTile(tx: int, ty: int)
      requires Valid()
      modifies this`world, this`health, this`tnts, player`gold
      ensures Valid()
      ensures Stage() == Mine(old(Stage()), tx, ty, rules.tntFuse)
    {
      MineKeepsDurable(Stage(), tx, ty, rules.tntFuse);
      var cur := GetBlock(world, tx, ty);
      if cur == GOAL {
        return;
      }
      if cur == TNT {
        world := SetBlock(world, tx, ty, AIR);
        tnts := tnts + [Timer(tx, ty, rules.tntFuse)];
      } else if cur != AIR {
        if Hard(cur) && GetBlock(health, tx, ty) > 1 {
          health := SetBlock(health, tx, ty, GetBlock(health, tx, ty) - 1);
          return;
        }
        if player.gold >= 1 {
          ClearTile(tx, ty);
        }
      }
    }

    /** A clearing hit on tile (tx, ty): one gold for the hit, the block's
        value back, and the cell becomes AIR. */
    method ClearTile(tx: int, ty: int)
      requires Valid() && player.gold >= 1
      requires GetBlock(world, tx, ty) !in {GOAL, AIR, TNT}
      requires !(Hard(GetBlock(world, tx, ty)) && GetBlock(health, tx, ty) > 1)
      modifies this`world, player`gold
      ensures Valid()
      ensures Stage() == Mine(old(Stage()), tx, ty, rules.tntFuse)
      ensures Stage() == old(Stage()).(gold := old(player.gold) - 1 + Props(old(GetBlock(world, tx, ty))).value,
                                       world := SetBlock(old(world), tx, ty, AIR))
    {
      var cur := GetBlock(world, tx, ty);
      ghost var s := Stage();
      MineKeepsDurable(s, tx, ty, rules.tntFuse);
      player.gold := player.gold - 1;
      player.AddGold(Props(cur).value);
      world := SetBlock(world, tx, ty, AIR);
    }

    /** The building half of handleInteraction: the selected block `sel` on
        tile (tx, ty), refused outside the world before anything else. */
    method BuildTile(sel: int, tx: int, ty: int)
      requires Valid()
      modifies this`world, this`health, player`gold
      ensures Valid()
      ensures Stage() == Place(old(Stage()), sel, tx, ty, old(Box()))
    {
      PlaceKeepsDurable(Stage(), sel, tx, ty, Box());
      if !InBounds(world, tx, ty) {
        return;
      }
      if sel >= 100 {
        return;
      }
      if PlacementGuard(tx, ty, player.x, player.y, player.width, player.height) {
        return;
      }
      var cur := GetBlock(world, tx, ty);
      if cur == sel {
        return;
      }
      if cur == AIR || Alpha(cur) {
        var cost := PlaceCost(sel);
        if player.gold >= cost {
          player.gold := player.gold - cost;
          world := SetBlock(world, tx, ty, sel);
          health := SetBlock(health, tx, ty, InitialDurability(sel));
        }
      }
    }

    // -------------------------------------------------------------------
    // explode

    /** explode(cx, cy, radius, hurtPlayer) with the blast's reach, disc and
        catch distance in `blast` and the damage falloff in `harm`. */
    method Explode(cx: int, cy: int, blast: Blast, harm: Harm, hurtPlayer: bool)
      requires Valid()
      modifies this`world, this`mobs, player`hp, player`invulnerable
      ensures Valid()
      ensures Scene() == Blow(old(Scene()), cx, cy, blast, harm, hurtPlayer, old(player.x), old(player.y), rules)
    {
      if GetBlock(world, cx, cy) == GOAL {
        return;
      }
      ghost var s0 := Scene();
      CarveWorld(cx, cy, blast);
      HarmMobs(cx, cy, blast, harm);
      var dx, dy := player.x - cx * TILE_SIZE, player.y - cy * TILE_SIZE;
      if hurtPlayer && Caught(blast, dx, dy) {
        player.TakeDamage(harm.player(dx, dy), rules.invulnerableFrames);
      }
      assert Scene() == Explosion.Scene(Carve(s0.world, cx, cy, blast),
                                        BlastMobs(s0.mobs, cx, cy, blast, harm, rules.blastMarksHurt),
                                        player.Vital());
    }

    /** The terrain half of explode: the centre is set to AIR, then the
        square of half-side `reach` is swept row by row and every cell of the
        disc that is not brick or the goal is set to AIR. */
    method CarveWorld(cx: int, cy: int, blast: Blast)
      requires Valid() && GetBlock(world, cx, cy) != GOAL
      modifies this`world
      ensures Valid()
      ensures world == Carve(old(world), cx, cy, blast)
    {
      var g := SetBlock(world, cx, cy, AIR);
      var r: int := blast.reach;
      var y := cy - r;
      while y <= cy + r
        invariant cy - r <= y <= cy + r + 1
        invariant SameShape(world, g)
        invariant forall a, b :: GetBlock(g, a, b)
                                 == if b < y then CarvedCell(world, cx, cy, blast, a, b)
                                    else if a == cx && b == cy then AIR else GetBlock(world, a, b)
      {
        var x := cx - r;
        while x <= cx + r
          invariant cx - r <= x <= cx + r + 1
          invariant SameShape(world, g)
          invariant forall a, b :: GetBlock(g, a, b)
                                   == if b < y || (b == y && a < x) then CarvedCell(world, cx, cy, blast, a, b)
                                      else if a == cx && b == cy then AIR else GetBlock(world, a, b)
        {
          var b := GetBlock(g, x, y);
          if (x - cx) * (x - cx) + (y - cy) * (y - cy) <= blast.limit && b != BRICK && b != GOAL {
            g := SetBlock(g, x, y, AIR);
          }
          x := x + 1;
        }
        y := y + 1;
      }
      forall a, b | InBounds(g, a, b)
        ensures GetBlock(g, a, b) == GetBlock(Carve(world, cx, cy, blast), a, b)
      {
        CarveReads(world, cx, cy, blast, a, b);
      }
      SameGrid(g, Carve(world, cx, cy, blast));
      CarveKeepsDurable(world, health, cx, cy, blast);
      world := g;
    }

    /** The mob half of explode: every caught mob is harmed in place. */
    method HarmMobs(cx: int, cy: int, blast: Blast, harm: Harm)
      requires Valid()
      modifies this`mobs
      ensures Valid()
      ensures mobs == BlastMobs(old(mobs), cx, cy, blast, harm, rules.blastMarksHurt)
    {
      var ms := mobs;
      var i := 0;
      while i < |ms|
        invariant 0 <= i <= |ms| == |mobs|
        invariant forall k :: 0 <= k < i ==> ms[k] == BlastMob(mobs[k], cx, cy, blast, harm, rules.blastMarksHurt)
        invariant forall k :: i <= k < |ms| ==> ms[k] == mobs[k]
      {
        ms := ms[i := BlastMob(ms[i], cx, cy, blast, harm, rules.blastMarksHurt)];
        i := i + 1;
      }
      mobs := ms;
    }

    // -------------------------------------------------------------------
    // The timer lists

    /** The TNT loop of updateEntities: from the back, each fuse burns down
        by one; a fuse that reaches zero explodes with the TNT blast,
        hurting the player, and is removed. */
    method TickTnts(harm: Harm)
      requires Valid()
      modifies this`world, this`mobs, this`tnts, player`hp, player`invulnerable
      ensures Valid()
      ensures tnts == Countdown(old(tnts))
      ensures Scene() == BlowAll(old(Scene()), Expired(old(tnts)), TNT_BLAST, harm, old(player.x), old(player.y), rules)
    {
      var ts := tnts;
      ghost var sc0 := Scene();
      var i := |ts| - 1;
      while i >= 0
        invariant -1 <= i < |tnts| && tnts == old(tnts)
        invariant Valid()
        invariant ts == old(tnts)[..i + 1] + Countdown(old(tnts)[i + 1..])
        invariant Scene() == BlowAll(sc0, Expired(old(tnts)[i + 1..]), TNT_BLAST, harm, old(player.x), old(player.y), rules)
      {
        TickStep(tnts, i);
        var t := ts[i];
        if Expires(t) {
          BlowTnt(sc0, Expired(tnts[i + 1..]), t, harm);
          ts := ts[..i] + ts[i + 1..];
        } else {
          ts := ts[..i] + [Tick(t)] + ts[i + 1..];
        }
        i := i - 1;
      }
      assert old(tnts)[0..] == old(tnts);
      tnts := ts;
    }

    /** An expired TNT timer `t` goes off: the scene so far, the outcome of
        the timers met before it, is blown at t's tile. */
    method BlowTnt(ghost sc0: Scene, ghost before: seq<Timer>, t: Timer, harm: Harm)
      requires Valid()
      requires Scene() == BlowAll(sc0, before, TNT_BLAST, harm, player.x, player.y, rules)
      modifies this`world, this`mobs, player`hp, player`invulnerable
      ensures Valid()
      ensures Scene() == BlowAll(sc0, before + [t], TNT_BLAST, harm, player.x, player.y, rules)
    {
      BlowAllSnoc(sc0, before, t, TNT_BLAST, harm, player.x, player.y, rules);
      Explode(t.x, t.y, TNT_BLAST, harm, true);
    }

    /** The crumble loop of update: from the back, each plank timer burns
        down by one; one that reaches zero turns its tile to AIR and is
        removed. */
    method TickCrumbles()
      requires Valid()
      modifies this`world, this`crumbles
      ensures Valid()
      ensures crumbles == Countdown(old(crumbles))
      ensures world == ClearCells(old(world), Expired(old(crumbles)))
    {
      var cs, g := CrumbleLoop(crumbles, world);
      assert Valid();
      CountdownKeepsOnePerTile(crumbles);
      ClearCellsKeepsDurable(world, Expired(crumbles), health);
      Reshaped(world, g, health, worldWidth, worldHeight);
      crumbles, world := cs, g;
    }

    /** Standing on a plank arms a crumble timer under the player's feet,
        unless that tile already has one. */
    method ArmCrumble(tx: int, ty: int)
      requires Valid()
      modifies this`crumbles
      ensures Valid()
      ensures crumbles == Arm(old(crumbles), tx, ty, rules.crumbleFuse)
    {
      ArmKeepsOnePerTile(crumbles, tx, ty, rules.crumbleFuse);
      if exists t :: t in crumbles && On(t, tx, ty) {
        return;
      }
      crumbles := crumbles + [Timer(tx, ty, rules.crumbleFuse)];
    }

    // -------------------------------------------------------------------
    // The water step of game.java

    /** Every fifth tick (game.java only), the water pass over the world. */
    method FlowWater()
      requires Valid()
      modifies this`world
      ensures Valid()
      ensures world == if rules.waterFlow && gameTime % 5 == 0 then Pass(old(world), worldWidth) else old(world)
    {
      if !rules.waterFlow || gameTime % 5 != 0 {
        return;
      }
      PassKeepsDurable(world, worldWidth, health);
      var g := WaterPass(world, worldWidth);
      assert Valid();
      world := g;
    }

    // -------------------------------------------------------------------
    // Mobs

    /** spawnMob(x, y, type): a type missing from the registry spawns
        nothing; otherwise a fresh mob of that type joins the list, with
        game.java's per-level health bonus. */
    method SpawnMob(x: int, y: int, key: string)
      requires Valid()
      modifies this`mobs
      ensures Valid()
      ensures key !in registry ==> mobs == old(mobs)
      ensures key in registry ==> mobs == old(mobs) + [NewMob(registry[key], x, y, level, rules.mobHpPerLevel)]
    {
      if key !in registry {
        return;
      }
      mobs := mobs + [NewMob(registry[key], x, y, level, rules.mobHpPerLevel)];
    }

    /** The death checks at the end of the mob loop, from the last mob to
        the first: a mob below the world is dropped without pay, a mob with
        no health left is paid for (killMob in game.js) and removed. */
    method CullMobs()
      requires Valid()
      modifies this`mobs, this`combo, this`comboTimer, player`gold
      ensures Valid()
      ensures mobs == Living(old(mobs), Floor())
      ensures Tally() == Sweep(old(mobs), old(Tally()), rules, Floor()).1
    {
      SweepNeverCharges(mobs, Tally(), rules, Floor());
      LivingLives(mobs, Floor());
      var living, t := DeathLoop(mobs, Tally(), rules, Floor());
      assert Valid();
      mobs := living;
      combo, comboTimer := t.combo, t.comboTimer;
      player.gold := t.gold;
    }

    // -------------------------------------------------------------------
    // Per-tick bookkeeping, the level end, the shop and the hotbar

    /** The start of update: the clock advances, invulnerability runs down
        and, in game.js, the combo timer runs down or, once out, resets the
        combo. */
    method BeginTick()
      requires Valid()
      modifies this`gameTime, this`combo, this`comboTimer, player`invulnerable
      ensures Valid()
      ensures gameTime == old(gameTime) + 1
      ensures player.Vital() == Cool(old(player.Vital()))
      ensures (combo, comboTimer) == if rules.comboRewards then ComboTick(old(combo), old(comboTimer))
                                     else (old(combo), old(comboTimer))
    {
      gameTime := gameTime + 1;
      player.Recover();
      if rules.comboRewards {
        combo, comboTimer := if comboTimer > 0 then combo else 0,
                             if comboTimer > 0 then comboTimer - 1 else comboTimer;
      }
    }

    /** completeLevel: once the shop is open nothing more happens; otherwise
        the shop opens and the level bonus is paid. */
    method CompleteLevel()
      requires Valid()
      modifies this`state, player`gold
      ensures Valid()
      ensures (state, player.gold) == Completion(old(state), old(player.gold), rules.levelBonus)
    {
      if state == ShopOpen {
        return;
      }
      state := ShopOpen;
      player.AddGold(rules.levelBonus);
    }

    /** The goal check of update: the level is completed when the tile under
        the player's centre holds the goal. The centre (x + width/2,
        y + height/2) is taken at twice the scale so that it stays an
        integer. */
    method ReachGoal()
      requires Valid()
      modifies this`state, player`gold
      ensures Valid()
      ensures var tx, ty := (2 * player.x + player.width) / (2 * TILE_SIZE),
                            (2 * player.y + player.height) / (2 * TILE_SIZE);
              (state, player.gold)
              == if GetBlock(world, tx, ty) == GOAL
                 then Completion(old(state), old(player.gold), rules.levelBonus)
                 else old((state, player.gold))
    {
      var tx := (2 * player.x + player.width) / (2 * TILE_SIZE);
      var ty := (2 * player.y + player.height) / (2 * TILE_SIZE);
      if GetBlock(world, tx, ty) == GOAL {
        CompleteLevel();
      }
    }

    /** The death checks of update: the game is over once the player has
        fallen below the same line that despawns mobs, or has no health
        left. */
    method CheckDeath()
      requires Valid()
      modifies this`state
      ensures Valid()
      ensures state == if player.y > Floor() || player.hp <= 0 then Dead else old(state)
    {
      if player.y > Floor() {
        state := Dead;
      }
      if player.hp <= 0 {
        state := Dead;
      }
    }

    /** buyItem(type) on the player and the inventory. */
    method BuyItem(w: Ware)
      requires Valid()
      modifies this`inventory, player`gold, player`hp, player`maxHp, player`damage, player`speed,
               player`hasWand, player`hasAxe, player`hasSpear
      ensures Valid()
      ensures Purse() == Buy(old(Purse()), w)
    {
      // the purchase rules live in Buy; the method writes its result back
      // into the player and the inventory
      var p := Buy(Purse(), w);
      BuyKeepsInvariants(Purse(), w);
      assert |p.inventory| >= |inventory|;
      player.Refit(p);
      inventory := p.inventory;
    }

    /** selectSlot(index): an index outside the inventory is ignored. */
    method SelectSlot(index: int)
      requires Valid()
      modifies this`selected
      ensures Valid()
      ensures 0 <= index < |inventory| ==> selected == index
      ensures !(0 <= index < |inventory|) ==> selected == old(selected)
    {
      if index < 0 || index >= |inventory| {
        return;
      }
      selected := index;
    }

    // -------------------------------------------------------------------
    // The player against the terrain

    /** checkEntityCollision(player, axis): the scan and snap of Resolve
        written back to the player, and the spike damage of takeDamage(10)
        when a spike was met. Several spikes in one scan hurt once, because
        the first hit opens the invulnerability window. */
    method CollidePlayer(axis: Axis) returns (hit: Option<(int, int)>, spiked: bool)
      requires Valid()
      modifies player`x, player`y, player`vx, player`vy, player`grounded, player`hp, player`invulnerable
      ensures Valid()
      ensures Resolved(world, old(Body()), axis, true, Body(), hit, spiked)
      ensures player.Vital() == if spiked then Hurt(old(player.Vital()), 10, rules.invulnerableFrames)
                                else old(player.Vital())
    {
      var r;
      r, hit, spiked := Resolve(world, Body(), axis, true);
      MoveTo(r, spiked);
    }

    /** The resolved body written back to the player, and takeDamage(10)
        when the scan met a spike. */
    method MoveTo(r: Body, spiked: bool)
      requires Valid()
      modifies player`x, player`y, player`vx, player`vy, player`grounded, player`hp, player`invulnerable
      ensures Valid()
      ensures Body() == r.(width := player.width, height := player.height)
      ensures player.Vital() == if spiked then Hurt(old(player.Vital()), 10, rules.invulnerableFrames)
                                else old(player.Vital())
    {
      player.x, player.y, player.vx, player.vy, player.grounded := r.x, r.y, r.vx, r.vy, r.grounded;
      if spiked {
        player.TakeDamage(10, rules.invulnerableFrames);
      }
    }
  }
}
