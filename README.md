# blockhiker: the tile simulation, modelled in Dafny

blockhiker is a side-scrolling block game. It ships in two variants, `game.js` and
`game.java` (both JavaScript), each with its own registry file (`elements.js`,
`elements.java`). This project models the part of the game that works on whole
numbers:

- the world grid and its durability grid (`getBlock` / `setBlock`);
- the mine-and-build click (`handleInteraction`) with its cooldowns, reach, costs and
  durability;
- the terrain carve of `explode`, and which mobs and whether the player a blast catches;
- the axis-separated tile collision (`checkEntityCollision`), the overlap test and the
  mobs' wall probe;
- the crumble-timer and TNT-fuse lists, ticked by reverse loops that splice expired entries;
- the mob death sweep, with `killMob`'s combo reward (game.js) or the plain bounty
  (game.java);
- the player's state machines: `takeDamage`, the double jump of game.java, landing, the dash,
  the cooldowns, `completeLevel`, the shop (`buyItem`), `addGold` and `selectSlot`;
- the water-fall pass of game.java;
- the block, item and mob registries of both element files.

The two game files run the same logic with different constants. Module `Rules` holds
those constants as a `RuleSet`, with the instances `JS_RULES` and `JAVA_RULES`; module
`Simulation`'s class `Game` takes one of them. `window.DASH_COST` is defined in no file
of the repository, so it is a constructor parameter (`dashCost`). An undefined value is
`None`, against which the dash never fires.

Positions and velocities are whole pixels. TILE_SIZE is 40, so the tile under a pixel is
a floor division by 40. The source takes the far edge of a box as `x + width - 0.01`;
on whole pixels that is the last pixel, `x + width - 1`. An explosion's radius becomes a
`Blast`: the loop reach `ceil(r)`, the carve bound `floor(r*r)` and the catch distance in
squared pixels. Lemma `BlastsMatchRadii` shows that each conversion is exact for the
three radii the game uses.

Mining a hard block follows the code. The chipping hits are free and only the clearing
hit costs 1 gold, so a full-strength stone costs 1 gold in all (`HardBlockFallsOnLastHit`).

Modules, one file each:

- `Elements` (elements.dfy): the ids, BLOCK_DEF and MOB_TYPES of elements.js. elements.java
  repeats BLOCKS, ITEMS and BLOCK_DEF unchanged.
- `VariantElements` (variant_elements.dfy): the six-entry MOB_TYPES and the reassignable
  JUMP_FORCE of elements.java.
- `Rules`, `Grids`, `Collision`, `Timers`, `Mobs`, `Players`, `Shop`, `Interaction`,
  `Explosion`, `WaterFlow`: the rules, each as value-level functions with lemmas, plus the
  `Player` class.
- `Simulation` (game.dfy): class `Game`. Its fields are updated in place by methods proved
  against those functions.

## Model

| member | source | states |
|---|---|---|
| Elements.InitialDurability | game.js:301-302 | a laid-down block starts at its maxHp when hard, else 1; never below 1 |
| Elements.HardBlocksAreTheStones | elements.js:23-31 | the hard blocks are exactly stone and the three ores, each with maxHp 3 |
| Elements.OreValues | elements.js:29-31 | coal, gold and diamond ore are worth 5, 15 and 50; every other id is worth nothing |
| Elements.FluidsAndTranslucents | elements.js:25-37 | water and lava are exactly the fluids; leaves, glass, water and lava exactly the translucent blocks |
| Elements.GoalIsTheOnlyUnbreakable | elements.js:20-40 | the goal is the only unbreakable entry, and AIR has no entry |
| Elements.BlockIdsBelowItems | elements.js:11-18 | block ids lie below 100 and item ids are 100-103, and only items are tools, which the `selected >= 100` guard relies on |
| Elements.InteractionRangeIsFiveTiles | elements.js:5-9 | the interaction range is 5 tiles, 200 pixels |
| Elements.FlyersAreBats | elements.js:48-85 | a mob flies exactly when it has the bat archetype, and flyers have jump 0 |
| Elements.BossesHaveNoMinLevel | elements.js:48-85 | exactly the bosses lack a minLevel; every other entry has minLevel at least 1 |
| VariantElements.BossKey | game.java:229-235 | the boss game.java spawns is registered and a boss: zombie at level 6 mod 9, void at 0 mod 9, slime otherwise |
| VariantElements.SpawnedKeysAreRegistered | elements.java:65-72 | the reduced table holds exactly the six keys, covering every key game.java spawns |
| VariantElements.BatIsTheOnlyFlyer | elements.java:66-71 | in the reduced table only BAT flies, with jump 0 |
| VariantElements.VariantAgreesWithFullTable | elements.java:65-72 | each reduced entry equals the elements.js entry of the same name, minLevel aside |
| Grids.SetBlock | game.js:745-749 | a write changes exactly the one in-grid cell and keeps the shape; off the grid it changes nothing |
| Grids.ReadAfterWrite | game.js:738-749 | reading back a write gives the new id in the grid and AIR off it, and every other cell as before |
| Collision.SpanHoldsPixels | game.js:765-768 | the tile range scanned for a body covers every pixel of the body |
| Collision.BlockingTiles | game.js:772-783 | the tiles that stop a body are exactly the registered non-fluid, non-translucent ids other than AIR, GOAL and SPIKE |
| Collision.Snap | game.js:784-797 | the moving edge ends flush with the hit tile and that velocity is zeroed; landing from above grounds the body; nothing else changes |
| Collision.SnapLeavesTheTile | game.js:784-797 | after a snap in the direction of motion the body no longer covers the tile it hit |
| Collision.Resolve | game.js:764-802 | row-major scan: every tile before the hit is non-blocking, the hit is the first blocking tile under the body, at most one snap, and the player is spiked exactly when a spike lies before the hit |
| Collision.OverlapMeansSharedPixel | game.js:751-754 | two boxes of positive size overlap exactly when some pixel lies in both |
| Collision.PlacementGuardIsOverlap | game.js:905-911 | the tile-unit self-trap guard is the pixel overlap test between the tile and the player |
| Collision.ProbeSeesEveryWall | game.js:756-762 | the wall probe fires on every blocking tile, and exactly on ids other than air, water and lava; never off the grid |
| Timers.TickSplits | game.js:486-494 | after a tick each timer has either survived, decremented and with time at least 1, or expired; nothing else is in either list |
| Timers.CountdownKeepsOnePerTile | game.js:478-494 | ticking keeps at most one timer per tile, and survivors keep their tiles |
| Timers.Arm | game.js:478-483 | arming adds a fresh timer on the tile only when none is there yet |
| Timers.ArmKeepsOnePerTile | game.js:481-482 | arming keeps at most one timer per tile and leaves one on the tile |
| Timers.ClearCellsEffect | game.js:489-490 | after the crumble tick the cell of every expired timer is AIR and every other cell is unchanged |
| Explosion.CarveReads | game.js:989-1008 | each cell after a blast: unchanged when the centre is the goal or off the grid, else the carved value |
| Explosion.CarveEffects | game.js:989-1008 | a goal centre changes nothing; cells outside the disc stay; brick and goal survive off-centre; the centre and other disc cells become AIR; changes are only to AIR |
| Explosion.CarveIsIdempotent | game.js:997-1008 | a second blast at the same place changes nothing more |
| Explosion.CarveCommutes | game.js:561-569 | two blasts carve the same terrain in either order |
| Explosion.CarveKeepsDurable | game.js:997-1008 | a blast keeps every hard cell's durability in range |
| Explosion.BlastShapes | game.js:997-1000 | radius 1.5 takes the diagonals, radius 1.2 (game.java) only the plus sign, and radius 4 reaches (4,0) and (2,3) but not (3,3) |
| Explosion.BlastsMatchRadii | game.js:997-1014 | the integer reach, carve bound and catch distance agree with ceil(r), `d <= r*r` and `dist < r + 1` for r = 4, 1.5, 1.2 |
| Explosion.BlowMobs | game.js:1010-1021 | a blast keeps the mob count; mobs outside its reach stay as they were; each caught mob loses the harm once and is thrown up; no mob's hp rises |
| Explosion.BlowPlayer | game.js:1023-1033 | the player is hurt only when caught, with hurtPlayer set, no goal at the centre and not invulnerable; hp never rises |
| Explosion.OneHurtPerTick | game.js:561-569 | however many fuses go off in one tick, the player is hurt at most once, by one of them |
| Interaction.OutOfReachIsDistance | game.js:842-856 | the integer reach test is the source's `hypot(centre - mouse) > INTERACTION_RANGE` |
| Interaction.PlaceCost | game.js:919-922 | building costs between 1 and 30 gold: water 5, lava 30, TNT 10, else 1 |
| Interaction.MineEffects | game.js:860-899 | a mining click touches only its tile, only to AIR, never the goal; it clears exactly lit TNT or a paid hit; gold moves only on a paid hit, by value - 1; a chip takes exactly one durability point; only TNT arms a fuse |
| Interaction.HardBlockFallsOnLastHit | game.js:874-898 | a hard block of durability d falls on the d-th click; the first d-1 are free and the last costs 1 gold plus the ore value |
| Interaction.PlaceEffects | game.js:902-936 | a build pays exactly when the selected block appears, and exactly its cost; only over air or a translucent block, never an item, never on the player, at full durability; a refused build changes nothing |
| Interaction.InteractGates | game.js:835-857 | nothing happens during the action cooldown; a weapon click ignores the distance and the world and needs the attack ready; an out-of-reach tool click changes nothing |
| Interaction.InteractKeepsGold | game.js:884-925 | a click never drives gold below zero |
| Interaction.MineKeepsDurable | game.js:874-880 | mining keeps every hard cell's durability between 1 and its maximum |
| Interaction.PlaceKeepsDurable | game.js:928-930 | building keeps every hard cell's durability between 1 and its maximum |
| Interaction.InteractKeepsDurable | game.js:834-937 | every click keeps every hard cell's durability between 1 and its maximum |
| Interaction.OffGridPlacementCharges | game.js:903-930 | a reachable right click on column -1 is charged and builds nothing as written; the corrected build refuses it |
| Mobs.NewMob | game.java:246-258 | a spawned mob is at rest with full health, hp = maxHp = table hp + 10 per level (game.js adds nothing), and the table's size and reward |
| Mobs.LivingLives | game.js:643-648 | the survivors of the sweep are mobs of the list that are neither fallen out nor dead |
| Mobs.SweepKeepsTheLiving | game.js:643-648 | the reverse death loop keeps exactly the living mobs, in their order |
| Mobs.SweepPaysBounty | game.java:514-526 | game.java pays each slain mob's reward once, and nothing for mobs that fell out of the world |
| Mobs.SweepPaysComboBounty | game.js:713-733 | game.js: k kills raise the combo by k, restart its timer at 120, and pay the rewards plus floor(1.5 * c) for each combo count c reached |
| Mobs.SweepNeverCharges | game.js:717-722 | a sweep never takes gold and keeps the combo non-negative |
| Mobs.SweepIsIdempotent | game.js:643-648 | a second sweep finds nothing to remove or pay |
| Mobs.AllLivingSweepIsIdle | game.js:643-648 | a sweep over living mobs changes nothing |
| Mobs.ComboBonusIsFloor | game.js:719 | the integer combo bonus equals `Math.floor(combo * 1.5)` for every combo count |
| Players.Hurt | game.js:806-809 | takeDamage does nothing while invulnerable; otherwise hp drops by the amount and the window opens |
| Players.HitsAreSpacedByFrames | game.js:806-809 | after a hit every hit in the next frames-1 ticks is absorbed, and after `frames` ticks the next lands |
| Players.CoolForCounts | game.js:400 | n ticks take n frames off the invulnerability window, down to 0, and leave hp alone |
| Players.SecondHitIsAbsorbed | game.js:806-809 | two hits in the same tick count once |
| Players.AirJump | game.java:51-68 | the air jump fires only out of water, off the ground and with a jump left; it sets vy to the force, jumps to 2 and the spin to 720 |
| Players.AirJumpOnce | game.java:57-61 | a second air jump in the same airtime changes nothing |
| Players.ClampVxBounds | game.java:336-338 | the clamped speed lies within [-moveSpeed, moveSpeed], is 0 or at least 0.1 in size, leaves speeds already in range alone, and is idempotent |
| Players.Player.constructor | game.js:33-51 | the starting player: 28 by 38, 100 hp, no gold, speed 6, damage 15, full stamina, no tools |
| Players.Player.TakeDamage | game.js:806-809 | hp and invulnerability change as Hurt says, and nothing else changes |
| Players.Player.AddGold | game.js:1085-1089 | gold grows by exactly the amount |
| Players.Player.HandleJump | game.java:51-68 | vy, jumps and spin change as AirJump says |
| Players.Player.GroundJump | game.js:464-475 | in water the player strokes up at vy = -3; out of water and grounded, the player leaps with the given power, leaves the ground and has used one jump; in the air nothing changes |
| Players.Player.Land | game.java:399-402 | a grounded player gets both jumps back and stops spinning |
| Players.Player.Dash | game.js:447-457 | with stamina above the cost and no dash running: 20 pixels per tick in the facing direction, cost paid, 30-tick dash timer, 10 invulnerable frames; otherwise nothing |
| Players.Player.StartAttack | game.js:846-853 | with the attack ready, the weapon cooldown and the click recovery start; otherwise nothing |
| Players.Player.StartAction | game.js:857 | a tool click sets the action cooldown |
| Players.Player.Refit | game.js:149-156 | the player's gold, health, upgrades and tool flags become the purchase's |
| Players.Player.Recover | game.js:400 | invulnerability runs down by one frame per tick |
| Players.Player.CoolDown | game.js:511-512 | the attack and action cooldowns, and game.js's dash timer (game.js:458), each drop by one while positive |
| Shop.BuyPays | game.js:144-149 | short of gold, or owning the tool, nothing changes; otherwise exactly the price is taken; gold never goes negative |
| Shop.ToolBoughtOnce | game.js:145-147 | after buying a tool the player owns it, and buying it again changes nothing |
| Shop.BuyKeepsInvariants | game.js:150-156 | purchases keep gold non-negative and hp within maxHp, and keep each owned tool in the inventory exactly once |
| Shop.HealIsCapped | game.js:150 | a potion heals 50 but never past maxHp |
| WaterFlow.PassSettles | game.java:299-308 | the bottom-up pass leaves every cell as the per-column reference says: water falls by one cell when it has air, or falling water, below it |
| WaterFlow.WaterDropsOneCell | game.java:300-307 | water over air ends one cell lower; non-water, non-air cells stay; water never moves more than one row |
| WaterFlow.PassOnlyMovesWater | game.java:302-305 | the pass keeps the grid's shape and writes only water and air |
| WaterFlow.RestingWaterStays | game.java:300-307 | a grid where no water has air below it is left unchanged |
| WaterFlow.PassKeepsCounts | game.java:302-305 | the pass keeps the number of cells holding each id, water included |
| WaterFlow.PassKeepsDurable | game.java:302-305 | the pass keeps every hard cell's durability in range |
| WaterFlow.WaterPass | game.java:300-307 | the nested loops compute the pass |
| Simulation.StartingInventoryHasNoTools | game.js:56-59 | the starting inventory holds no shop tool |
| Simulation.StartingDurability | game.js:301-302 | the durability grid has the world's shape and each cell's starting durability, so every hard cell is in range |
| Simulation.HardBlocksMaxHp | game.js:302 | starting durabilities put every hard cell in range |
| Simulation.CrumbleLoop | game.js:486-494 | the reverse splice loop leaves the ticked survivors and clears the cells of the expired timers |
| Simulation.DeathLoop | game.js:643-648 | the reverse splice loop keeps exactly the living mobs and settles the counters as the sweep does |
| Simulation.CompletionPaysOnce | game.js:824-827 | completing a level opens the shop and pays the bonus once; completing again pays nothing |
| Simulation.ComboExpires | game.js:401 | a combo is held for comboTimer ticks and is reset on the tick after |
| Simulation.Game.constructor | game.js:296-306 | a new game on a generated level: a fresh player (0 gold, 100 hp, no tools) at column 5 and the given start height, durability laid down from the world, no timers or mobs, the starting inventory with slot 0, combo and clock at 0, play state |
| Simulation.Game.HandleInteraction | game.js:834-937 | the world, durability, fuses, gold and cooldowns change as the click function says, and all invariants hold |
| Simulation.Game.ToolClick | game.js:856-858 | a tool click that passed the gates starts the tool recovery and uses the tool on the tile under the mouse |
| Simulation.Game.ApplyTool | game.js:859-902 | the left button mines and the right button builds |
| Simulation.Game.MineTile | game.js:860-899 | the grids, fuses and gold change as Mine says |
| Simulation.Game.ClearTile | game.js:884-895 | a paid hit takes 1 gold, pays back the value and clears the tile |
| Simulation.Game.BuildTile | game.js:902-936 | the grids and gold change as the corrected Place says |
| Simulation.Game.Explode | game.js:989-1034 | world, mobs and the player's vitals change as Blow says |
| Simulation.Game.CarveWorld | game.js:992-1008 | the nested loops carve the disc as Carve says |
| Simulation.Game.HarmMobs | game.js:1010-1021 | every mob is harmed in place as BlastMob says |
| Simulation.Game.TickTnts | game.js:561-569 | the fuses are ticked, and the expired ones go off in the order the reverse loop meets them |
| Simulation.Game.BlowTnt | game.js:565-567 | one expired fuse explodes after the ones before it |
| Simulation.Game.TickCrumbles | game.js:486-494 | crumble timers are ticked and their expired cells cleared, keeping one timer per tile |
| Simulation.Game.ArmCrumble | game.js:478-483 | standing on a plank arms a timer under the feet unless one is there |
| Simulation.Game.FlowWater | game.java:299-308 | every fifth tick, in game.java only, the world takes one water pass |
| Simulation.Game.SpawnMob | game.js:367-378 | a registered type appends a fresh mob; an unknown type spawns nothing |
| Simulation.Game.CullMobs | game.js:643-648 | the mob list and the gold and combo counters become the sweep's |
| Simulation.Game.BeginTick | game.js:396-401 | the clock advances, invulnerability runs down and, in game.js, the combo timer runs down or resets the combo |
| Simulation.Game.CompleteLevel | game.js:824-827 | the state and gold change as Completion says |
| Simulation.Game.ReachGoal | game.js:534-537 | standing with the centre on the goal completes the level; otherwise nothing |
| Simulation.Game.CheckDeath | game.js:539-541 | the game is over once the player falls below the despawn line or has no health left |
| Simulation.Game.BuyItem | game.js:133-156 | the player and the inventory change as Buy says, keeping every invariant |
| Simulation.Game.SelectSlot | game.js:1097-1099 | an index inside the inventory is selected; any other is ignored |
| Simulation.Game.CollidePlayer | game.js:764-802 | the player moves as Resolve says, and a spike met costs one takeDamage(10) |
| Simulation.Game.MoveTo | game.js:778-797 | the resolved body is written back, and a spike hit goes through takeDamage |

## Left out

- Rendering, the HUD, toasts, particles, floating text, camera, screen shake, weather and
  audio: presentation only, with no effect on the simulated state.
- Save and load, `init`, `resize` and the input listeners: file and browser I/O. Key and
  mouse state reach the model as method arguments.
- `generateLevel`'s terrain, ponds and mob placement: they rely on noise and
  `Math.random`. The world grid is a constructor argument; the durability rule of
  game.js:302 is modelled, and so is game.java's boss choice (`BossKey`).
- `nextLevel` and `restartGame` (game.js:169-181): a `Game` has fixed grid dimensions,
  while a later level is wider (`150 + level * 10`). The model builds one `Game` per new
  game. It does not model moving on to a later level, which keeps the player's gold,
  upgrades and inventory. Nor does it model `restartGame`, which refills hp, resets gold and
  the inventory, and keeps the upgrades. The start height that `generateLevel` computes from the terrain is
  the constructor's `startY`.
- Players.ClampVxBounds: a stand-alone statement of game.java:336-338 over real speeds. The
  player's velocities are whole pixels and no method applies the clamp.
- The order of the steps inside `update`: each step is a method of `Game`, but there is no
  single method that runs a whole tick.
- Movement physics (gravity, friction, terminal velocity, ice and bounce factors, stamina
  and breath regeneration, lava and drowning damage): fractional arithmetic. Velocities
  reach the collision code as whole pixels.
- Mob AI, the mobs' contact damage, projectiles and melee hits: they depend on fractional
  speeds, `atan2`, `Math.random` and real damage multipliers. Only the attack cooldowns
  and the wand bolt's blast are modelled.
- Explosion.Blow: the damage falloff (`sqrt`) is a parameter (`Harm`, never negative, as
  the source clamps the damage factor at 0). Caught mobs are thrown up (`vy = -10`), but the
  player's push away from the centre (`vx`/`vy += pdx / pDist * 15`, `* 10` in game.java)
  is not modelled: it is fractional.
- Collision.Resolve: positions are whole pixels, so fractional positions are not covered.
- Players.Player.GroundJump: game.java's stroke toward the surface, `JUMP_FORCE * 0.5`
  (-5.5) when the cell above the head is air (game.java:346), is not modelled, because it
  is not a whole pixel. The stroke of -3 that game.js always uses, and game.java uses under
  a block, is modelled. The bounce-block jump power is the argument `power`.
- Simulation.Game.CollidePlayer: repeated spike tiles in one scan are one `TakeDamage`.
  This is exact, because the first hit opens a window of more than zero frames
  (`SecondHitIsAbsorbed`).
- Simulation.Game.CullMobs: only the death checks of the mob loop are modelled; the hurt
  timer countdown and movement before them are not. It sets the player's gold to the
  sweep's total instead of calling `addGold` per kill; the totals are the same.
- Simulation.Game.SpawnMob: game.java does not guard against an unknown key and would
  throw. The model spawns nothing in that case, as game.js does; game.java only ever
  passes registered keys (`SpawnedKeysAreRegistered`).
- Simulation.Game.TickTnts: game.js's flash toggle and game.java's spark particles are
  visual and not modelled.
- Simulation.Game.BuildTile: it refuses a tile outside the world before charging, unlike
  the source (see Findings).
- The boss HUD and `activeBoss`, `die()`'s menus and the shop button states: presentation
  state only.

## Findings

| source | as written | input that shows it | evidently intended | confidence | as-written member | corrected member |
|---|---|---|---|---|---|---|
| game.js:903-930 | a right click on a tile outside the world passes every guard, because `getBlock` reads AIR there; the cost is charged, but `setBlock` drops the write (and `worldHealth[ty]` is undefined when the row is off the grid). game.java:725-751 does the same | player at (0, 400), gold >= 1, DIRT selected, right click at world pixel (-20, 420): tile (-1, 10), within reach; 1 gold is taken and nothing is built | an off-grid tile is refused before anything is charged | not executed | Interaction.PlaceAsWritten, Interaction.OffGridPlacementCharges | Interaction.Place, Interaction.PlaceEffects |

`Interaction.OffGridPlacementCharges` proves the as-written behaviour on that input.
`Interaction.PlaceEffects` proves of the corrected `Place` that gold is paid exactly when
the selected block appears. `Simulation.Game.BuildTile` and `HandleInteraction` follow the
corrected `Place`.
