/** The block and item registry, the mob table and the physics constants of
    elements.js. elements.java repeats the same BLOCKS, ITEMS and BLOCK_DEF
    tables unchanged, so they are stated once, here. */
module Elements {

  datatype Option<T> = None | Some(value: T)

  // ---------------------------------------------------------------------
  // Physics constants (pixels; the simulation keeps positions in pixels)

  const TILE_SIZE: int := 40
  const GRAVITY: real := 0.5
  const TERMINAL_VELOCITY: int := 15
  const JUMP_FORCE: int := -11
  const INTERACTION_RANGE: int := 5 * TILE_SIZE

  // ---------------------------------------------------------------------
  // Block ids

  const AIR: int := 0
  const DIRT: int := 1
  const GRASS: int := 2
  const STONE: int := 3
  const WOOD: int := 4
  const LEAVES: int := 5
  const BRICK: int := 6
  const SAND: int := 7
  const SNOW: int := 8
  const COAL_ORE: int := 9
  const GOLD_ORE: int := 10
  const DIAMOND_ORE: int := 11
  const TNT: int := 12
  const GLASS: int := 13
  const PLANK: int := 14
  const SPIKE: int := 15
  const GOAL: int := 99
  const WATER: int := 20
  const LAVA: int := 21
  const ICE: int := 22
  const BOUNCE: int := 23

  // Item ids

  const SWORD: int := 100
  const WAND: int := 101
  const AXE: int := 102
  const SPEAR: int := 103

  predicate IsBlockId(id: int) {
    (0 <= id <= 15) || (20 <= id <= 23) || id == GOAL
  }

  predicate IsItemId(id: int) {
    id == SWORD || id == WAND || id == AXE || id == SPEAR
  }

  // ---------------------------------------------------------------------
  // BLOCK_DEF: the properties the simulation reads. Colours and other
  // drawing-only keys are not represented; ICE's friction and BOUNCE's
  // bounce factor feed only the floating-point movement code.

  datatype BlockDef = BlockDef(
    hard: bool,         // needs several hits: durability tracked
    maxHp: nat,         // starting durability of a hard block (0 when absent)
    value: nat,         // gold paid when cleared (0 when absent)
    fluid: bool,
    alpha: bool,        // translucent: passable and can be built over
    unbreakable: bool,
    crumble: bool,
    spike: bool,
    tool: bool)

  /** An entry with none of the keys set: also what `BLOCK_DEF[b] || {}` yields. */
  const PLAIN: BlockDef := BlockDef(false, 0, 0, false, false, false, false, false, false)

  /** `BLOCK_DEF[id]`: None where the table has no entry (AIR, unknown ids). */
  function Def(id: int): Option<BlockDef> {
    if id == DIRT || id == GRASS || id == WOOD || id == BRICK || id == SAND || id == SNOW
       || id == TNT || id == ICE || id == BOUNCE then Some(PLAIN)
    else if id == STONE then Some(PLAIN.(hard := true, maxHp := 3))
    else if id == COAL_ORE then Some(PLAIN.(hard := true, maxHp := 3, value := 5))
    else if id == GOLD_ORE then Some(PLAIN.(hard := true, maxHp := 3, value := 15))
    else if id == DIAMOND_ORE then Some(PLAIN.(hard := true, maxHp := 3, value := 50))
    else if id == LEAVES || id == GLASS then Some(PLAIN.(alpha := true))
    else if id == PLANK then Some(PLAIN.(crumble := true))
    else if id == SPIKE then Some(PLAIN.(spike := true))
    else if id == WATER || id == LAVA then Some(PLAIN.(alpha := true, fluid := true))
    else if id == GOAL then Some(PLAIN.(unbreakable := true))
    else if IsItemId(id) then Some(PLAIN.(tool := true))
    else None
  }

  /** `BLOCK_DEF[id] || {}`: a missing entry reads as having no properties. */
  function Props(id: int): BlockDef {
    match Def(id)
    case Some(d) => d
    case None => PLAIN
  }

  predicate Hard(id: int) { Props(id).hard }
  predicate Fluid(id: int) { Props(id).fluid }
  predicate Alpha(id: int) { Props(id).alpha }

  /** The durability a cell gets when its block is laid down: the block's
      maxHp when it is hard, 1 otherwise. */
  function InitialDurability(id: int): (d: int)
    ensures d >= 1
    ensures Hard(id) ==> d == Props(id).maxHp
  {
    if Hard(id) then Props(id).maxHp else 1
  }

  // ---------------------------------------------------------------------
  // Registry facts

  lemma HardBlocksAreTheStones(id: int)
    ensures Hard(id) <==> id == STONE || id == COAL_ORE || id == GOLD_ORE || id == DIAMOND_ORE
    ensures Hard(id) ==> Props(id).maxHp == 3
  {
  }

  lemma OreValues(id: int)
    ensures Props(id).value == (if id == COAL_ORE then 5 else if id == GOLD_ORE then 15
                                else if id == DIAMOND_ORE then 50 else 0)
  {
  }

  lemma FluidsAndTranslucents(id: int)
    ensures Fluid(id) <==> id == WATER || id == LAVA
    ensures Alpha(id) <==> id == LEAVES || id == GLASS || id == WATER || id == LAVA
  {
  }

  lemma GoalIsTheOnlyUnbreakable(id: int)
    ensures Props(id).unbreakable <==> id == GOAL
    ensures Def(AIR).None?
  {
  }

  /** Every registered id is a block id below 100 or an item id in 100..103,
      which is what the placement guard `selected >= 100` relies on. */
  lemma BlockIdsBelowItems(id: int)
    ensures IsBlockId(id) ==> 0 <= id < 100
    ensures IsItemId(id) <==> 100 <= id <= 103
    ensures Def(id).Some? ==> IsBlockId(id) || IsItemId(id)
    ensures Def(id).Some? && Def(id).value.tool <==> IsItemId(id)
  {
  }

  lemma InteractionRangeIsFiveTiles()
    ensures INTERACTION_RANGE == 200
  {
  }

  // ---------------------------------------------------------------------
  // MOB_TYPES

  datatype Archetype = Slime | Rat | Zombie | Bat | Spider | Boss

  /** One MOB_TYPES entry; `minLevel` is absent for the bosses. Speeds are
      fractional in the table and feed only the movement code. */
  datatype MobStats = MobStats(
    width: int, height: int, speed: real, jump: int, hp: int, reward: int,
    archetype: Archetype, fly: bool, minLevel: Option<nat>)

  const MOB_TYPES: map<string, MobStats> := map[
    "SLIME" := MobStats(30, 20, 2.0, -8, 30, 10, Slime, false, Some(1)),
    "RAT" := MobStats(25, 15, 3.0, -7, 15, 5, Rat, false, Some(1)),
    "SNAIL" := MobStats(20, 20, 0.5, -2, 20, 5, Slime, false, Some(1)),
    "ZOMBIE" := MobStats(28, 38, 1.5, -10, 50, 20, Zombie, false, Some(1)),
    "BAT" := MobStats(20, 20, 3.0, 0, 20, 15, Bat, true, Some(3)),
    "SLIME_BLUE" := MobStats(35, 25, 2.5, -9, 50, 20, Slime, false, Some(3)),
    "SKELETON" := MobStats(26, 38, 2.0, -10, 40, 25, Zombie, false, Some(3)),
    "GOBLIN" := MobStats(24, 34, 3.5, -11, 45, 30, Zombie, false, Some(3)),
    "SPIDER" := MobStats(35, 20, 2.8, -9, 35, 25, Spider, false, Some(3)),
    "SLIME_RED" := MobStats(40, 30, 3.0, -10, 80, 40, Slime, false, Some(6)),
    "ZOMBIE_TANK" := MobStats(35, 45, 1.0, -8, 150, 50, Zombie, false, Some(6)),
    "BAT_VAMPIRE" := MobStats(25, 25, 4.0, 0, 60, 45, Bat, true, Some(6)),
    "GHOST" := MobStats(28, 38, 1.5, 0, 50, 40, Bat, true, Some(6)),
    "WOLF" := MobStats(40, 25, 4.5, -10, 70, 50, Zombie, false, Some(6)),
    "GOLEM_STONE" := MobStats(40, 50, 1.0, -12, 200, 80, Zombie, false, Some(9)),
    "SPIRIT_FIRE" := MobStats(20, 30, 3.0, 0, 80, 60, Bat, true, Some(9)),
    "SKELETON_WARRIOR" := MobStats(28, 38, 2.5, -10, 100, 70, Zombie, false, Some(9)),
    "WITCH" := MobStats(26, 40, 2.0, -8, 90, 90, Zombie, false, Some(9)),
    "GOLEM_IRON" := MobStats(45, 55, 1.2, -13, 300, 120, Zombie, false, Some(12)),
    "SPIRIT_SHADOW" := MobStats(25, 35, 4.0, 0, 120, 100, Bat, true, Some(12)),
    "SLIME_KING_MINI" := MobStats(50, 40, 4.0, -12, 200, 150, Slime, false, Some(12)),
    "DRAGON_WHELP" := MobStats(40, 30, 3.5, 0, 150, 200, Bat, true, Some(12)),
    "BOSS_SLIME" := MobStats(90, 90, 3.0, -14, 600, 500, Boss, false, None),
    "BOSS_ZOMBIE" := MobStats(60, 100, 4.0, -12, 800, 600, Boss, false, None),
    "BOSS_VOID" := MobStats(100, 120, 2.0, -10, 1200, 1000, Boss, false, None)
  ]

  /** Flying and the 'bat' archetype go together, and flyers never jump: the
      AI picks the flying branch by archetype while gravity is skipped by `fly`. */
  lemma FlyersAreBats(k: string)
    requires k in MOB_TYPES
    ensures MOB_TYPES[k].fly <==> MOB_TYPES[k].archetype == Bat
    ensures MOB_TYPES[k].fly ==> MOB_TYPES[k].jump == 0
  {
  }

  /** Bosses carry no minLevel, so the random spawner (which keeps entries
      with a minLevel not above the level) can only place the others. */
  lemma BossesHaveNoMinLevel(k: string)
    requires k in MOB_TYPES
    ensures MOB_TYPES[k].archetype == Boss <==> MOB_TYPES[k].minLevel.None?
    ensures MOB_TYPES[k].minLevel.Some? ==> MOB_TYPES[k].minLevel.value >= 1
  {
  }
}
