/** The reduced registry of elements.java: the same block and item tables as
    elements.js (module Elements), a six-entry mob table, and JUMP_FORCE
    declared with `let` instead of `const`. */
module VariantElements {
  import opened Elements

  /** The initial value of the reassignable `JUMP_FORCE`; nothing in the
      file reassigns it, and the game keeps it in a mutable field. */
  const INITIAL_JUMP_FORCE: int := -11

  const VARIANT_MOB_TYPES: map<string, MobStats> := map[
    "SLIME" := MobStats(30, 20, 2.0, -8, 30, 10, Slime, false, None),
    "ZOMBIE" := MobStats(28, 38, 1.5, -10, 50, 20, Zombie, false, None),
    "BAT" := MobStats(20, 20, 3.0, 0, 20, 15, Bat, true, None),
    "BOSS_SLIME" := MobStats(90, 90, 3.0, -14, 600, 500, Boss, false, None),
    "BOSS_ZOMBIE" := MobStats(60, 100, 4.0, -12, 800, 600, Boss, false, None),
    "BOSS_VOID" := MobStats(100, 120, 2.0, -10, 1200, 1000, Boss, false, None)
  ]

  /** The boss game.java spawns on a boss level: the level modulo 9 picks the
      slime, zombie or void boss, with the slime as the fallback. */
  function BossKey(level: nat): (k: string)
    ensures k in VARIANT_MOB_TYPES && VARIANT_MOB_TYPES[k].archetype == Boss
    ensures level % 9 == 6 ==> k == "BOSS_ZOMBIE"
    ensures level % 9 == 0 ==> k == "BOSS_VOID"
    ensures level % 9 != 6 && level % 9 != 0 ==> k == "BOSS_SLIME"
  {
    if level % 9 == 3 then "BOSS_SLIME"
    else if level % 9 == 6 then "BOSS_ZOMBIE"
    else if level % 9 == 0 then "BOSS_VOID"
    else "BOSS_SLIME"
  }

  /** The keys game.java passes to spawnMob: the three ordinary mobs and
      whichever boss BossKey picks. */
  lemma SpawnedKeysAreRegistered(level: nat)
    ensures VARIANT_MOB_TYPES.Keys
            == {"SLIME", "ZOMBIE", "BAT", "BOSS_SLIME", "BOSS_ZOMBIE", "BOSS_VOID"}
    ensures "SLIME" in VARIANT_MOB_TYPES && "ZOMBIE" in VARIANT_MOB_TYPES
    ensures "BAT" in VARIANT_MOB_TYPES && BossKey(level) in VARIANT_MOB_TYPES
  {
  }

  lemma BatIsTheOnlyFlyer(k: string)
    requires k in VARIANT_MOB_TYPES
    ensures VARIANT_MOB_TYPES[k].fly <==> k == "BAT"
    ensures VARIANT_MOB_TYPES[k].fly ==> VARIANT_MOB_TYPES[k].jump == 0
  {
  }

  /** Each entry equals the elements.js entry of the same name, apart from
      the minLevel key the reduced table leaves out. */
  lemma VariantAgreesWithFullTable(k: string)
    requires k in VARIANT_MOB_TYPES
    ensures k in MOB_TYPES
    ensures VARIANT_MOB_TYPES[k] == MOB_TYPES[k].(minLevel := None)
  {
  }
}
