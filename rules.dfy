/** The constants in which game.js and game.java differ. The two files run
    the same simulation with different tuning and a few extra mechanics in
    game.java (double jump, water flow, level-scaled mob health, no combo
    reward); `JS_RULES` and `JAVA_RULES` are the two instances. */
module Rules {

  /** An explosion's reach, derived from its radius r: the loops run over the
      square of half-side `reach` = ceil(r); a cell at integer offset (dx, dy)
      is carved when dx*dx + dy*dy <= `limit` = floor(r*r) (exact, because the
      left side is an integer); a mob or the player at pixel offset (px, py)
      from the centre tile's corner is hit when px*px + py*py < `hitPx2`, which
      is 1600 * (r + 1)^2, the `dist < radius + 1` test scaled to pixels. */
  datatype Blast = Blast(reach: nat, limit: nat, hitPx2: nat)

  /** TNT blasts: radius 4 in both files. */
  const TNT_BLAST: Blast := Blast(4, 16, 40000)

  /** Wand bolt impacts: radius 1.5 in game.js, 1.2 in game.java. */
  const JS_BOLT_BLAST: Blast := Blast(2, 2, 10000)
  const JAVA_BOLT_BLAST: Blast := Blast(2, 1, 7744)

  datatype RuleSet = RuleSet(
    crumbleFuse: nat,         // ticks a stood-on plank lasts
    tntFuse: nat,             // ticks from igniting a TNT block to its blast
    invulnerableFrames: nat,  // set by takeDamage
    levelBonus: nat,          // gold paid by completeLevel
    weaponRecovery: nat,      // actionTimer after a weapon click
    swordCooldown: nat,       // attackTimer set by performAttack (sword, spear)
    axeCooldown: nat,         // attackTimer set by performAttack (axe)
    wandCooldown: nat,        // attackTimer set by shootWand
    comboRewards: bool,       // killMob pays a combo bonus
    despawnMargin: nat,       // mobs below worldHeight*TILE_SIZE + this are dropped
    mobHpPerLevel: nat,       // spawnMob adds this times the level to hp
    blastMarksHurt: bool,     // explode sets hurtTimer on the mobs it hits
    doubleJump: bool,
    waterFlow: bool,
    boltBlast: Blast)

  const JS_RULES: RuleSet := RuleSet(
    crumbleFuse := 25, tntFuse := 100, invulnerableFrames := 30, levelBonus := 200,
    weaponRecovery := 12, swordCooldown := 15, axeCooldown := 25, wandCooldown := 20,
    comboRewards := true, despawnMargin := 200, mobHpPerLevel := 0, blastMarksHurt := true,
    doubleJump := false, waterFlow := false, boltBlast := JS_BOLT_BLAST)

  const JAVA_RULES: RuleSet := RuleSet(
    crumbleFuse := 30, tntFuse := 120, invulnerableFrames := 15, levelBonus := 100,
    weaponRecovery := 10, swordCooldown := 8, axeCooldown := 12, wandCooldown := 12,
    comboRewards := false, despawnMargin := 100, mobHpPerLevel := 10, blastMarksHurt := false,
    doubleJump := true, waterFlow := true, boltBlast := JAVA_BOLT_BLAST)
}
