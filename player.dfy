/** The player record and the rules that act on it alone: the
    takeDamage invulnerability gate, the air jump of game.java, landing, the
    dash of game.js, the per-tick cooldowns and game.java's velocity clamp. */
module Players {
  import opened Elements
  import opened Shop

  // ---------------------------------------------------------------------
  // takeDamage

  /** The two fields takeDamage reads and writes. */
  datatype Vitals = Vitals(hp: int, invulnerable: int)

  /** takeDamage: ignored while invulnerable; otherwise the amount comes off
      hp and the player becomes invulnerable for `frames` ticks. */
  function Hurt(v: Vitals, amount: int, frames: nat): (r: Vitals)
    ensures v.invulnerable > 0 ==> r == v
    ensures v.invulnerable <= 0 ==> r.hp == v.hp - amount && r.invulnerable == frames
  {
    if v.invulnerable > 0 then v else Vitals(v.hp - amount, frames)
  }

  /** The start of update: invulnerability runs down by one per tick. */
  function Cool(v: Vitals): Vitals {
    if v.invulnerable > 0 then v.(invulnerable := v.invulnerable - 1) else v
  }

  function CoolFor(v: Vitals, n: nat): Vitals
    decreases n
  {
    if n == 0 then v else CoolFor(Cool(v), n - 1)
  }

  /** After a hit lands, every further hit within the next `frames - 1` ticks
      is absorbed, and once `frames` ticks have passed the next hit lands
      again. */
  lemma {:induction false} HitsAreSpacedByFrames(v: Vitals, amount: int, frames: nat, n: nat, next: int)
    requires v.invulnerable <= 0 && frames > 0
    ensures n < frames ==> Hurt(CoolFor(Hurt(v, amount, frames), n), next, frames)
                           == CoolFor(Hurt(v, amount, frames), n)
    ensures Hurt(CoolFor(Hurt(v, amount, frames), frames), next, frames)
            == Vitals(v.hp - amount - next, frames)
  {
    CoolForCounts(Vitals(v.hp - amount, frames), n);
    CoolForCounts(Vitals(v.hp - amount, frames), frames);
  }

  lemma {:induction false} CoolForCounts(v: Vitals, n: nat)
    requires v.invulnerable >= 0
    ensures CoolFor(v, n) == Vitals(v.hp, if n < v.invulnerable then v.invulnerable - n else 0)
    decreases n
  {
    if n > 0 {
      CoolForCounts(Cool(v), n - 1);
    }
  }

  /** Two hits in the same tick count once. */
  lemma SecondHitIsAbsorbed(v: Vitals, a: int, b: int, frames: nat)
    requires frames > 0
    ensures Hurt(Hurt(v, a, frames), b, frames) == Hurt(v, a, frames)
  {
  }

  // ---------------------------------------------------------------------
  // Jumping

  /** handleJump (game.java): only in the air, out of water and with fewer
      than two jumps used, the player leaps with `force`, marks both jumps
      as used and starts a 720-degree spin. */
  datatype Leap = Leap(vy: int, jumps: int, spin: int)

  function AirJump(l: Leap, inWater: bool, grounded: bool, force: int): (r: Leap)
    ensures !inWater && !grounded && l.jumps < 2 ==> r == Leap(force, 2, 720)
    ensures inWater || grounded || l.jumps >= 2 ==> r == l
  {
    if !inWater && !grounded && l.jumps < 2 then Leap(force, 2, 720) else l
  }

  /** At most one air jump per airtime: a second press changes nothing. */
  lemma AirJumpOnce(l: Leap, inWater: bool, grounded: bool, force: int, again: int)
    ensures AirJump(AirJump(l, inWater, grounded, force), inWater, grounded, again)
            == AirJump(l, inWater, grounded, force)
  {
  }

  /** The upward stroke of a swimmer pressing jump. */
  const SWIM_STROKE: int := -3

  // ---------------------------------------------------------------------
  // The velocity clamp of game.java

  /** game.java clamps the horizontal speed to [-moveSpeed, moveSpeed] and
      snaps speeds below 0.1 in magnitude to zero. */
  function ClampVx(vx: real, moveSpeed: real): real {
    var v := if vx > moveSpeed then moveSpeed else vx;
    var w := if v < -moveSpeed then -moveSpeed else v;
    if -0.1 < w < 0.1 then 0.0 else w
  }

  lemma ClampVxBounds(vx: real, moveSpeed: real)
    requires moveSpeed >= 0.0
    ensures -moveSpeed <= ClampVx(vx, moveSpeed) <= moveSpeed
    ensures ClampVx(vx, moveSpeed) == 0.0 || ClampVx(vx, moveSpeed) <= -0.1 || ClampVx(vx, moveSpeed) >= 0.1
    ensures -moveSpeed <= vx <= moveSpeed && (vx <= -0.1 || vx >= 0.1) ==> ClampVx(vx, moveSpeed) == vx
    ensures ClampVx(ClampVx(vx, moveSpeed), moveSpeed) == ClampVx(vx, moveSpeed)
  {
  }

  // ---------------------------------------------------------------------
  // The player object

  /** Every field of the player, for stating what a method leaves alone. */
  datatype Snapshot = Snapshot(
    x: int, y: int, vx: int, vy: int, grounded: bool, facingRight: bool, inWater: bool,
    attackTimer: int, actionTimer: int, dashTimer: int, hp: int, maxHp: int, stamina: real,
    gold: int, speed: int, damage: int, invulnerable: int, jumps: int, spin: int,
    hasWand: bool, hasAxe: bool, hasSpear: bool)

  class Player {
    var x: int
    var y: int
    const width: int
    const height: int
    var vx: int
    var vy: int
    var grounded: bool
    var facingRight: bool
    var inWater: bool
    var attackTimer: int
    var actionTimer: int
    var dashTimer: int
    var hp: int
    var maxHp: int
    var stamina: real
    var gold: int
    var speed: int
    var damage: int
    var invulnerable: int
    var jumps: int
    var spin: int
    var hasWand: bool
    var hasAxe: bool
    var hasSpear: bool

    /** Gold is never negative, health never above its maximum, and the
        counters stay in range. */
    ghost predicate Valid()
      reads this
    {
      gold >= 0 && hp <= maxHp && invulnerable >= 0 && 0 <= jumps <= 2
      && attackTimer >= 0 && actionTimer >= 0
    }

    ghost function State(): Snapshot
      reads this
    {
      Snapshot(x, y, vx, vy, grounded, facingRight, inWater, attackTimer, actionTimer,
               dashTimer, hp, maxHp, stamina, gold, speed, damage, invulnerable, jumps, spin,
               hasWand, hasAxe, hasSpear)
    }

    function Vital(): Vitals
      reads this
    {
      Vitals(hp, invulnerable)
    }

    /** The player as the game starts: 28 by 38 pixels, 100 hp, no gold,
        speed 6, damage 15, full stamina, no tools bought. */
    constructor (x0: int, y0: int)
      ensures Valid() && width == 28 && height == 38
      ensures State() == Snapshot(x0, y0, 0, 0, false, true, false, 0, 0, 0, 100, 100, 100.0,
                                  0, 6, 15, 0, 0, 0, false, false, false)
    {
      x, y, width, height := x0, y0, 28, 38;
      vx, vy, grounded, facingRight, inWater := 0, 0, false, true, false;
      attackTimer, actionTimer, dashTimer := 0, 0, 0;
      hp, maxHp, stamina, gold, speed, damage := 100, 100, 100.0, 0, 6, 15;
      invulnerable, jumps, spin := 0, 0, 0;
      hasWand, hasAxe, hasSpear := false, false, false;
    }

    /** takeDamage with the rule set's invulnerability window. */
    method TakeDamage(amount: nat, frames: nat)
      requires Valid()
      modifies this`hp, this`invulnerable
      ensures Valid()
      ensures Vital() == Hurt(old(Vital()), amount, frames)
    {
      if invulnerable > 0 {
        return;
      }
      hp := hp - amount;
      invulnerable := frames;
    }

    /** addGold: `if (!amount) return` only skips the display update, so the
        gold always grows by the amount. */
    method AddGold(amount: int)
      requires Valid() && gold + amount >= 0
      modifies this`gold
      ensures Valid()
      ensures gold == old(gold) + amount
    {
      if amount == 0 {
        return;
      }
      gold := gold + amount;
    }

    /** handleJump of game.java with the current JUMP_FORCE. */
    method HandleJump(force: int)
      requires Valid()
      modifies this`vy, this`jumps, this`spin
      ensures Valid()
      ensures Leap(vy, jumps, spin) == AirJump(old(Leap(vy, jumps, spin)), inWater, grounded, force)
    {
      if inWater {
      } else if grounded {
      } else if jumps < 2 {
        vy := force;
        jumps := 2;
        spin := 720;
      }
    }

    /** The jump key of update: in water the player strokes upward at
        SWIM_STROKE; out of water and standing, the player leaps with
        `power` (JUMP_FORCE, scaled on a bounce block), leaves the ground
        and has used one jump; in the air nothing happens. */
    method GroundJump(power: int)
      requires Valid()
      modifies this`vy, this`grounded, this`jumps
      ensures Valid()
      ensures (vy, grounded, jumps) == if inWater then (SWIM_STROKE, old(grounded), old(jumps))
                                       else if old(grounded) then (power, false, 1)
                                       else old((vy, grounded, jumps))
    {
      if inWater {
        vy := SWIM_STROKE;
      } else if grounded {
        vy := power;
        grounded := false;
        jumps := 1;
      }
    }

    /** After the vertical collision pass: a grounded player has both jumps
        back and stops spinning. */
    method Land()
      requires Valid()
      modifies this`jumps, this`spin
      ensures Valid()
      ensures (jumps, spin) == if grounded then (0, 0) else old((jumps, spin))
    {
      if grounded {
        jumps := 0;
        spin := 0;
      }
    }

    /** The dash of game.js: with more stamina than the dash cost and no dash
        running, the player shoots off at 20 pixels per tick in the facing
        direction, pays the cost, and is invulnerable for 10 ticks. An
        undefined cost (`None`) compares false, so the dash never fires. */
    method Dash(cost: Option<real>)
      requires Valid()
      modifies this`vx, this`stamina, this`dashTimer, this`invulnerable
      ensures Valid()
      ensures (vx, stamina, dashTimer, invulnerable)
              == if cost.Some? && old(stamina) > cost.value && old(dashTimer) <= 0
                 then (if facingRight then 20 else -20, old(stamina) - cost.value, 30, 10)
                 else old((vx, stamina, dashTimer, invulnerable))
    {
      if cost.Some? && stamina > cost.value && dashTimer <= 0 {
        vx := if facingRight then 20 else -20;
        stamina := stamina - cost.value;
        dashTimer := 30;
        invulnerable := 10;
      }
    }

    /** A weapon click with the attack ready: the attack cooldown of the
        weapon starts, and so does the recovery before the next click. */
    method StartAttack(cooldown: nat, recovery: nat)
      requires Valid()
      modifies this`attackTimer, this`actionTimer
      ensures Valid()
      ensures (attackTimer, actionTimer) == if old(attackTimer) <= 0 then (cooldown, recovery)
                                            else old((attackTimer, actionTimer))
    {
      if attackTimer <= 0 {
        attackTimer := cooldown;
        actionTimer := recovery;
      }
    }

    /** A mining or building click starts the tool recovery. */
    method StartAction(recovery: nat)
      requires Valid()
      modifies this`actionTimer
      ensures Valid()
      ensures actionTimer == recovery
    {
      actionTimer := recovery;
    }

    /** The player's side of a purchase: gold, health, upgrades and tool
        flags become those of the purse. */
    method Refit(p: Purse)
      requires Valid() && p.gold >= 0 && p.hp <= p.maxHp
      modifies this`gold, this`hp, this`maxHp, this`damage, this`speed, this`hasWand, this`hasAxe,
               this`hasSpear
      ensures Valid()
      ensures gold == p.gold && hp == p.hp && maxHp == p.maxHp && damage == p.damage
      ensures speed == p.speed && hasWand == p.hasWand && hasAxe == p.hasAxe && hasSpear == p.hasSpear
    {
      gold, hp, maxHp, damage, speed := p.gold, p.hp, p.maxHp, p.damage, p.speed;
      hasWand, hasAxe, hasSpear := p.hasWand, p.hasAxe, p.hasSpear;
    }

    /** The invulnerability countdown at the start of update: one frame
        less while any are left. */
    method Recover()
      requires Valid()
      modifies this`invulnerable
      ensures Valid()
      ensures Vital() == Cool(old(Vital()))
    {
      if invulnerable > 0 { invulnerable := invulnerable - 1; }
    }

    /** The player's own per-tick countdowns: the dash, the attack and the
        action cooldowns each drop by one while positive. */
    method CoolDown()
      requires Valid()
      modifies this`dashTimer, this`attackTimer, this`actionTimer
      ensures Valid()
      ensures dashTimer == if old(dashTimer) > 0 then old(dashTimer) - 1 else old(dashTimer)
      ensures attackTimer == if old(attackTimer) > 0 then old(attackTimer) - 1 else 0
      ensures actionTimer == if old(actionTimer) > 0 then old(actionTimer) - 1 else 0
    {
      if dashTimer > 0 { dashTimer := dashTimer - 1; }
      if attackTimer > 0 { attackTimer := attackTimer - 1; }
      if actionTimer > 0 { actionTimer := actionTimer - 1; }
    }
  }
}
