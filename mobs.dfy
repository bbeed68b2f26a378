/** Mobs: creation from a registry entry (spawnMob) and the end-of-tick
    sweep that drops mobs fallen out of the world and pays for the slain
    ones (the death part of the mob loop in updateEntities / updateMobs,
    with killMob's combo reward in game.js). */
module Mobs {
  import opened Elements
  import opened Rules

  /** The part of a mob the simulation's rules read and write. Speed and
      jump strength feed only the movement AI, which is not modelled. */
  datatype Mob = Mob(x: int, y: int, width: int, height: int, vx: int, vy: int,
                     hp: int, maxHp: int, reward: int, archetype: Archetype,
                     fly: bool, hurtTimer: int, grounded: bool)

  /** spawnMob: a mob at rest at (x, y) with full health. game.java adds
      `perLevel * level` to the table's hp (JS_RULES has perLevel 0). */
  function NewMob(stats: MobStats, x: int, y: int, level: nat, perLevel: nat): (m: Mob)
    ensures m.hp == m.maxHp == stats.hp + perLevel * level
    ensures m.x == x && m.y == y && m.vx == 0 && m.vy == 0 && !m.grounded && m.hurtTimer == 0
    ensures m.width == stats.width && m.height == stats.height && m.reward == stats.reward
    ensures m.archetype == stats.archetype && m.fly == stats.fly
  {
    var hp := stats.hp + perLevel * level;
    Mob(x, y, stats.width, stats.height, 0, 0, hp, hp, stats.reward, stats.archetype,
        stats.fly, 0, false)
  }

  // ---------------------------------------------------------------------
  // The death sweep

  /** What the sweep does with one mob: a mob below `floor` pixels is
      dropped (checked first, so it pays nothing even when dead), a mob with
      no health left is slain, any other mob lives on. */
  datatype Fate = Despawned | Slain | Lives

  function FateOf(m: Mob, floor: int): Fate {
    if m.y > floor then Despawned else if m.hp <= 0 then Slain else Lives
  }

  /** The counters the sweep updates: the player's gold and, in game.js,
      the combo count and its timer. */
  datatype Tally = Tally(gold: int, combo: int, comboTimer: int)

  /** The combo bonus killMob pays for the combo-th kill: floor(combo * 1.5)
      (division by a positive constant rounds down). */
  function ComboBonus(combo: int): int {
    (3 * combo) / 2
  }

  /** killMob (game.js) or the inline payout of game.java. */
  function Reward(m: Mob, t: Tally, rules: RuleSet): Tally {
    if rules.comboRewards then
      var combo := t.combo + 1;
      Tally(t.gold + m.reward + ComboBonus(combo), combo, 120)
    else t.(gold := t.gold + m.reward)
  }

  function Settle(m: Mob, t: Tally, rules: RuleSet, floor: int): Tally {
    if FateOf(m, floor) == Slain then Reward(m, t, rules) else t
  }

  /** The sweep over `ms` as the loop runs it, from the last mob to the
      first: the mobs that live on, in their order, and the final counters. */
  function Sweep(ms: seq<Mob>, t: Tally, rules: RuleSet, floor: int): (seq<Mob>, Tally)
    decreases |ms|
  {
    if |ms| == 0 then ([], t)
    else
      var last := ms[|ms| - 1];
      var (rest, t') := Sweep(ms[..|ms| - 1], Settle(last, t, rules, floor), rules, floor);
      (rest + (if FateOf(last, floor) == Lives then [last] else []), t')
  }

  /** The survivors are exactly the mobs that live on, in their order. */
  function Living(ms: seq<Mob>, floor: int): seq<Mob> {
    if |ms| == 0 then []
    else Living(ms[..|ms| - 1], floor)
         + (if FateOf(ms[|ms| - 1], floor) == Lives then [ms[|ms| - 1]] else [])
  }

  /** The survivors are mobs of the list, and every one of them lives on. */
  lemma {:induction false} LivingLives(ms: seq<Mob>, floor: int)
    ensures forall m :: m in Living(ms, floor) ==> m in ms && FateOf(m, floor) == Lives
  {
    if |ms| > 0 {
      LivingLives(ms[..|ms| - 1], floor);
      assert forall m :: m in ms[..|ms| - 1] ==> m in ms;
    }
  }

  lemma {:induction false} SweepKeepsTheLiving(ms: seq<Mob>, t: Tally, rules: RuleSet, floor: int)
    ensures Sweep(ms, t, rules, floor).0 == Living(ms, floor)
    decreases |ms|
  {
    if |ms| > 0 {
      var last := ms[|ms| - 1];
      SweepKeepsTheLiving(ms[..|ms| - 1], Settle(last, t, rules, floor), rules, floor);
    }
  }

  /** The rewards of the slain mobs, without combo bonus. */
  function Bounty(ms: seq<Mob>, floor: int): int {
    if |ms| == 0 then 0
    else Bounty(ms[..|ms| - 1], floor)
         + (if FateOf(ms[|ms| - 1], floor) == Slain then ms[|ms| - 1].reward else 0)
  }

  function SlainCount(ms: seq<Mob>, floor: int): nat {
    if |ms| == 0 then 0
    else SlainCount(ms[..|ms| - 1], floor) + (if FateOf(ms[|ms| - 1], floor) == Slain then 1 else 0)
  }

  /** Sum of ComboBonus(c + 1), ..., ComboBonus(c + k). */
  function BonusRun(c: int, k: nat): int {
    if k == 0 then 0 else BonusRun(c, k - 1) + ComboBonus(c + k)
  }

  /** game.java: each slain mob pays its reward once, dropped mobs pay
      nothing. */
  lemma {:induction false} SweepPaysBounty(ms: seq<Mob>, t: Tally, floor: int)
    ensures Sweep(ms, t, JAVA_RULES, floor).1 == t.(gold := t.gold + Bounty(ms, floor))
    decreases |ms|
  {
    if |ms| > 0 {
      var last := ms[|ms| - 1];
      SweepPaysBounty(ms[..|ms| - 1], Settle(last, t, JAVA_RULES, floor), floor);
    }
  }

  /** game.js: k slain mobs raise the combo by k, restart its timer, and pay
      their rewards plus the bonuses for combo counts c+1 .. c+k. */
  lemma {:induction false} SweepPaysComboBounty(ms: seq<Mob>, t: Tally, floor: int)
    ensures var k := SlainCount(ms, floor);
            var r := Sweep(ms, t, JS_RULES, floor).1;
            r.gold == t.gold + Bounty(ms, floor) + BonusRun(t.combo, k)
            && r.combo == t.combo + k
            && (k > 0 ==> r.comboTimer == 120) && (k == 0 ==> r == t)
    decreases |ms|
  {
    if |ms| > 0 {
      var last := ms[|ms| - 1];
      var init := ms[..|ms| - 1];
      var t1 := Settle(last, t, JS_RULES, floor);
      SweepPaysComboBounty(init, t1, floor);
      if FateOf(last, floor) == Slain {
        BonusRunShift(t.combo, SlainCount(init, floor));
      }
    }
  }

  /** Starting one kill later shifts the run by its first bonus. */
  lemma {:induction false} BonusRunShift(c: int, k: nat)
    ensures BonusRun(c, k + 1) == ComboBonus(c + 1) + BonusRun(c + 1, k)
    decreases k
  {
    if k > 0 {
      BonusRunShift(c, k - 1);
    }
  }

  /** Slain mobs with non-negative rewards never cost gold, and the combo
      bonus is never negative for a non-negative combo count. */
  lemma {:induction false} SweepNeverCharges(ms: seq<Mob>, t: Tally, rules: RuleSet, floor: int)
    requires t.combo >= 0 && forall m :: m in ms ==> m.reward >= 0
    ensures Sweep(ms, t, rules, floor).1.gold >= t.gold
    ensures Sweep(ms, t, rules, floor).1.combo >= 0
    decreases |ms|
  {
    if |ms| > 0 {
      var last := ms[|ms| - 1];
      assert last in ms;
      assert forall m :: m in ms[..|ms| - 1] ==> m in ms;
      SweepNeverCharges(ms[..|ms| - 1], Settle(last, t, rules, floor), rules, floor);
    }
  }

  /** A second sweep finds nothing to do: every survivor lives on, so the
      list and the counters stay as they are. */
  lemma {:induction false} SweepIsIdempotent(ms: seq<Mob>, t: Tally, rules: RuleSet, floor: int)
    ensures var (once, t1) := Sweep(ms, t, rules, floor);
            Sweep(once, t1, rules, floor) == (once, t1)
  {
    SweepKeepsTheLiving(ms, t, rules, floor);
    LivingLives(ms, floor);
    AllLivingSweepIsIdle(Sweep(ms, t, rules, floor).0, Sweep(ms, t, rules, floor).1, rules, floor);
  }

  lemma {:induction false} AllLivingSweepIsIdle(ms: seq<Mob>, t: Tally, rules: RuleSet, floor: int)
    requires forall m :: m in ms ==> FateOf(m, floor) == Lives
    ensures Sweep(ms, t, rules, floor) == (ms, t)
    decreases |ms|
  {
    if |ms| > 0 {
      var last := ms[|ms| - 1];
      assert last in ms;
      assert forall m :: m in ms[..|ms| - 1] ==> m in ms;
      AllLivingSweepIsIdle(ms[..|ms| - 1], t, rules, floor);
      assert ms[..|ms| - 1] + [last] == ms;
    }
  }

  /** The integer bonus is the source's `Math.floor(combo * 1.5)`. */
  lemma ComboBonusIsFloor(c: int)
    ensures ComboBonus(c) == ((c as real) * 1.5).Floor
  {
  }

  /** The living of a list are the living of its parts, in order. */
  lemma {:induction false} LivingAppend(a: seq<Mob>, b: seq<Mob>, floor: int)
    ensures Living(a + b, floor) == Living(a, floor) + Living(b, floor)
    decreases |b|
  {
    if |b| == 0 {
      assert a + b == a;
    } else {
      assert (a + b)[..|a + b| - 1] == a + b[..|b| - 1];
      LivingAppend(a, b[..|b| - 1], floor);
    }
  }

  /** One step of the reverse death loop at index i: settling mob i and
      then sweeping the mobs before it is sweeping the prefix through i, and
      mob i joins the survivors after it exactly when it lives on. */
  lemma SweepStep(ms: seq<Mob>, i: int, t: Tally, rules: RuleSet, floor: int)
    requires 0 <= i < |ms|
    ensures Sweep(ms[..i + 1], t, rules, floor).1 == Sweep(ms[..i], Settle(ms[i], t, rules, floor), rules, floor).1
    ensures Living(ms[i..], floor)
            == (if FateOf(ms[i], floor) == Lives then [ms[i]] else []) + Living(ms[i + 1..], floor)
  {
    assert ms[..i + 1][..i] == ms[..i];
    assert ms[i..] == [ms[i]] + ms[i + 1..];
    LivingAppend([ms[i]], ms[i + 1..], floor);
    assert [ms[i]][..0] == [];
  }

  /** One turn of the reverse death loop with n mobs still to visit: the
      list holds the untouched prefix ms[..n] and the survivors of the rest,
      and the counters still to be settled are those of the prefix. Settling
      mob n - 1 and dropping it unless it lives on leaves the same picture
      with n - 1 mobs to visit. */
  lemma DeathStep(ms: seq<Mob>, t: Tally, n: int, living: seq<Mob>, r: Tally,
                  kept: seq<Mob>, settled: Tally, rules: RuleSet, floor: int)
    requires 0 < n <= |ms|
    requires living == ms[..n] + Living(ms[n..], floor)
    requires Sweep(ms, t, rules, floor).1 == Sweep(ms[..n], r, rules, floor).1
    requires settled == Settle(living[n - 1], r, rules, floor)
    requires kept == if FateOf(living[n - 1], floor) == Lives then living
                     else living[..n - 1] + living[n..]
    ensures kept == ms[..n - 1] + Living(ms[n - 1..], floor)
    ensures Sweep(ms, t, rules, floor).1 == Sweep(ms[..n - 1], settled, rules, floor).1
  {
    var i := n - 1;
    SweepStep(ms, i, r, rules, floor);
    var rest := Living(ms[i + 1..], floor);
    assert living[i] == ms[i];
    assert living[..i] == ms[..i] && living[i + 1..] == rest;
    if FateOf(ms[i], floor) == Lives {
      assert living == ms[..i] + ([ms[i]] + rest);
    } else {
      assert Living(ms[i..], floor) == rest;
    }
  }
}
