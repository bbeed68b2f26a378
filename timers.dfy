/** The timer lists: crumble timers under stood-on planks and the fuses of
    ignited TNT. Both are ticked by a reverse loop that decrements each timer
    and removes the ones that reach zero, acting on their cells. */
module Timers {
  import opened Elements
  import opened Grids

  /** A timer on tile (x, y) with `time` ticks left. */
  datatype Timer = Timer(x: int, y: int, time: int)

  predicate On(t: Timer, x: int, y: int) { t.x == x && t.y == y }

  /** At most one timer per tile. */
  predicate OnePerTile(ts: seq<Timer>) {
    forall i, j :: 0 <= i < j < |ts| ==> !On(ts[i], ts[j].x, ts[j].y)
  }

  function Tick(t: Timer): Timer { t.(time := t.time - 1) }

  predicate Expires(t: Timer) { t.time - 1 <= 0 }

  /** The timers that survive a tick, decremented, in their order. */
  function Countdown(ts: seq<Timer>): (r: seq<Timer>)
    ensures |r| <= |ts|
  {
    if |ts| == 0 then []
    else Countdown(ts[..|ts| - 1])
         + (if Expires(ts[|ts| - 1]) then [] else [Tick(ts[|ts| - 1])])
  }

  /** The timers that run out during a tick, in the order the reverse loop
      meets them (last first). */
  function Expired(ts: seq<Timer>): (r: seq<Timer>)
    ensures |r| <= |ts|
  {
    if |ts| == 0 then []
    else (if Expires(ts[|ts| - 1]) then [ts[|ts| - 1]] else []) + Expired(ts[..|ts| - 1])
  }

  /** Every timer either survives the tick or expires. */
  lemma {:induction false} TickSplits(ts: seq<Timer>)
    ensures |Countdown(ts)| + |Expired(ts)| == |ts|
    ensures forall t :: t in ts && !Expires(t) ==> Tick(t) in Countdown(ts)
    ensures forall t :: t in ts && Expires(t) ==> t in Expired(ts)
    ensures forall u :: u in Countdown(ts) ==> exists t :: t in ts && !Expires(t) && u == Tick(t)
    ensures forall u :: u in Countdown(ts) ==> u.time >= 1
    ensures forall u :: u in Expired(ts) ==> u in ts && Expires(u)
  {
    if |ts| > 0 {
      var init, last := ts[..|ts| - 1], ts[|ts| - 1];
      TickSplits(init);
      assert ts == init + [last];
      forall t | t in ts && !Expires(t) ensures Tick(t) in Countdown(ts) {
        if t != last { assert t in init; }
      }
      forall t | t in ts && Expires(t) ensures t in Expired(ts) {
        if t != last { assert t in init; }
      }
      forall u | u in Countdown(ts) ensures exists t :: t in ts && !Expires(t) && u == Tick(t) {
        if u in Countdown(init) {
          var t :| t in init && !Expires(t) && u == Tick(t);
          assert t in ts;
        } else {
          assert last in ts;
        }
      }
    }
  }

  /** Ticking keeps timers on distinct tiles: the survivors keep their
      tiles. */
  lemma {:induction false} CountdownKeepsOnePerTile(ts: seq<Timer>)
    requires OnePerTile(ts)
    ensures OnePerTile(Countdown(ts))
    ensures forall u :: u in Countdown(ts) ==> exists t :: t in ts && On(t, u.x, u.y)
  {
    if |ts| > 0 {
      var init, last := ts[..|ts| - 1], ts[|ts| - 1];
      CountdownKeepsOnePerTile(init);
      var c := Countdown(init);
      if !Expires(last) {
        forall i | 0 <= i < |c| ensures !On(c[i], last.x, last.y) {
          var t :| t in init && On(t, c[i].x, c[i].y);
          var k :| 0 <= k < |init| && init[k] == t;
          assert ts[k] == t;
        }
      }
      forall u | u in Countdown(ts) ensures exists t :: t in ts && On(t, u.x, u.y) {
        if u in c {
          var t :| t in init && On(t, u.x, u.y);
          assert t in ts;
        } else {
          assert last in ts && On(last, u.x, u.y);
        }
      }
    }
  }

  /** Arming a timer on (x, y) unless one is already there (the crumble
      `find` check). */
  function Arm(ts: seq<Timer>, x: int, y: int, fuse: int): (r: seq<Timer>)
    ensures (exists t :: t in ts && On(t, x, y)) ==> r == ts
    ensures (forall t :: t in ts ==> !On(t, x, y)) ==> r == ts + [Timer(x, y, fuse)]
  {
    if exists t :: t in ts && On(t, x, y) then ts else ts + [Timer(x, y, fuse)]
  }

  lemma ArmKeepsOnePerTile(ts: seq<Timer>, x: int, y: int, fuse: int)
    requires OnePerTile(ts)
    ensures OnePerTile(Arm(ts, x, y, fuse))
    ensures exists t :: t in Arm(ts, x, y, fuse) && On(t, x, y)
  {
    var r := Arm(ts, x, y, fuse);
    if forall t :: t in ts ==> !On(t, x, y) {
      forall i, j | 0 <= i < j < |r| ensures !On(r[i], r[j].x, r[j].y) {
        if j == |ts| { assert r[i] in ts; }
      }
      assert r[|ts|] in r;
    }
  }

  /** The tick of a list is the tick of its parts: survivors keep their
      order, and the expired ones are met from the back. */
  lemma {:induction false} CountdownAppend(a: seq<Timer>, b: seq<Timer>)
    ensures Countdown(a + b) == Countdown(a) + Countdown(b)
    ensures Expired(a + b) == Expired(b) + Expired(a)
    decreases |b|
  {
    if |b| == 0 {
      assert a + b == a;
    } else {
      var init, last := b[..|b| - 1], b[|b| - 1];
      assert (a + b)[..|a + b| - 1] == a + init && (a + b)[|a + b| - 1] == last;
      CountdownAppend(a, init);
      var kept := if Expires(last) then [] else [Tick(last)];
      var gone := if Expires(last) then [last] else [];
      assert Countdown(a + b) == (Countdown(a) + Countdown(init)) + kept;
      assert Countdown(b) == Countdown(init) + kept;
      assert Expired(a + b) == gone + (Expired(init) + Expired(a));
      assert Expired(b) == gone + Expired(init);
    }
  }

  /** One step of the reverse loop over a list whose suffix after index i
      has been ticked already: the timer at i is still the original one, and
      removing it or replacing it by its tick yields the list with the
      suffix from i ticked; it is met after the expired timers behind it. */
  lemma TickStep(ts: seq<Timer>, i: int)
    requires 0 <= i < |ts|
    ensures var cur := ts[..i + 1] + Countdown(ts[i + 1..]);
            cur[i] == ts[i]
            && (Expires(ts[i]) ==> cur[..i] + cur[i + 1..] == ts[..i] + Countdown(ts[i..]))
            && (!Expires(ts[i]) ==> cur[..i] + [Tick(ts[i])] + cur[i + 1..] == ts[..i] + Countdown(ts[i..]))
    ensures Expires(ts[i]) ==> Expired(ts[i..]) == Expired(ts[i + 1..]) + [ts[i]]
    ensures !Expires(ts[i]) ==> Expired(ts[i..]) == Expired(ts[i + 1..])
  {
    assert ts[i..] == [ts[i]] + ts[i + 1..];
    CountdownAppend([ts[i]], ts[i + 1..]);
    assert [ts[i]][..0] == [];
    var cur := ts[..i + 1] + Countdown(ts[i + 1..]);
    assert cur[..i] == ts[..i];
    assert cur[i + 1..] == Countdown(ts[i + 1..]);
  }

  /** Clearing the cells of the given timers to AIR, in list order. */
  function ClearCells(g: Grid, ts: seq<Timer>): (r: Grid)
    ensures SameShape(g, r)
    decreases |ts|
  {
    if |ts| == 0 then g
    else SetBlock(ClearCells(g, ts[..|ts| - 1]), ts[|ts| - 1].x, ts[|ts| - 1].y, AIR)
  }

  /** After the crumble tick the cells of expired timers are AIR, and every
      other cell is as before. */
  lemma {:induction false} ClearCellsEffect(g: Grid, ts: seq<Timer>, a: int, b: int)
    ensures (exists t :: t in ts && On(t, a, b)) ==> GetBlock(ClearCells(g, ts), a, b) == AIR
    ensures (forall t :: t in ts ==> !On(t, a, b)) ==> GetBlock(ClearCells(g, ts), a, b) == GetBlock(g, a, b)
    decreases |ts|
  {
    if |ts| > 0 {
      var init, last := ts[..|ts| - 1], ts[|ts| - 1];
      ClearCellsEffect(g, init, a, b);
      assert forall t :: t in init ==> t in ts;
      assert last in ts;
      if (exists t :: t in ts && On(t, a, b)) && !On(last, a, b) {
        var t :| t in ts && On(t, a, b);
        assert t in init;
      }
    }
  }

  /** One more cell cleared after a list of them. */
  lemma ClearCellsSnoc(g: Grid, ts: seq<Timer>, t: Timer)
    ensures ClearCells(g, ts + [t]) == SetBlock(ClearCells(g, ts), t.x, t.y, AIR)
  {
    assert (ts + [t])[..|ts|] == ts;
  }

  /** Clearing cells keeps every hard cell's durability in range. */
  lemma ClearCellsKeepsDurable(g: Grid, ts: seq<Timer>, health: Grid)
    requires Durable(g, health)
    ensures Durable(ClearCells(g, ts), health)
  {
    var r := ClearCells(g, ts);
    forall x, y | InBounds(r, x, y)
      ensures GetBlock(r, x, y) == GetBlock(g, x, y) || !Hard(GetBlock(r, x, y))
    {
      ClearCellsEffect(g, ts, x, y);
    }
    ClearingKeepsDurable(g, r, health);
  }
}
