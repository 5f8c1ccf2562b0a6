/** Switching workspaces with the wheel over the desktop (`src/input.rs`): travel adds
    up in v120 units, 120 a detent, and every threshold's worth is one step. Travel
    is `real`. */
module Scroll {
  import opened Wrappers
  import opened Workspaces

  function Abs(x: real): real {
    if x < 0.0 then -x else x
  }

  /** `n` thresholds. */
  function Times(n: nat, t: real): real {
    if n == 0 then 0.0 else Times(n - 1, t) + t
  }

  lemma Distribute(q: real, a: real, b: real, t: real)
    requires q == a + b
    ensures q * t == a * t + b * t
  {
  }

  lemma {:induction false} TimesIsProduct(n: nat, t: real)
    ensures Times(n, t) == n as real * t
  {
    if n > 0 {
      TimesIsProduct(n - 1, t);
      assert n as real == (n - 1) as real + 1.0;
      Distribute(n as real, (n - 1) as real, 1.0, t);
    }
  }

  lemma {:induction false} TimesSum(n: nat, m: nat, t: real)
    ensures Times(n + m, t) == Times(n, t) + Times(m, t)
  {
    if m > 0 {
      TimesSum(n, m - 1, t);
    }
  }

  lemma {:induction false} TimesGrows(n: nat, m: nat, t: real)
    requires n <= m && t > 0.0
    ensures Times(n, t) <= Times(m, t)
  {
    if n < m {
      TimesGrows(n, m - 1, t);
    }
  }

  lemma NoSign(q: real, t: real)
    requires q * t >= 0.0 && t > 0.0
    ensures q >= 0.0
  {
  }

  lemma Between(rest: real, t: real)
    requires 0.0 <= rest < 1.0 && t > 0.0
    ensures 0.0 <= rest * t < t
  {
  }

  lemma FloorBounds(x: real, t: real)
    requires x >= 0.0 && t > 0.0
    ensures var n := (x / t).Floor; n >= 0 && Times(n, t) <= x < Times(n, t) + t
  {
    var q := x / t;
    assert q * t == x;
    NoSign(q, t);
    var n: nat := q.Floor;
    var rest := q - n as real;
    assert q < (n + 1) as real == n as real + 1.0;
    assert 0.0 <= rest < 1.0;
    Distribute(q, n as real, rest, t);
    TimesIsProduct(n, t);
    Between(rest, t);
    assert x == Times(n, t) + rest * t;
  }

  /** How many thresholds fit into `x`. */
  function Steps(x: real, t: real): (n: nat)
    requires x >= 0.0 && t > 0.0
    ensures Times(n, t) <= x < Times(n, t) + t
  {
    FloorBounds(x, t);
    (x / t).Floor
  }

  /** The number of steps is the only one that leaves less than a threshold. */
  lemma StepsUnique(x: real, t: real, n: nat)
    requires x >= 0.0 && t > 0.0 && Times(n, t) <= x < Times(n, t) + t
    ensures Steps(x, t) == n
  {
    var s := Steps(x, t);
    if s < n {
      TimesGrows(s + 1, n, t);
    } else if s > n {
      TimesGrows(n + 1, s, t);
    }
  }

  datatype Travelled = Travelled(steps: nat, left: real)

  /** Travel of size `x` with `room` steps before the end: the whole thresholds are
      stepped and the rest kept, or it stops at the end and nothing is kept. */
  function Travel(x: real, t: real, room: nat): (r: Travelled)
    requires x >= 0.0 && t > 0.0
    ensures r.steps <= room && 0.0 <= r.left < t
  {
    var n := Steps(x, t);
    if n <= room then Travelled(n, x - Times(n, t)) else Travelled(room, 0.0)
  }

  /** A gesture in pieces is the same gesture: however a turn of the wheel is cut into
      events, the same steps are taken, and short of the end the same travel is
      left over. */
  lemma TravelInPieces(x: real, y: real, t: real, room: nat)
    requires x >= 0.0 && y >= 0.0 && t > 0.0
    ensures var first := Travel(x, t, room);
            var second := Travel(first.left + y, t, room - first.steps);
            var whole := Travel(x + y, t, room);
            && first.steps + second.steps == whole.steps
            && (Steps(x, t) <= room ==> second.left == whole.left)
  {
    var n := Steps(x, t);
    if n <= room {
      var m := Steps(x - Times(n, t) + y, t);
      TimesSum(n, m, t);
      StepsUnique(x + y, t, n + m);
    } else {
      var w := Steps(x + y, t);
      if w < n {
        TimesGrows(w + 1, n, t);
      }
      assert Travel(x, t, room) == Travelled(room, 0.0);
      assert Travel(0.0 + y, t, 0).steps == 0;
    }
  }

  /** A wheel turned the other way starts afresh. */
  function Carried(accum: real, v120: real): real {
    (if accum != 0.0 && (v120 > 0.0) != (accum > 0.0) then 0.0 else accum) + v120
  }

  /** Wheel up is negative and goes forward. */
  function Room(active: nat, count: nat, a: real): nat
    requires active < count
  {
    if a < 0.0 then count - 1 - active else active
  }

  datatype Scrolled = Scrolled(active: nat, accum: real)

  /** What the loop comes to. */
  function Scroll(active: nat, count: nat, a: real, t: real): (r: Scrolled)
    requires active < count && t > 0.0
    ensures r.active < count && Abs(r.accum) < t
  {
    var trip := Travel(Abs(a), t, Room(active, count, a));
    if a < 0.0 then Scrolled(active + trip.steps, -trip.left) else Scrolled(active - trip.steps, trip.left)
  }

  /** Two events in one direction do what one event of their sum does. */
  lemma EventsAddUp(active: nat, count: nat, accum: real, v: real, w: real, t: real)
    requires active < count && t > 0.0 && v != 0.0 && w != 0.0 && (v > 0.0 <==> w > 0.0) && Abs(accum) < t
    ensures var a := Carried(accum, v);
            var first := Scroll(active, count, a, t);
            var second := Scroll(first.active, count, Carried(first.accum, w), t);
            var whole := Scroll(active, count, Carried(accum, v + w), t);
            && second.active == whole.active
            && (Steps(Abs(a), t) <= Room(active, count, a) ==> second.accum == whole.accum)
  {
    var a := Carried(accum, v);
    assert Carried(accum, v + w) == a + w;
    TravelInPieces(Abs(a), Abs(w), t, Room(active, count, a));
    var first := Scroll(active, count, a, t);
    assert Carried(first.accum, w) == first.accum + w;
  }

  function Shifted(ws: nat, count: nat, delta: int): nat
    requires count > 0
  {
    if ws + delta < 0 then 0 else if ws + delta > count - 1 then count - 1 else ws + delta
  }

  lemma OneMore(x: real, t: real, k: nat)
    requires x >= 0.0 && t > 0.0 && x - Times(k, t) >= t
    ensures k < Steps(x, t)
  {
    var n := Steps(x, t);
    if n <= k {
      TimesGrows(n, k, t);
    }
  }

  class DesktopScroll {
    const desktop: Desktop
    const notches: nat
    var accum: real

    constructor (desktop: Desktop, notches: nat)
      ensures this.desktop == desktop && this.notches == notches && accum == 0.0
    {
      this.desktop, this.notches, accum := desktop, notches, 0.0;
    }

    function Threshold(): (t: real)
      ensures t >= 120.0 && t / 120.0 == if notches == 0 then 1.0 else notches as real
    {
      (if notches < 1 then 1 else notches) as real * 120.0
    }

    method Switch(amount: real, discrete: Option<real>)
      requires desktop.Valid()
      modifies this, desktop
      ensures desktop.Valid() && desktop.dead == old(desktop.dead) && desktop.minimized == old(desktop.minimized)
      ensures var v120 := if discrete.Some? && discrete.value != 0.0 then discrete.value else amount * 120.0 / 15.0;
              Scrolled(desktop.active, accum) == Scroll(old(desktop.active), desktop.count, Carried(old(accum), v120),
                Threshold())
      ensures desktop.active == old(desktop.active) ==>
                desktop.space == old(desktop.space) && desktop.kbFocus == old(desktop.kbFocus)
    {
      var v120 := if discrete.Some? && discrete.value != 0.0 then discrete.value else amount * 120.0 / 15.0;
      if accum != 0.0 && (v120 > 0.0) != (accum > 0.0) {
        accum := 0.0;
      }
      accum := accum + v120;

      Drain(Threshold());
    }

    /** Step until less than a threshold is left. */
    method Drain(threshold: real)
      requires desktop.Valid() && threshold > 0.0
      modifies this, desktop
      ensures desktop.Valid() && desktop.dead == old(desktop.dead) && desktop.minimized == old(desktop.minimized)
      ensures Scrolled(desktop.active, accum) == Scroll(old(desktop.active), desktop.count, old(accum), threshold)
      ensures desktop.active == old(desktop.active) ==>
                desktop.space == old(desktop.space) && desktop.kbFocus == old(desktop.kbFocus)
    {
      ghost var a, start := accum, desktop.active;
      ghost var room, n := Room(start, desktop.count, a), Steps(Abs(a), threshold);
      ghost var k: nat := 0;
      var moved := true;
      while moved && Abs(accum) >= threshold
        invariant desktop.Valid() && desktop.dead == old(desktop.dead) && desktop.minimized == old(desktop.minimized)
        invariant k <= room && k <= n
        invariant desktop.active == if a < 0.0 then start + k else start - k
        invariant moved ==> accum == if a < 0.0 then a + Times(k, threshold) else a - Times(k, threshold)
        invariant moved ==> if a < 0.0 then accum <= 0.0 else accum >= 0.0
        invariant !moved ==> k == room < n && accum == 0.0
        invariant k == 0 ==> desktop.space == old(desktop.space) && desktop.kbFocus == old(desktop.kbFocus)
        decreases moved, n - k
      {
        OneMore(Abs(a), threshold, k);
        moved := Step(threshold);
        k := if moved then k + 1 else k;
      }
      if moved {
        StepsUnique(Abs(a), threshold, k);
      }
    }

    /** One step, or at the end none and the leftover travel dropped. */
    method Step(threshold: real) returns (moved: bool)
      requires desktop.Valid() && Abs(accum) >= threshold > 0.0
      modifies this, desktop
      ensures desktop.Valid() && desktop.dead == old(desktop.dead) && desktop.minimized == old(desktop.minimized)
      ensures moved <==> Room(old(desktop.active), desktop.count, old(accum)) > 0
      ensures moved ==>
        && desktop.active == (if old(accum) < 0.0 then old(desktop.active) + 1 else old(desktop.active) - 1)
        && accum == (if old(accum) < 0.0 then old(accum) + threshold else old(accum) - threshold)
      ensures !moved ==>
        && accum == 0.0 && desktop.active == old(desktop.active)
        && desktop.space == old(desktop.space) && desktop.kbFocus == old(desktop.kbFocus)
    {
      var delta;
      if accum < 0.0 {
        accum := accum + threshold;
        delta := 1;
      } else {
        accum := accum - threshold;
        delta := -1;
      }
      var target := Shifted(desktop.active, desktop.count, delta);
      moved := target != desktop.active;
      if moved {
        desktop.FocusWorkspace(target);
      } else {
        accum := 0.0;
      }
    }
  }
}
