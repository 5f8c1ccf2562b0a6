/** Workspaces, minimized windows and focus history (`src/workspace.rs`,
    `src/picker.rs`, `src/input.rs`, `src/state.rs`), for windows that are not
    sticky and a session that is not locked. */
module Workspaces {
  import opened Geometry
  import opened Wrappers

  type Win = nat

  datatype WindowInfo = WindowInfo(workspace: nat, savedLocation: Point)

  datatype MoveError = OutOfRange | IsMinimized | NotAssigned

  /** `Vec::retain(|x| x != w)`. */
  function Dropping(s: seq<Win>, w: Win): seq<Win> {
    if s == [] then [] else Dropping(s[..|s| - 1], w) + (if s[|s| - 1] == w then [] else [s[|s| - 1]])
  }

  /** Only the windows still alive, in order. */
  function Living(s: seq<Win>, dead: set<Win>): seq<Win> {
    if s == [] then [] else Living(s[..|s| - 1], dead) + (if s[|s| - 1] in dead then [] else [s[|s| - 1]])
  }

  predicate NoRepeats(s: seq<Win>) {
    forall i, j :: 0 <= i < j < |s| ==> s[i] != s[j]
  }

  lemma {:induction false} DroppingKeeps(s: seq<Win>, w: Win)
    ensures forall x :: x in Dropping(s, w) <==> x in s && x != w
    ensures NoRepeats(s) ==> NoRepeats(Dropping(s, w))
  {
    if s != [] {
      var rest, last := s[..|s| - 1], s[|s| - 1];
      DroppingKeeps(rest, w);
      assert s == rest + [last];
      assert NoRepeats(s) ==> NoRepeats(rest) && last !in rest;
    }
  }

  lemma {:induction false} LivingKeeps(s: seq<Win>, dead: set<Win>)
    ensures forall x :: x in Living(s, dead) <==> x in s && x !in dead
    ensures NoRepeats(s) ==> NoRepeats(Living(s, dead))
  {
    if s != [] {
      var rest, last := s[..|s| - 1], s[|s| - 1];
      LivingKeeps(rest, dead);
      assert s == rest + [last];
      assert NoRepeats(s) ==> NoRepeats(rest) && last !in rest;
    }
  }

  /** `x` stands below `y` somewhere in the stack. */
  ghost predicate Below(s: seq<Win>, x: Win, y: Win) {
    exists i, j :: 0 <= i < j < |s| && s[i] == x && s[j] == y
  }

  lemma BelowOne(s: seq<Win>, last: Win, x: Win, y: Win)
    ensures Below(s + [last], x, y) <==> Below(s, x, y) || (x in s && y == last)
  {
    var more := s + [last];
    if i, j :| 0 <= i < j < |more| && more[i] == x && more[j] == y {
      assert s[i] == x;
      assert j < |s| ==> s[j] == y;
    }
    if i, j :| 0 <= i < j < |s| && s[i] == x && s[j] == y {
      assert more[i] == x && more[j] == y;
    }
    if x in s && y == last {
      var i :| 0 <= i < |s| && s[i] == x;
      assert more[i] == x && more[|s|] == y;
    }
  }

  /** Taking `w` out leaves any two others in the order they were in. */
  lemma {:induction false} DroppingOrder(s: seq<Win>, w: Win, x: Win, y: Win)
    requires x != w && y != w
    ensures Below(Dropping(s, w), x, y) <==> Below(s, x, y)
  {
    if s != [] {
      var rest, last := s[..|s| - 1], s[|s| - 1];
      DroppingOrder(rest, w, x, y);
      DroppingKeeps(rest, w);
      assert s == rest + [last];
      BelowOne(rest, last, x, y);
      if last == w {
        assert Dropping(s, w) == Dropping(rest, w);
      } else {
        assert Dropping(s, w) == Dropping(rest, w) + [last];
        BelowOne(Dropping(rest, w), last, x, y);
      }
    }
  }

  /** And pruning leaves any two that live. */
  lemma {:induction false} LivingOrder(s: seq<Win>, dead: set<Win>, x: Win, y: Win)
    requires x !in dead && y !in dead
    ensures Below(Living(s, dead), x, y) <==> Below(s, x, y)
  {
    if s != [] {
      var rest, last := s[..|s| - 1], s[|s| - 1];
      LivingOrder(rest, dead, x, y);
      LivingKeeps(rest, dead);
      assert s == rest + [last];
      BelowOne(rest, last, x, y);
      if last in dead {
        assert Living(s, dead) == Living(rest, dead);
      } else {
        assert Living(s, dead) == Living(rest, dead) + [last];
        BelowOne(Living(rest, dead), last, x, y);
      }
    }
  }

  /** `w` has gone to the top of its stack: it is there once, nothing else has come or
      gone, and any two others are in the order they were in. */
  ghost predicate Raised(was: seq<Win>, now: seq<Win>, w: Win) {
    && now != [] && now[|now| - 1] == w && w !in now[..|now| - 1]
    && (forall x :: x in now <==> x in was || x == w)
    && forall x, y :: x != w && y != w ==> (Below(now, x, y) <==> Below(was, x, y))
  }

  lemma DroppedRaised(s: seq<Win>, w: Win)
    ensures Raised(s, Dropping(s, w) + [w], w)
  {
    var kept := Dropping(s, w);
    DroppingKeeps(s, w);
    assert (kept + [w])[..|kept|] == kept;
    forall x, y | x != w && y != w ensures Below(kept + [w], x, y) <==> Below(s, x, y) {
      DroppingOrder(s, w, x, y);
      BelowOne(kept, w, x, y);
    }
  }

  /** `w` has left its stack, and nothing else about it has changed. */
  ghost predicate TakenOff(was: seq<Win>, now: seq<Win>, w: Win) {
    && (forall x :: x in now <==> x in was && x != w)
    && forall x, y :: x != w && y != w ==> (Below(now, x, y) <==> Below(was, x, y))
  }

  lemma DroppedTakenOff(s: seq<Win>, w: Win)
    ensures TakenOff(s, Dropping(s, w), w)
  {
    DroppingKeeps(s, w);
    forall x, y | x != w && y != w ensures Below(Dropping(s, w), x, y) <==> Below(s, x, y) {
      DroppingOrder(s, w, x, y);
    }
  }

  /** The dead have left the stack, and nothing else about it has changed. */
  ghost predicate Pruned(was: seq<Win>, now: seq<Win>, dead: set<Win>) {
    && (forall x :: x in now <==> x in was && x !in dead)
    && forall x, y :: x !in dead && y !in dead ==> (Below(now, x, y) <==> Below(was, x, y))
  }

  lemma LivingPruned(s: seq<Win>, dead: set<Win>)
    ensures Pruned(s, Living(s, dead), dead)
  {
    LivingKeeps(s, dead);
    forall x, y | x !in dead && y !in dead ensures Below(Living(s, dead), x, y) <==> Below(s, x, y) {
      LivingOrder(s, dead, x, y);
    }
  }

  /** One stack of focus history: no window twice, and every living one on it is a
      window of this workspace. */
  ghost predicate StackOk(stack: seq<Win>, windows: map<Win, WindowInfo>, dead: set<Win>, ws: nat) {
    && NoRepeats(stack)
    && forall w :: w in stack ==> w in dead || (w in windows && windows[w].workspace == ws)
  }

  /** Focusing a window of the workspace, or one that is gone, keeps its stack sound. */
  lemma PushedOk(stack: seq<Win>, windows: map<Win, WindowInfo>, dead: set<Win>, ws: nat, w: Win)
    requires StackOk(stack, windows, dead, ws)
    requires w in dead || (w in windows && windows[w].workspace == ws)
    ensures StackOk(Dropping(stack, w) + [w], windows, dead, ws)
  {
    DroppingKeeps(stack, w);
    var kept := Dropping(stack, w);
    assert NoRepeats(kept) && w !in kept;
    assert forall x :: x in kept + [w] ==> x in stack || x == w;
    assert NoRepeats(kept + [w]);
  }

  /** Moving `w` leaves a stack sound that it is not on or that it moves to. */
  lemma MovedOk(stack: seq<Win>, was: map<Win, WindowInfo>, now: map<Win, WindowInfo>, dead: set<Win>, ws: nat, w: Win)
    requires StackOk(stack, was, dead, ws) && w in was && w in now && now - {w} == was - {w}
    requires was[w].workspace != ws || now[w].workspace == ws || w !in stack
    ensures StackOk(stack, now, dead, ws)
  {
    forall x | x in stack && x !in dead ensures x in now && now[x].workspace == ws {
      if x != w {
        assert x in was - {w};
        assert x in now - {w} && now[x] == (now - {w})[x] == (was - {w})[x];
      }
    }
  }

  /** The stacks after `w` moves: on top where it goes, off the one it leaves. */
  function HistoryMoved(history: seq<seq<Win>>, w: Win, source: nat, target: nat): seq<seq<Win>>
    requires source < |history| && target < |history|
  {
    history[target := Dropping(history[target], w) + [w]][source := Dropping(history[source], w)]
  }

  lemma HistoryMovedOk(history: seq<seq<Win>>, was: map<Win, WindowInfo>, now: map<Win, WindowInfo>, dead: set<Win>,
                       w: Win, source: nat, target: nat)
    requires source < |history| && target < |history| && source != target
    requires w in was && was[w].workspace == source
    requires w in now && now[w].workspace == target && now - {w} == was - {w}
    requires forall ws :: 0 <= ws < |history| ==> StackOk(history[ws], was, dead, ws)
    ensures forall ws :: 0 <= ws < |history| ==> StackOk(HistoryMoved(history, w, source, target)[ws], now, dead, ws)
  {
    forall ws | 0 <= ws < |history| ensures StackOk(HistoryMoved(history, w, source, target)[ws], now, dead, ws) {
      if ws == source {
        DroppingKeeps(history[ws], w);
        MovedOk(Dropping(history[ws], w), was, now, dead, ws, w);
      } else {
        MovedOk(history[ws], was, now, dead, ws, w);
        if ws == target {
          PushedOk(history[ws], now, dead, ws, w);
        }
      }
    }
  }

  /** On top of the stack where it goes, gone from the one it leaves, and the others in
      the order they were in. */
  lemma HistoryMovedMeans(history: seq<seq<Win>>, w: Win, source: nat, target: nat)
    requires source < |history| && target < |history| && source != target
    ensures var moved := HistoryMoved(history, w, source, target);
      && |moved| == |history|
      && Raised(history[target], moved[target], w) && TakenOff(history[source], moved[source], w)
      && forall ws :: 0 <= ws < |history| && ws != source && ws != target ==> moved[ws] == history[ws]
  {
    DroppedRaised(history[target], w);
    DroppedTakenOff(history[source], w);
  }

  lemma PrefixOk(stack: seq<Win>, prefix: seq<Win>, windows: map<Win, WindowInfo>, dead: set<Win>, ws: nat)
    requires StackOk(stack, windows, dead, ws) && prefix <= stack
    ensures StackOk(prefix, windows, dead, ws)
  {
  }

  /** What is mapped belongs to the active workspace, and all of the active
      workspace that is alive is mapped. */
  ghost predicate Shows(space: map<Win, Point>, windows: map<Win, WindowInfo>, dead: set<Win>, active: nat) {
    && (forall w :: w in space ==> w in windows && windows[w].workspace == active)
    && (forall w :: w in windows && windows[w].workspace == active ==> w in space || w in dead)
  }

  /** What is left of a stack when everything above its latest window that is both
      alive and mapped is discarded. */
  function Settled(stack: seq<Win>, shown: set<Win>, dead: set<Win>): (r: seq<Win>)
    ensures r <= stack
    ensures forall i :: |r| <= i < |stack| ==> stack[i] in dead || stack[i] !in shown
    ensures r != [] ==> r[|r| - 1] !in dead && r[|r| - 1] in shown
  {
    if stack == [] || (stack[|stack| - 1] !in dead && stack[|stack| - 1] in shown) then stack
    else Settled(stack[..|stack| - 1], shown, dead)
  }

  /** The window refocusing should find. */
  function Latest(stack: seq<Win>, shown: set<Win>, dead: set<Win>): Option<Win> {
    var s := Settled(stack, shown, dead);
    if s == [] then None else Some(s[|s| - 1])
  }

  /** `r` is the topmost window of the stack that is alive, mapped and not `but`; there
      is none only when no window of it is. */
  ghost predicate Picked(stack: seq<Win>, shown: set<Win>, dead: set<Win>, but: set<Win>, r: Option<Win>) {
    && (r.None? ==> forall x :: x in stack ==> x in dead || x !in shown || x in but)
    && (r.Some? ==>
          && r.value in stack && r.value !in dead && r.value in shown && r.value !in but
          && forall x :: Below(stack, r.value, x) ==> x in dead || x !in shown || x in but)
  }

  lemma LatestPicked(stack: seq<Win>, shown: set<Win>, dead: set<Win>)
    requires NoRepeats(stack)
    ensures Picked(stack, shown, dead, {}, Latest(stack, shown, dead))
  {
    var s := Settled(stack, shown, dead);
    if s == [] {
      assert forall i :: 0 <= i < |stack| ==> stack[i] in dead || stack[i] !in shown;
    } else {
      var top := s[|s| - 1];
      assert stack[|s| - 1] == top;
      forall x | Below(stack, top, x) ensures x in dead || x !in shown {
        var i, j :| 0 <= i < j < |stack| && stack[i] == top && stack[j] == x;
        assert i == |s| - 1;
      }
    }
  }

  /** What is picked once `w` has been taken out is what `w` aside is topmost. */
  lemma PickedWithout(stack: seq<Win>, shown: set<Win>, dead: set<Win>, w: Win)
    requires NoRepeats(stack)
    ensures Picked(stack, shown, dead, {w}, Latest(Dropping(stack, w), shown, dead))
  {
    var r := Latest(Dropping(stack, w), shown, dead);
    DroppingKeeps(stack, w);
    LatestPicked(Dropping(stack, w), shown, dead);
    if r.Some? {
      forall x | Below(stack, r.value, x) ensures x in dead || x !in shown || x == w {
        if x != w {
          DroppingOrder(stack, w, r.value, x);
        }
      }
    }
  }

  lemma PickedLiving(stack: seq<Win>, shown: set<Win>, dead: set<Win>)
    requires NoRepeats(stack)
    ensures Picked(stack, shown, dead, {}, Latest(Living(stack, dead), shown, dead))
  {
    var r := Latest(Living(stack, dead), shown, dead);
    LivingKeeps(stack, dead);
    LatestPicked(Living(stack, dead), shown, dead);
    if r.Some? {
      forall x | Below(stack, r.value, x) ensures x in dead || x !in shown {
        if x !in dead {
          LivingOrder(stack, dead, r.value, x);
        }
      }
    }
  }

  /** On the active workspace, settling discards only windows that are gone. */
  lemma DiscardedAreDead(stack: seq<Win>, windows: map<Win, WindowInfo>, space: map<Win, Point>,
                         dead: set<Win>, ws: nat)
    requires StackOk(stack, windows, dead, ws) && Shows(space, windows, dead, ws)
    ensures forall w :: w in stack && w !in Settled(stack, space.Keys, dead) ==> w in dead
  {
  }

  function AliveIn(windows: map<Win, WindowInfo>, dead: set<Win>): map<Win, WindowInfo> {
    map w | w in windows && w !in dead :: windows[w]
  }

  function Placed(windows: map<Win, WindowInfo>, space: map<Win, Point>): map<Win, WindowInfo> {
    map w | w in windows :: if w in space then windows[w].(savedLocation := space[w]) else windows[w]
  }

  /** The tracked windows after a switch away: the dead gone, and each mapped one's
      position remembered. */
  function Recorded(windows: map<Win, WindowInfo>, space: map<Win, Point>, dead: set<Win>): map<Win, WindowInfo> {
    Placed(AliveIn(windows, dead), space)
  }

  /** A workspace's windows, each where it was last. */
  function MapIn(windows: map<Win, WindowInfo>, ws: nat): map<Win, Point> {
    map w | w in windows && windows[w].workspace == ws :: windows[w].savedLocation
  }

  /** Leaving a workspace and coming back finds every window that is still alive
      exactly where it was, whatever workspace lay between. */
  lemma ThereAndBack(windows: map<Win, WindowInfo>, space: map<Win, Point>, dead: set<Win>, deadLater: set<Win>,
                     here: nat, there: nat)
    requires here != there && Shows(space, windows, dead, here) && dead <= deadLater
    ensures var away := Recorded(windows, space, dead);
            MapIn(Recorded(away, MapIn(away, there), deadLater), here) == space - deadLater
  {
  }

  function Minimized(stack: seq<(Win, Point)>): seq<Win> {
    seq(|stack|, i requires 0 <= i < |stack| => stack[i].0)
  }

  /** The stack without its first entry for `w`, the others in order. */
  function Unstacked(stack: seq<(Win, Point)>, w: Win): seq<(Win, Point)> {
    if stack == [] then []
    else if stack[0].0 == w then stack[1..]
    else [stack[0]] + Unstacked(stack[1..], w)
  }

  lemma Rejoined<T>(s: seq<T>, i: nat)
    requires 0 < i < |s|
    ensures [s[0]] + (s[1..][..i - 1] + s[1..][i..]) == s[..i] + s[i + 1..]
  {
  }

  lemma {:induction false} UnstackedAt(stack: seq<(Win, Point)>, w: Win, i: nat)
    requires i <= |stack| && forall j :: 0 <= j < i ==> stack[j].0 != w
    requires i < |stack| ==> stack[i].0 == w
    ensures Unstacked(stack, w) == if i < |stack| then stack[..i] + stack[i + 1..] else stack
  {
    if i > 0 {
      var rest := stack[1..];
      UnstackedAt(rest, w, i - 1);
      assert Unstacked(stack, w) == [stack[0]] + Unstacked(rest, w);
      if i < |stack| {
        Rejoined(stack, i);
      }
    } else if stack != [] {
      assert Unstacked(stack, w) == stack[1..];
    }
  }

  class Desktop {
    var active: nat
    const count: nat
    var windows: map<Win, WindowInfo>
    /** Most recently focused last, one stack a workspace. */
    var focusHistory: seq<seq<Win>>
    /** The space: what is mapped, and where. */
    var space: map<Win, Point>
    /** Windows hidden, with where they were. */
    var minimized: seq<(Win, Point)>
    /** Windows whose client is gone. */
    var dead: set<Win>
    /** The surface with keyboard focus. */
    var kbFocus: Option<Win>

    constructor (count: nat)
      ensures Valid() && windows == map[] && minimized == [] && active == 0
      ensures space == map[] && dead == {} && kbFocus == None
      ensures this.count == if count < 1 then 1 else count
    {
      var n := if count < 1 then 1 else count;
      this.count := n;
      active, windows, space, minimized, dead, kbFocus := 0, map[], map[], [], {}, None;
      focusHistory := seq(n, _ => []);
    }

    ghost predicate Valid()
      reads this
    {
      && active < count && |focusHistory| == count
      && (forall w :: w in windows ==> windows[w].workspace < count)
      && Shows(space, windows, dead, active)
      && NoRepeats(Minimized(minimized))
      && (forall w :: w in Minimized(minimized) ==> w !in windows)
      && (forall ws :: 0 <= ws < count ==> StackOk(focusHistory[ws], windows, dead, ws))
    }

    /** Keyboard focus, when a window has it, is on one that is mapped (or gone). */
    ghost predicate FocusVisible()
      reads this
    {
      kbFocus.Some? ==> kbFocus.value in space || kbFocus.value in dead
    }

    /** The mapped window with keyboard focus. */
    function FocusedWindow(): Option<Win>
      reads this
    {
      if kbFocus.Some? && kbFocus.value in space then kbFocus else None
    }

    predicate Alive(w: Win)
      reads this
    {
      w !in dead
    }

    predicate IsMinimized(w: Win)
      reads this
    {
      w in Minimized(minimized)
    }

    // ----- the focus history -----

    method RecordFocus(ws: nat, w: Win)
      requires ws < |focusHistory|
      modifies this`focusHistory
      ensures focusHistory == old(focusHistory)[ws := Dropping(old(focusHistory)[ws], w) + [w]]
    {
      focusHistory := focusHistory[ws := Dropping(focusHistory[ws], w) + [w]];
    }

    /** The latest living window on `ws`'s stack; the dead ones above it go. */
    method LastFocused(ws: nat) returns (r: Option<Win>)
      requires ws < |focusHistory|
      modifies this`focusHistory
      ensures |focusHistory| == |old(focusHistory)|
      ensures focusHistory == old(focusHistory)[ws := focusHistory[ws]]
      ensures focusHistory[ws] <= old(focusHistory)[ws]
      ensures forall i :: |focusHistory[ws]| <= i < |old(focusHistory)[ws]| ==> old(focusHistory)[ws][i] in dead
      ensures forall shown :: Settled(focusHistory[ws], shown, dead) == Settled(old(focusHistory)[ws], shown, dead)
      ensures r.None? <==> focusHistory[ws] == []
      ensures r.Some? ==> Alive(r.value) && r.value == focusHistory[ws][|focusHistory[ws]| - 1]
    {
      var stack := focusHistory[ws];
      while stack != [] && !Alive(stack[|stack| - 1])
        invariant stack <= old(focusHistory)[ws]
        invariant forall i :: |stack| <= i < |old(focusHistory)[ws]| ==> old(focusHistory)[ws][i] in dead
        invariant forall shown :: Settled(stack, shown, dead) == Settled(old(focusHistory)[ws], shown, dead)
      {
        stack := stack[..|stack| - 1];
      }
      focusHistory := focusHistory[ws := stack];
      return if stack == [] then None else Some(stack[|stack| - 1]);
    }

    /** The refocus loop: the latest entry of `ws`'s stack that is both alive and
        mapped, everything above it discarded. */
    method Pick(ws: nat) returns (r: Option<Win>)
      requires ws < |focusHistory|
      modifies this`focusHistory
      ensures focusHistory == old(focusHistory)[ws := Settled(old(focusHistory)[ws], space.Keys, dead)]
      ensures r == Latest(old(focusHistory)[ws], space.Keys, dead)
    {
      while true
        invariant |focusHistory| == |old(focusHistory)|
        invariant focusHistory == old(focusHistory)[ws := focusHistory[ws]]
        invariant Settled(focusHistory[ws], space.Keys, dead) == Settled(old(focusHistory)[ws], space.Keys, dead)
        decreases |focusHistory[ws]|
      {
        r := LastFocused(ws);
        if r.None? || r.value in space {
          return;
        }
        focusHistory := focusHistory[ws := focusHistory[ws][..|focusHistory[ws]| - 1]];
      }
    }

    // ----- focus -----

    method FocusWindow(w: Win)
      requires Valid() && (w in space || w in dead)
      modifies this`focusHistory, this`kbFocus
      ensures Valid() && kbFocus == Some(w) && FocusVisible()
      ensures focusHistory == old(focusHistory)[active := Dropping(old(focusHistory)[active], w) + [w]]
      ensures Raised(old(focusHistory)[active], focusHistory[active], w)
    {
      DroppedRaised(focusHistory[active], w);
      kbFocus := Some(w);
      PushedOk(focusHistory[active], windows, dead, active, w);
      RecordFocus(active, w);
    }

    /** Focus what the active workspace's history picks, or nothing. */
    method Refocus()
      requires Valid()
      modifies this`focusHistory, this`kbFocus
      ensures Valid() && FocusVisible()
      ensures kbFocus == Latest(old(focusHistory)[active], space.Keys, dead)
      ensures focusHistory == old(focusHistory)[active := Settled(old(focusHistory)[active], space.Keys, dead)]
      ensures Picked(old(focusHistory)[active], space.Keys, dead, {}, kbFocus)
    {
      LatestPicked(focusHistory[active], space.Keys, dead);
      var r := PickActive();
      if r.Some? {
        ghost var picked := focusHistory;
        ghost var now := picked[active];
        assert now[..|now| - 1] + [r.value] == now;
        LastDropped(now[..|now| - 1], r.value);
        FocusWindow(r.value);
        SetAgain(picked, active);
      } else {
        kbFocus := None;
      }
    }

    lemma SetAgain(h: seq<seq<Win>>, i: nat)
      requires i < |h|
      ensures h[i := h[i]] == h
    {
    }

    method PickActive() returns (r: Option<Win>)
      requires Valid()
      modifies this`focusHistory
      ensures Valid() && r == Latest(old(focusHistory)[active], space.Keys, dead)
      ensures focusHistory == old(focusHistory)[active := Settled(old(focusHistory)[active], space.Keys, dead)]
      ensures r.Some? ==>
                && r.value in space && focusHistory[active] != []
                && r.value == focusHistory[active][|focusHistory[active]| - 1]
    {
      r := Pick(active);
      PrefixOk(old(focusHistory)[active], focusHistory[active], windows, dead, active);
    }

    lemma {:induction false} NothingDropped(s: seq<Win>, w: Win)
      requires w !in s
      ensures Dropping(s, w) == s
    {
      if s != [] {
        NothingDropped(s[..|s| - 1], w);
      }
    }

    lemma LastDropped(init: seq<Win>, last: Win)
      requires NoRepeats(init + [last])
      ensures Dropping(init + [last], last) + [last] == init + [last]
    {
      var s := init + [last];
      assert s[..|s| - 1] == init && s[|s| - 1] == last;
      assert forall i :: 0 <= i < |init| ==> s[i] == init[i];
      NothingDropped(init, last);
    }

    // ----- windows come and go -----

    method MapNew(w: Win, loc: Point)
      requires Valid() && w !in windows && w !in dead && !IsMinimized(w)
      modifies this
      ensures Valid() && kbFocus == Some(w) && FocusVisible()
      ensures focusHistory == old(focusHistory)[active := Dropping(old(focusHistory)[active], w) + [w]]
      ensures windows == old(windows)[w := WindowInfo(active, loc)] && space == old(space)[w := loc]
      ensures minimized == old(minimized) && active == old(active) && dead == old(dead)
    {
      space := space[w := loc];
      windows := windows[w := WindowInfo(active, loc)];
      FocusWindow(w);
    }

    /** The client behind `w` goes away. */
    method Die(w: Win)
      requires Valid()
      modifies this`dead
      ensures Valid() && dead == old(dead) + {w}
    {
      dead := dead + {w};
    }

    /** The space drops what is gone, once a frame. */
    method RefreshSpace()
      requires Valid()
      modifies this`space
      ensures Valid() && space == old(space) - dead
    {
      space := space - dead;
    }

    /** The toplevel's destruction arrives. It is looked up among the mapped and the
        tracked windows; a minimized one is neither, so nothing at all is cleaned
        up for it and its close is not announced. */
    method ToplevelDestroyed(w: Win) returns (announced: bool)
      requires Valid()
      modifies this
      ensures Valid() && active == old(active) && dead == old(dead)
      ensures announced <==> w in old(windows)
      ensures windows == old(windows) - {w} && space == old(space) - {w} && minimized == old(minimized)
      ensures w in old(windows) ==>
                && !IsMinimized(w) && kbFocus == (if old(kbFocus) == Some(w) then None else old(kbFocus))
                && forall ws :: 0 <= ws < count ==> focusHistory[ws] == Dropping(old(focusHistory)[ws], w)
      ensures w !in old(windows) ==> focusHistory == old(focusHistory) && kbFocus == old(kbFocus)
      ensures old(FocusVisible()) ==> FocusVisible()
    {
      if w !in space && w !in windows {
        assert windows - {w} == windows && space - {w} == space;
        return false;
      }
      space := space - {w};
      Forget(w);
      if kbFocus == Some(w) {
        kbFocus := None;  // its surface is gone with it
      }
      return true;
    }

    /** Untrack `w` and take it out of every stack. */
    method Forget(w: Win)
      requires |focusHistory| == count
      modifies this`windows, this`focusHistory
      ensures windows == old(windows) - {w} && |focusHistory| == count && dead == old(dead)
      ensures forall ws :: 0 <= ws < count ==> focusHistory[ws] == Dropping(old(focusHistory)[ws], w)
      ensures forall ws :: 0 <= ws < count ==> w !in focusHistory[ws]
      ensures forall ws :: 0 <= ws < count ==> TakenOff(old(focusHistory)[ws], focusHistory[ws], w)
      ensures forall ws :: 0 <= ws < count && StackOk(old(focusHistory)[ws], old(windows), dead, ws) ==>
                StackOk(focusHistory[ws], windows, dead, ws)
    {
      windows := windows - {w};
      for ws := 0 to count
        invariant |focusHistory| == count && windows == old(windows) - {w}
        invariant forall k :: 0 <= k < ws ==> focusHistory[k] == Dropping(old(focusHistory)[k], w)
        invariant forall k :: ws <= k < count ==> focusHistory[k] == old(focusHistory)[k]
      {
        focusHistory := focusHistory[ws := Dropping(focusHistory[ws], w)];
      }
      forall ws | 0 <= ws < count
        ensures w !in focusHistory[ws] && TakenOff(old(focusHistory)[ws], focusHistory[ws], w)
        ensures StackOk(old(focusHistory)[ws], old(windows), dead, ws) ==> StackOk(focusHistory[ws], windows, dead, ws)
      {
        DroppingKeeps(old(focusHistory)[ws], w);
        DroppedTakenOff(old(focusHistory)[ws], w);
      }
    }

    // ----- minimize -----

    /** Hide `w`. The check for focus comes after the window has left the space, and
        the focused window is looked for there, so it never finds `w`: the
        keyboard stays on it. */
    method MinimizeWindow(w: Win)
      requires Valid()
      modifies this
      ensures Valid() && active == old(active) && dead == old(dead)
      ensures old(IsMinimized(w)) ==>
                && windows == old(windows) && space == old(space)
                && minimized == old(minimized) && focusHistory == old(focusHistory)
      ensures !old(IsMinimized(w)) ==>
                && windows == old(windows) - {w} && space == old(space) - {w}
                && minimized == old(minimized) + [(w, if w in old(space) then old(space)[w] else Point(0, 0))]
                && forall ws :: 0 <= ws < count ==> focusHistory[ws] == Dropping(old(focusHistory)[ws], w)
      ensures IsMinimized(w) && kbFocus == old(kbFocus)
      ensures old(FocusVisible()) && !old(IsMinimized(w)) ==> (FocusVisible() <==> old(kbFocus) != Some(w) || w in dead)
    {
      if IsMinimized(w) {
        return;
      }
      var loc := if w in space then space[w] else Point(0, 0);
      space := space - {w};
      Forget(w);
      kbFocus := if FocusedWindow() == Some(w) then None else kbFocus;
      Appended(minimized, (w, loc));
      minimized := minimized + [(w, loc)];
    }

    lemma Appended(stack: seq<(Win, Point)>, e: (Win, Point))
      ensures Minimized(stack + [e]) == Minimized(stack) + [e.0]
    {
    }

    /** `Vec::remove` of the first entry for `w`. */
    method TakeMinimized(w: Win) returns (loc: Option<Point>)
      requires NoRepeats(Minimized(minimized))
      modifies this`minimized
      ensures loc.Some? <==> old(IsMinimized(w))
      ensures loc.Some? ==> (w, loc.value) in old(minimized)
      ensures minimized == Unstacked(old(minimized), w)
      ensures NoRepeats(Minimized(minimized))
      ensures !IsMinimized(w) && forall x :: x in Minimized(minimized) ==> x in old(Minimized(minimized))
    {
      var i := 0;
      while i < |minimized| && minimized[i].0 != w
        invariant 0 <= i <= |minimized|
        invariant forall j :: 0 <= j < i ==> minimized[j].0 != w
      {
        i := i + 1;
      }
      assert forall j :: 0 <= j < |minimized| ==> Minimized(minimized)[j] == minimized[j].0;
      UnstackedAt(minimized, w, i);
      if i == |minimized| {
        return None;
      }
      loc := Some(minimized[i].1);
      TakenOut(minimized, i);
      minimized := minimized[..i] + minimized[i + 1..];
    }

    /** Show a window just taken off the minimized stack on the active workspace. */
    method MapBack(w: Win, loc: Point)
      requires Valid() && w !in windows && !IsMinimized(w)
      modifies this`space, this`windows
      ensures Valid() && windows == old(windows)[w := WindowInfo(active, loc)] && space == old(space)[w := loc]
    {
      space := space[w := loc];
      windows := windows[w := WindowInfo(active, loc)];
    }

    method UnminimizeWindow(w: Win)
      requires Valid()
      modifies this
      ensures Valid() && active == old(active) && dead == old(dead) && !IsMinimized(w)
      ensures minimized == Unstacked(old(minimized), w)
      ensures !old(IsMinimized(w)) ==>
                windows == old(windows) && space == old(space) && focusHistory == old(focusHistory)
                  && kbFocus == old(kbFocus)
      ensures old(IsMinimized(w)) ==> exists loc ::
                && (w, loc) in old(minimized)
                && windows == old(windows)[w := WindowInfo(active, loc)] && space == old(space)[w := loc]
      ensures old(IsMinimized(w)) ==>
                && kbFocus == Some(w) && FocusVisible()
                && focusHistory == old(focusHistory)[active := Dropping(old(focusHistory)[active], w) + [w]]
    {
      var loc := TakeMinimized(w);
      if loc.None? {
        return;
      }
      MapBack(w, loc.value);
      FocusWindow(w);
    }

    /** Pop down to the last living entry, the dead ones above it dropped. */
    method PopLive() returns (r: Option<(Win, Point)>)
      requires Valid()
      modifies this`minimized
      ensures Valid() && minimized <= old(minimized)
      ensures r.None? <==> forall e :: e in old(minimized) ==> e.0 in dead
      ensures r.None? ==> minimized == []
      ensures r.Some? ==>
        && |minimized| < |old(minimized)| && old(minimized)[|minimized|] == r.value
        && Alive(r.value.0) && !IsMinimized(r.value.0) && r.value.0 !in windows
        && forall i :: |minimized| < i < |old(minimized)| ==> old(minimized)[i].0 in dead
    {
      ghost var was := minimized;
      r := None;
      while minimized != [] && r.None?
        invariant Valid() && minimized <= was
        invariant r.None? ==> forall i :: |minimized| <= i < |was| ==> was[i].0 in dead
        invariant r.Some? ==>
          && |minimized| < |was| && was[|minimized|] == r.value
          && Alive(r.value.0) && !IsMinimized(r.value.0) && r.value.0 !in windows
          && forall i :: |minimized| < i < |was| ==> was[i].0 in dead
        decreases |minimized|
      {
        var n := |minimized| - 1;
        var e := minimized[n];
        assert Minimized(minimized)[n] == e.0 && was[n] == e;
        TakenOut(minimized, n);
        minimized := minimized[..n];
        r := if Alive(e.0) then Some(e) else None;
      }
    }

    /** Restore the last living window minimized; those above it whose client is
        gone are dropped. */
    method UnminimizeLast()
      requires Valid()
      modifies this
      ensures Valid() && active == old(active) && dead == old(dead) && minimized <= old(minimized)
      ensures (forall e :: e in old(minimized) ==> e.0 in dead) ==>
                minimized == [] && windows == old(windows) && space == old(space) && kbFocus == old(kbFocus)
      ensures (exists e :: e in old(minimized) && e.0 !in dead) ==>
                && |minimized| < |old(minimized)|
                && (forall i :: |minimized| < i < |old(minimized)| ==> old(minimized)[i].0 in dead)
                && var (w, loc) := old(minimized)[|minimized|];
                  && Alive(w) && kbFocus == Some(w) && FocusVisible()
                  && windows == old(windows)[w := WindowInfo(active, loc)] && space == old(space)[w := loc]
    {
      var e := PopLive();
      if e.Some? {
        MapBack(e.value.0, e.value.1);
        FocusWindow(e.value.0);
      }
    }

    lemma TakenOut(stack: seq<(Win, Point)>, i: nat)
      requires i < |stack| && NoRepeats(Minimized(stack))
      ensures var rest := stack[..i] + stack[i + 1..];
        && NoRepeats(Minimized(rest))
        && (forall w :: w in Minimized(rest) <==> w in Minimized(stack) && w != stack[i].0)
        && (forall e :: e in rest <==> e in stack && e.0 != stack[i].0)
      ensures i == |stack| - 1 ==> stack[..i] + stack[i + 1..] == stack[..i]
    {
      var rest, names := stack[..i] + stack[i + 1..], Minimized(stack);
      assert forall j :: 0 <= j < |rest| ==> Minimized(rest)[j] == names[if j < i then j else j + 1];
      forall e ensures e in rest <==> e in stack && e.0 != stack[i].0 {
        EntryTakenOut(stack, i, e);
      }
      forall w ensures w in Minimized(rest) <==> w in names && w != stack[i].0 {
        NameHasEntry(rest, w);
        NameHasEntry(stack, w);
      }
    }

    lemma EntryTakenOut(stack: seq<(Win, Point)>, i: nat, e: (Win, Point))
      requires i < |stack| && NoRepeats(Minimized(stack))
      ensures e in stack[..i] + stack[i + 1..] <==> e in stack && e.0 != stack[i].0
    {
      var rest, names := stack[..i] + stack[i + 1..], Minimized(stack);
      assert stack == stack[..i] + [stack[i]] + stack[i + 1..];
      if e in rest {
        var j :| 0 <= j < |rest| && rest[j] == e;
        var k := if j < i then j else j + 1;
        assert stack[k] == e && names[k] == e.0 && names[i] == stack[i].0;
      }
    }

    lemma NameHasEntry(stack: seq<(Win, Point)>, w: Win)
      ensures w in Minimized(stack) <==> exists e :: e in stack && e.0 == w
    {
      if w in Minimized(stack) {
        var j :| 0 <= j < |stack| && Minimized(stack)[j] == w;
        assert stack[j] in stack;
      }
      if e :| e in stack && e.0 == w {
        var j :| 0 <= j < |stack| && stack[j] == e;
        assert Minimized(stack)[j] == w;
      }
    }

    // ----- workspaces -----

    /** Drop everything whose client is gone. */
    method PruneDead()
      requires Valid()
      modifies this`windows, this`focusHistory
      ensures windows == AliveIn(old(windows), dead)
      ensures |focusHistory| == count
      ensures forall ws :: 0 <= ws < count ==>
                focusHistory[ws] == Living(old(focusHistory)[ws], dead)
                && Pruned(old(focusHistory)[ws], focusHistory[ws], dead)
      ensures forall ws :: 0 <= ws < count ==> StackOk(focusHistory[ws], windows, dead, ws)
    {
      windows := AliveIn(windows, dead);
      ghost var live := windows;
      for ws := 0 to count
        invariant |focusHistory| == count && windows == live
        invariant forall k :: 0 <= k < ws ==> focusHistory[k] == Living(old(focusHistory)[k], dead)
        invariant forall k :: ws <= k < count ==> focusHistory[k] == old(focusHistory)[k]
      {
        focusHistory := focusHistory[ws := Living(focusHistory[ws], dead)];
      }
      forall ws | 0 <= ws < count
        ensures StackOk(focusHistory[ws], windows, dead, ws)
                && Pruned(old(focusHistory)[ws], focusHistory[ws], dead)
      {
        LivingKeeps(old(focusHistory)[ws], dead);
        LivingPruned(old(focusHistory)[ws], dead);
      }
    }

    /** The stack of the workspace being left: its living windows, the focused one
        on top. */
    ghost function Left(): seq<Win>
      requires Valid()
      reads this
    {
      var stack := Living(focusHistory[active], dead);
      if FocusedWindow().None? then stack else Dropping(stack, FocusedWindow().value) + [FocusedWindow().value]
    }

    /** Prune, remember focus on the stack and positions with the windows. */
    method Leave()
      requires Valid()
      modifies this`windows, this`focusHistory
      ensures windows == Recorded(old(windows), old(space), dead)
      ensures |focusHistory| == count && focusHistory[active] == old(Left())
      ensures forall ws :: 0 <= ws < count && ws != active ==> focusHistory[ws] == Living(old(focusHistory)[ws], dead)
      ensures forall ws :: 0 <= ws < count ==> StackOk(focusHistory[ws], windows, dead, ws)
    {
      var focused := FocusedWindow();
      PruneDead();
      RememberFocused(focused);
      RecordLocations();
    }

    method RememberFocused(focused: Option<Win>)
      requires active < count == |focusHistory|
      requires forall ws :: 0 <= ws < count ==> StackOk(focusHistory[ws], windows, dead, ws)
      requires focused.Some? ==>
                 focused.value in dead || (focused.value in windows && windows[focused.value].workspace == active)
      modifies this`focusHistory
      ensures focusHistory ==
              if focused.None? then old(focusHistory)
              else old(focusHistory)[active := Dropping(old(focusHistory)[active], focused.value) + [focused.value]]
      ensures forall ws :: 0 <= ws < count ==> StackOk(focusHistory[ws], windows, dead, ws)
    {
      if focused.Some? {
        PushedOk(focusHistory[active], windows, dead, active, focused.value);
        RecordFocus(active, focused.value);
      }
    }

    /** Remember with every mapped window where it is. */
    method RecordLocations()
      requires |focusHistory| == count
      requires forall ws :: 0 <= ws < count ==> StackOk(focusHistory[ws], windows, dead, ws)
      modifies this`windows
      ensures windows == Placed(old(windows), space)
      ensures forall ws :: 0 <= ws < count ==> StackOk(focusHistory[ws], windows, dead, ws)
    {
      windows := Placed(windows, space);
      forall ws | 0 <= ws < count ensures StackOk(focusHistory[ws], windows, dead, ws) {
        assert StackOk(focusHistory[ws], old(windows), dead, ws);
      }
    }

    /** Leave the active workspace and map what is on the other. */
    method Enter(target: nat)
      requires Valid() && target < count && target != active
      modifies this`active, this`windows, this`focusHistory, this`space
      ensures Valid() && active == target
      ensures windows == Recorded(old(windows), old(space), dead) && space == MapIn(windows, target)
      ensures focusHistory[old(active)] == old(Left())
      ensures forall ws :: 0 <= ws < count && ws != old(active) ==>
                focusHistory[ws] == Living(old(focusHistory)[ws], dead)
    {
      Leave();
      active, space := target, MapIn(windows, target);
    }

    method FocusWorkspace(target: nat)
      requires Valid() && target < count
      modifies this
      ensures Valid() && active == target && dead == old(dead) && minimized == old(minimized)
      ensures target == old(active) ==>
                windows == old(windows) && space == old(space) && focusHistory == old(focusHistory)
                  && kbFocus == old(kbFocus)
      ensures target != old(active) ==>
                && windows == Recorded(old(windows), old(space), dead)
                && space == MapIn(windows, target)
                && focusHistory[old(active)] == old(Left())
                && (forall ws :: 0 <= ws < count && ws != old(active) && ws != target ==>
                      focusHistory[ws] == Living(old(focusHistory)[ws], dead))
                && focusHistory[target] == Settled(Living(old(focusHistory)[target], dead), space.Keys, dead)
                && kbFocus == Latest(Living(old(focusHistory)[target], dead), space.Keys, dead)
                && Picked(old(focusHistory)[target], space.Keys, dead, {}, kbFocus)
                && FocusVisible()
    {
      if target != active {
        ghost var stack := focusHistory[target];
        Enter(target);
        PickedLiving(stack, space.Keys, dead);
        Refocus();
      }
    }

    /** Away and back: what was mapped and is still alive is mapped again in the same
        place, and the window that had focus, if alive, has it again. */
    method LeaveAndReturn(target: nat)
      requires Valid() && target < count && target != active
      modifies this
      ensures Valid() && active == old(active) && dead == old(dead) && minimized == old(minimized)
      ensures space == old(space) - dead
      ensures old(FocusedWindow()).Some? && Alive(old(FocusedWindow()).value) ==> kbFocus == old(FocusedWindow())
    {
      var home := active;
      var focused := FocusedWindow();
      ThereAndBack(windows, space, dead, dead, home, target);
      FocusWorkspace(target);
      ghost var stack := focusHistory[home];
      assert focused.Some? ==> stack != [] && stack[|stack| - 1] == focused.value;
      FocusWorkspace(home);
      TopIsPicked(stack, space.Keys, dead);
    }

    lemma TopIsPicked(s: seq<Win>, shown: set<Win>, dead: set<Win>)
      ensures s != [] && s[|s| - 1] !in dead && s[|s| - 1] in shown ==>
                Latest(Living(s, dead), shown, dead) == Some(s[|s| - 1])
    {
      if s != [] && s[|s| - 1] !in dead {
        var l := Living(s, dead);
        assert l[|l| - 1] == s[|s| - 1];
      }
    }

    /** Switch to the workspace `w` is on. */
    method Summon(w: Win)
      requires Valid() && w in windows
      modifies this
      ensures Valid() && dead == old(dead) && minimized == old(minimized)
      ensures active == old(windows)[w].workspace && (Alive(w) ==> w in space)
      ensures windows.Keys <= old(windows).Keys
      ensures w in old(space) ==> space == old(space) && windows == old(windows)
      ensures Alive(w) && w !in old(space) ==> space[w] == old(windows)[w].savedLocation
    {
      if windows[w].workspace != active {
        FocusWorkspace(windows[w].workspace);
      }
    }

    /** Bring `w` to where it can be focused: off the minimized stack, its workspace
        the active one. */
    method Reach(w: Win)
      requires Valid() && (w in windows || IsMinimized(w) || w in dead)
      modifies this
      ensures Valid() && (w in space || w in dead) && dead == old(dead)
      ensures minimized == Unstacked(old(minimized), w) && !IsMinimized(w)
      ensures active == if w in old(windows) then old(windows)[w].workspace else old(active)
      ensures windows.Keys <= old(windows).Keys + {w}
      ensures w in old(space) ==> space == old(space) && windows == old(windows)
      ensures Alive(w) && w in old(windows) && w !in old(space) ==> space[w] == old(windows)[w].savedLocation
      ensures old(IsMinimized(w)) ==> exists loc :: (w, loc) in old(minimized) && space == old(space)[w := loc]
      ensures w !in old(windows) && !old(IsMinimized(w)) ==> space == old(space) && windows == old(windows)
    {
      var loc := TakeMinimized(w);
      if loc.Some? {
        MapBack(w, loc.value);
      } else if w in windows {
        Summon(w);
      }
    }

    /** Bring `w` forward, wherever it is. One that closed while minimized can still
        be named after it has left the minimized stack too. */
    method ActivateWindow(w: Win)
      requires Valid() && (w in windows || IsMinimized(w) || w in dead)
      modifies this
      ensures Valid() && FocusVisible() && kbFocus == Some(w) && dead == old(dead) && !IsMinimized(w)
      ensures minimized == Unstacked(old(minimized), w)
      ensures active == if w in old(windows) then old(windows)[w].workspace else old(active)
      ensures Alive(w) ==> w in space
      ensures windows.Keys <= old(windows).Keys + {w}
      ensures w in old(space) ==> space == old(space) && windows == old(windows)
      ensures Alive(w) && w in old(windows) && w !in old(space) ==> space[w] == old(windows)[w].savedLocation
      ensures old(IsMinimized(w)) ==> exists loc :: (w, loc) in old(minimized) && space == old(space)[w := loc]
      ensures w !in old(windows) && !old(IsMinimized(w)) ==> space == old(space) && windows == old(windows)
    {
      Reach(w);
      FocusWindow(w);
    }

    /** Where `w` is moved to another workspace: its position is remembered, it goes
        on top of the stack there and off its own, and it is mapped or unmapped to
        suit. */
    method Reassign(w: Win, target: nat)
      requires Valid() && target < count && w in windows && windows[w].workspace != target
      modifies this`windows, this`space, this`focusHistory
      ensures Valid()
      ensures windows == old(windows)[w := WindowInfo(target,
                if w in old(space) then old(space)[w] else old(windows)[w].savedLocation)]
      ensures space == if target == active then old(space)[w := windows[w].savedLocation] else old(space) - {w}
      ensures focusHistory == HistoryMoved(old(focusHistory), w, old(windows)[w].workspace, target)
    {
      var current := windows[w].workspace;
      var place := if w in space then space[w] else windows[w].savedLocation;
      windows := windows[w := WindowInfo(target, place)];
      HistoryMovedOk(focusHistory, old(windows), windows, dead, w, current, target);
      RecordFocus(target, w);
      focusHistory := focusHistory[current := Dropping(focusHistory[current], w)];
      assert focusHistory == HistoryMoved(old(focusHistory), w, current, target);
      if target == active {
        if w !in space {
          space := space[w := windows[w].savedLocation];
        }
      } else if current == active {
        space := space - {w};
      }
    }

    /** Move a tracked window to another workspace. Focus moves on only when the
        focused window left the screen, to what is topmost of the rest. */
    method SendTo(w: Win, target: nat)
      requires Valid() && target < count && w in windows && windows[w].workspace != target
      modifies this`windows, this`space, this`focusHistory, this`kbFocus
      ensures Valid()
      ensures var home := old(windows)[w].workspace;
              var moved := HistoryMoved(old(focusHistory), w, home, target);
              var left := old(FocusedWindow()) == Some(w) && target != active;
              && windows == old(windows)[w := WindowInfo(target,
                   if w in old(space) then old(space)[w] else old(windows)[w].savedLocation)]
              && space == (if target == active then old(space)[w := windows[w].savedLocation] else old(space) - {w})
              && focusHistory == (if left then moved[active := Settled(moved[active], space.Keys, dead)] else moved)
              && kbFocus == (if left then Latest(moved[active], space.Keys, dead) else old(kbFocus))
              && Raised(old(focusHistory)[target], focusHistory[target], w)
              && (if left then Picked(old(focusHistory)[active], space.Keys, dead, {w}, kbFocus)
                  else TakenOff(old(focusHistory)[home], focusHistory[home], w))
      ensures old(FocusVisible()) ==> FocusVisible()
    {
      var wasFocused := FocusedWindow() == Some(w);
      ghost var home := focusHistory[windows[w].workspace];
      HistoryMovedMeans(focusHistory, w, windows[w].workspace, target);
      Reassign(w, target);
      if wasFocused && target != active {
        PickedWithout(home, space.Keys, dead, w);
        Refocus();
      }
    }

    /** Send `w` to the workspace numbered `index` from one, without switching. */
    method MoveWindowToWorkspace(w: Win, index: int) returns (error: Option<MoveError>)
      requires Valid()
      modifies this
      ensures Valid() && active == old(active) && dead == old(dead) && minimized == old(minimized)
      ensures error ==
        if !(1 <= index <= count) then Some(OutOfRange)
        else if IsMinimized(w) then Some(MoveError.IsMinimized)
        else if w !in old(windows) then Some(NotAssigned)
        else None
      ensures error.Some? || old(windows)[w].workspace == index - 1 ==>
                windows == old(windows) && space == old(space) && focusHistory == old(focusHistory)
                  && kbFocus == old(kbFocus)
      ensures error.None? && old(windows)[w].workspace != index - 1 ==>
                var home := old(windows)[w].workspace;
                var moved := HistoryMoved(old(focusHistory), w, home, index - 1);
                var left := old(FocusedWindow()) == Some(w) && index - 1 != active;
                && windows == old(windows)[w := WindowInfo(index - 1,
                     if w in old(space) then old(space)[w] else old(windows)[w].savedLocation)]
                && space == (if index - 1 == active then old(space)[w := windows[w].savedLocation]
                   else old(space) - {w})
                && focusHistory == (if left then moved[active := Settled(moved[active], space.Keys, dead)] else moved)
                && kbFocus == (if left then Latest(moved[active], space.Keys, dead) else old(kbFocus))
                && Raised(old(focusHistory)[index - 1], focusHistory[index - 1], w)
                && (if left then Picked(old(focusHistory)[active], space.Keys, dead, {w}, kbFocus)
                    else TakenOff(old(focusHistory)[home], focusHistory[home], w))
      ensures old(FocusVisible()) ==> FocusVisible()
    {
      if !(1 <= index <= count) {
        return Some(OutOfRange);
      }
      if IsMinimized(w) {
        return Some(MoveError.IsMinimized);
      }
      if w !in windows {
        return Some(NotAssigned);
      }
      if windows[w].workspace != index - 1 {
        SendTo(w, index - 1);
      }
      return None;
    }
  }

  /** Minimizing the focused window leaves the keyboard with it, out of sight. */
  method FocusStaysOnMinimized() returns (d: Desktop)
    ensures fresh(d) && d.Valid() && d.IsMinimized(7) && d.kbFocus == Some(7) && !d.FocusVisible()
  {
    d := new Desktop(2);
    d.MapNew(7, Point(10, 20));
    d.MinimizeWindow(7);
  }

  /** A window closed while minimized: its close is not announced and its entry stays. */
  method ClosedWhileMinimized() returns (d: Desktop, announced: bool)
    ensures fresh(d) && d.Valid() && 7 in d.dead && d.minimized == [(7, Point(10, 20))] && !announced
    ensures d.IsMinimized(7)
  {
    d := new Desktop(2);
    d.MapNew(7, Point(10, 20));
    d.MinimizeWindow(7);
    d.Die(7);
    announced := d.ToplevelDestroyed(7);
  }
}
