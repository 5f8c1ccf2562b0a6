/** The tile / maximize / fullscreen machine of `src/layout.rs`, with the client's
    own size lagging behind what it was told until it commits. */
module Layout {
  import opened Geometry
  import opened Wrappers
  import Arrange

  datatype LayoutState = Floating | TiledLeft | TiledRight | Maximized | Fullscreen

  datatype WindowMeta = WindowMeta(layout: LayoutState, savedRect: Option<Rect>, preFullscreen: Option<LayoutState>)

  datatype Size = Size(w: int, h: int)

  type WindowId = nat

  const DEFAULT_META := WindowMeta(Floating, None, None)

  predicate IsTile(s: LayoutState) {
    s.TiledLeft? || s.TiledRight? || s.Maximized?
  }

  /** Everything the layout code reads or writes about one window: its entry in
      the side table, where it is mapped, the size (if any) and state bits last sent
      to the client, and the size the client last committed. A new window is sent no
      size: it picks its own. */
  datatype View = View(
    meta: WindowMeta,
    loc: Option<Point>,
    configured: Option<Size>,
    maximizedBit: bool,
    fullscreenBit: bool,
    geometry: Size)

  /** Target rect of a tile or maximize state; the other two do not derive from
      the usable rect. */
  function TiledRect(usable: Rect, target: LayoutState): Option<Rect> {
    var halfW := Arrange.TruncDiv(usable.w, 2);
    match target
    case TiledLeft => Some(Rect(usable.x, usable.y, halfW, usable.h))
    case TiledRight => Some(Rect(usable.x + halfW, usable.y, usable.w - halfW, usable.h))
    case Maximized => Some(usable)
    case Floating => None
    case Fullscreen => None
  }

  lemma TileHalvesPartition(usable: Rect)
    ensures Partitions([TiledRect(usable, TiledLeft).value, TiledRect(usable, TiledRight).value], usable)
  {
    var l, r := TiledRect(usable, TiledLeft).value, TiledRect(usable, TiledRight).value;
    forall p ensures Cover([l, r], p) == if Contains(usable, p) then 1 else 0 {
      assert [l, r][..1] == [l] && [l][..0] == [];
      assert Cover([l], p) == if Contains(l, p) then 1 else 0;
    }
  }

  /** The left tile is the left half and the right tile the right one, each as high as
      the usable area; they differ by a column at most, which goes to the right. */
  lemma TileHalvesEven(usable: Rect)
    requires usable.w >= 0
    ensures var l, r := TiledRect(usable, TiledLeft).value, TiledRect(usable, TiledRight).value;
      && (l.x, l.y, l.h) == (usable.x, usable.y, usable.h) && (r.y, r.h) == (usable.y, usable.h)
      && l.x + l.w == r.x && r.x + r.w == usable.x + usable.w
      && 0 <= l.w <= r.w <= l.w + 1
    ensures TiledRect(usable, Maximized) == Some(usable)
    ensures TiledRect(usable, Floating).None? && TiledRect(usable, Fullscreen).None?
  {
  }

  /** Location in the space plus the client's committed size. */
  function CurrentRect(v: View): Rect {
    var at := GetOr(v.loc, Point(0, 0));
    Rect(at.x, at.y, v.geometry.w, v.geometry.h)
  }

  /** The view after a geometry change is sent for `state`. */
  function Configured(v: View, rect: Rect, state: LayoutState): View {
    v.(loc := Some(Point(rect.x, rect.y)),
       configured := Some(Size(rect.w, rect.h)),
       maximizedBit := state.Maximized?,
       fullscreenBit := state.Fullscreen?)
  }

  // ----- what each operation does to one window -----

  /** `Commit`: the client commits the last size it was sent, or one of its own where
      it was sent none. */
  datatype Op =
    | SetLayout(target: LayoutState, usable: Option<Rect>)
    | Maximize(usable: Option<Rect>)
    | Unmaximize(usable: Option<Rect>)
    | SetFullscreen(output: Rect)
    | UnsetFullscreen(usable: Option<Rect>)
    | ArrangeTo(rect: Rect)
    | Commit(own: Size)

  predicate Allowed(op: Op) {
    op.SetLayout? ==> IsTile(op.target)
  }

  function AfterSetLayout(v: View, target: LayoutState, usable: Option<Rect>): View
    requires IsTile(target)
  {
    if usable.None? then v
    else if v.meta.layout == target then
      var home := GetOr(v.meta.savedRect, CurrentRect(v));
      Configured(v.(meta := v.meta.(layout := Floating, savedRect := None)), home, Floating)
    else
      var saved := if v.meta.layout.Floating? then Some(CurrentRect(v)) else v.meta.savedRect;
      Configured(v.(meta := v.meta.(layout := target, savedRect := saved)), TiledRect(usable.value, target).value,
        target)
  }

  function AfterSetFullscreen(v: View, output: Rect): View {
    var meta :=
      if v.meta.layout.Fullscreen? then v.meta
      else WindowMeta(
        Fullscreen,
        if v.meta.layout.Floating? then Some(CurrentRect(v)) else v.meta.savedRect,
        Some(v.meta.layout));
    Configured(v.(meta := meta), output, Fullscreen)
  }

  function AfterUnsetFullscreen(v: View, usable: Option<Rect>): View {
    if !v.meta.layout.Fullscreen? || usable.None? then v
    else
      var prev := GetOr(v.meta.preFullscreen, Floating);
      match TiledRect(usable.value, prev)
      case Some(rect) => Configured(v.(meta := v.meta.(layout := prev, preFullscreen := None)), rect, prev)
      case None =>
        var home := GetOr(v.meta.savedRect, CurrentRect(v));
        Configured(v.(meta := DEFAULT_META), home, Floating)
  }

  function Step(v: View, op: Op): View
    requires Allowed(op)
  {
    match op
    case SetLayout(target, usable) => AfterSetLayout(v, target, usable)
    case Maximize(usable) => if v.meta.layout.Maximized? then v else AfterSetLayout(v, Maximized, usable)
    case Unmaximize(usable) => if v.meta.layout.Maximized? then AfterSetLayout(v, Maximized, usable) else v
    case SetFullscreen(output) => AfterSetFullscreen(v, output)
    case UnsetFullscreen(usable) => AfterUnsetFullscreen(v, usable)
    case ArrangeTo(rect) => Configured(v.(meta := DEFAULT_META), rect, Floating)
    case Commit(own) => v.(geometry := GetOr(v.configured, own))
  }

  function Run(v: View, ops: seq<Op>): View
    requires forall op :: op in ops ==> Allowed(op)
    decreases |ops|
  {
    if ops == [] then v else Run(Step(v, ops[0]), ops[1..])
  }

  // ----- laws -----

  /** Floating exactly when nothing is saved, fullscreen only with somewhere to
      return to, and the client told exactly the bits of its state, and a size unless
      it is Floating. */
  predicate Sound(v: View) {
    && (v.meta.layout.Floating? <==> v.meta.savedRect.None?)
    && (v.meta.layout.Fullscreen? ==> v.meta.preFullscreen.Some? && !v.meta.preFullscreen.value.Fullscreen?)
    && v.maximizedBit == v.meta.layout.Maximized?
    && v.fullscreenBit == v.meta.layout.Fullscreen?
    && (!v.meta.layout.Floating? ==> v.configured.Some?)
  }

  lemma StepSound(v: View, op: Op)
    requires Sound(v) && Allowed(op)
    ensures Sound(Step(v, op))
  {
  }

  lemma {:induction false} RunSound(v: View, ops: seq<Op>)
    requires Sound(v) && forall op :: op in ops ==> Allowed(op)
    ensures Sound(Run(v, ops))
    decreases |ops|
  {
    if ops != [] {
      StepSound(v, ops[0]);
      RunSound(Step(v, ops[0]), ops[1..]);
    }
  }

  /** The size the client stands at once it has caught up: the last it was sent, or
      its own where it was sent none. */
  function Standing(v: View): Size {
    GetOr(v.configured, v.geometry)
  }

  /** The floating rect the window stands at, or will come back to. */
  function Home(v: View): Rect
    requires Sound(v)
  {
    if v.meta.layout.Floating? then
      var at := GetOr(v.loc, Point(0, 0));
      Rect(at.x, at.y, Standing(v).w, Standing(v).h)
    else v.meta.savedRect.value
  }

  /** The rect the window stands at, once the client has caught up. */
  function Stands(v: View): Rect {
    var at := GetOr(v.loc, Point(0, 0));
    Rect(at.x, at.y, Standing(v).w, Standing(v).h)
  }

  /** Where each operation leaves the window: a tile or maximize asked for again goes
      back to the floating rect, except that `Maximize` only maximizes and `Unmaximize`
      only undoes that. */
  lemma StepLands(v: View, op: Op, usable: Rect)
    requires Sound(v) && Allowed(op)
    ensures var w, was := Step(v, op), v.meta.layout;
      match op
      case SetLayout(target, u) =>
        if u.None? then w == v
        else if was == target then w.meta.layout.Floating? && Stands(w) == Home(v)
        else w.meta.layout == target && Stands(w) == TiledRect(u.value, target).value
      case Maximize(u) =>
        if was.Maximized? || u.None? then w == v else w.meta.layout.Maximized? && Stands(w) == u.value
      case Unmaximize(u) =>
        if !was.Maximized? || u.None? then w == v else w.meta.layout.Floating? && Stands(w) == Home(v)
      case SetFullscreen(output) => w.meta.layout.Fullscreen? && Stands(w) == output
      case UnsetFullscreen(u) =>
        if !was.Fullscreen? || u.None? then w == v
        else
          var prev := v.meta.preFullscreen.value;
          w.meta.layout == prev && Stands(w) == if prev.Floating? then Home(v) else TiledRect(u.value, prev).value
      case ArrangeTo(rect) => w.meta == DEFAULT_META && Stands(w) == rect
      case Commit(own) => w.meta == v.meta && w.loc == v.loc && Settled(w)
  {
  }

  predicate LeavesFloating(v: View, op: Op)
    requires Allowed(op)
  {
    v.meta.layout.Floating? && !Step(v, op).meta.layout.Floating?
  }

  /** The client owes no commit: it is at the size it was last sent, if any. */
  predicate Settled(v: View) {
    v.geometry == Standing(v)
  }

  /** A client that was sent no size picks another one. */
  predicate ResizesItself(v: View, op: Op) {
    op.Commit? && v.configured.None? && op.own != v.geometry
  }

  /** Nothing but the client's own resizing moves the home rect, except leaving
      Floating while the client still owes a commit. */
  predicate StaysHome(v: View, op: Op)
    requires Allowed(op)
  {
    (LeavesFloating(v, op) ==> Settled(v)) && !ResizesItself(v, op)
  }

  /** One step keeps the home rect exactly under that condition. */
  lemma StepKeepsHome(v: View, op: Op)
    requires Sound(v) && Allowed(op) && !op.ArrangeTo?
    ensures Sound(Step(v, op))
    ensures Home(Step(v, op)) == Home(v) <==> StaysHome(v, op)
  {
  }

  /** So does every step of the run. */
  predicate RunStaysHome(v: View, ops: seq<Op>)
    requires forall op :: op in ops ==> Allowed(op)
    decreases |ops|
  {
    ops != [] ==> StaysHome(v, ops[0]) && RunStaysHome(Step(v, ops[0]), ops[1..])
  }

  /** Any run without an arrange whose steps all stay home ends with the home rect it
      began with; Floating at either end, that is the rect the client stands at. */
  lemma {:induction false} RunKeepsHome(v: View, ops: seq<Op>)
    requires Sound(v) && forall op :: op in ops ==> Allowed(op) && !op.ArrangeTo?
    requires RunStaysHome(v, ops)
    ensures Sound(Run(v, ops)) && Home(Run(v, ops)) == Home(v)
    decreases |ops|
  {
    if ops != [] {
      StepKeepsHome(v, ops[0]);
      RunKeepsHome(Step(v, ops[0]), ops[1..]);
    }
  }

  /** What a user or the client may ask for: a tile, maximize or fullscreen, or its
      undoing. */
  predicate Toggles(op: Op) {
    Allowed(op) && !op.ArrangeTo? && !op.Commit?
  }

  /** The run in which the client catches up after every operation, and does not
      otherwise resize itself. */
  function Acked(v: View, ops: seq<Op>): (r: seq<Op>)
    requires forall op :: op in ops ==> Toggles(op)
    ensures forall op :: op in r ==> Allowed(op) && !op.ArrangeTo?
    decreases |ops|
  {
    if ops == [] then []
    else
      assert Toggles(ops[0]);
      var ack := Commit(Step(v, ops[0]).geometry);
      [ops[0], ack] + Acked(Step(Step(v, ops[0]), ack), ops[1..])
  }

  /** An operation and its ack: home as before, and the client settled again. */
  lemma AckedStep(v: View, op: Op)
    requires Sound(v) && Settled(v) && v.loc.Some? && Toggles(op)
    ensures var w := Step(v, op); var x := Step(w, Commit(w.geometry));
      && StaysHome(v, op) && StaysHome(w, Commit(w.geometry))
      && Sound(x) && Settled(x) && x.loc.Some?
  {
  }

  lemma {:induction false} AckedStaysHome(v: View, ops: seq<Op>)
    requires Sound(v) && Settled(v) && v.loc.Some? && forall op :: op in ops ==> Toggles(op)
    ensures RunStaysHome(v, Acked(v, ops))
    ensures var w := Run(v, Acked(v, ops)); Settled(w) && w.loc.Some?
    decreases |ops|
  {
    if ops != [] {
      var run, w := Acked(v, ops), Step(v, ops[0]);
      var ack := Commit(w.geometry);
      var x := Step(w, ack);
      AckedStep(v, ops[0]);
      AckedStaysHome(x, ops[1..]);
      assert run[1..] == [ack] + Acked(x, ops[1..]) && run[1..][1..] == Acked(x, ops[1..]);
      assert RunStaysHome(w, run[1..]) && Run(w, run[1..]) == Run(x, Acked(x, ops[1..]));
    }
  }

  /** A floating window at `r`, new or not, that owes no commit and catches up with
      each thing it is sent: whatever it is put through, when it is Floating again
      it stands at `r`. */
  lemma RoundTrip(v: View, ops: seq<Op>, r: Rect)
    requires Sound(v) && Settled(v) && forall op :: op in ops ==> Toggles(op)
    requires v.meta.layout.Floating? && v.loc.Some? && CurrentRect(v) == r
    requires Run(v, Acked(v, ops)).meta.layout.Floating?
    ensures var w := Run(v, Acked(v, ops)); w.loc.Some? && CurrentRect(w) == r
  {
    AckedStaysHome(v, ops);
    RunKeepsHome(v, Acked(v, ops));
  }

  /** Without the acks the size does not survive: untile and tile again before the
      client has caught up, and the half-width becomes the floating size. */
  lemma UnackedRoundTripFails()
    ensures var v := View(DEFAULT_META, Some(Point(10, 20)), None, false, false, Size(300, 200));
      var tile, ack := SetLayout(TiledLeft, Some(Rect(0, 0, 1000, 800))), Commit(Size(300, 200));
      var w := Run(v, [tile, ack, tile, tile, tile]);
      Sound(v) && Settled(v) && w.meta.layout.Floating? && Home(v) == Rect(10, 20, 300, 200)
      && Sound(w) && Home(w) == Rect(10, 20, 500, 800)
  {
    var v := View(DEFAULT_META, Some(Point(10, 20)), None, false, false, Size(300, 200));
    var tile, ack := SetLayout(TiledLeft, Some(Rect(0, 0, 1000, 800))), Commit(Size(300, 200));
    var v1 := Step(v, tile);
    assert v1.configured == Some(Size(500, 800));
    var v2 := Step(v1, ack);
    var v3 := Step(v2, tile);
    assert v3.meta == DEFAULT_META && v3.configured == Some(Size(300, 200));
    var v4 := Step(v3, tile);
    assert v4.meta.savedRect == Some(Rect(10, 20, 500, 800));
    var v5 := Step(v4, tile);
    assert [tile, ack, tile, tile, tile][1..] == [ack, tile, tile, tile];
    assert [ack, tile, tile, tile][1..] == [tile, tile, tile];
    assert [tile, tile, tile][1..] == [tile, tile] && [tile, tile][1..] == [tile] && [tile][1..] == [];
    assert Run(v4, [tile]) == v5 && Run(v3, [tile, tile]) == v5 && Run(v2, [tile, tile, tile]) == v5;
  }

  /** Fullscreening and then unfullscreening returns the window to the state it was
      in: a tile or maximize state at that state's rect for the output's current
      usable area, Floating at the rect it stood at. Already fullscreen, it
      returns to where the first fullscreen found it. */
  lemma FullscreenRoundTrip(v: View, output: Rect, usable: Rect)
    requires Sound(v)
    ensures var w := AfterUnsetFullscreen(AfterSetFullscreen(v, output), Some(usable));
      var before := if v.meta.layout.Fullscreen? then v.meta.preFullscreen.value else v.meta.layout;
      && w.meta.layout == before
      && w.meta.preFullscreen == None
      && (IsTile(before) ==> w == Configured(w, TiledRect(usable, before).value, before)
                             && w.meta.savedRect == v.meta.savedRect)
      && (before.Floating? ==>
            Sound(w) && Home(w) == if v.meta.layout.Floating? then CurrentRect(v) else Home(v))
  {
  }

  // ----- the side table and the space -----

  class LayoutManager {
    var meta: map<WindowId, WindowMeta>
    /** `Space`: where each mapped window is. */
    var location: map<WindowId, Point>
    var configured: map<WindowId, Size>
    var maximizedBits: set<WindowId>
    var fullscreenBits: set<WindowId>
    var geometry: map<WindowId, Size>

    constructor ()
      ensures meta == map[] && location == map[] && configured == map[] && geometry == map[]
      ensures forall w :: ViewOf(w) == View(DEFAULT_META, None, None, false, false, Size(0, 0))
    {
      meta, location, configured, geometry := map[], map[], map[], map[];
      maximizedBits, fullscreenBits := {}, {};
    }

    function ViewOf(w: WindowId): View
      reads this
    {
      View(if w in meta then meta[w] else DEFAULT_META,
           if w in location then Some(location[w]) else None,
           if w in configured then Some(configured[w]) else None,
           w in maximizedBits,
           w in fullscreenBits,
           if w in geometry then geometry[w] else Size(0, 0))
    }

    method ApplyGeometry(w: WindowId, rect: Rect, state: LayoutState)
      modifies this`location, this`configured, this`maximizedBits, this`fullscreenBits
      ensures ViewOf(w) == Configured(old(ViewOf(w)), rect, state)
      ensures forall o :: o != w ==> ViewOf(o) == old(ViewOf(o))
    {
      configured := configured[w := Size(rect.w, rect.h)];
      if state.Maximized? {
        maximizedBits := maximizedBits + {w};
      } else {
        maximizedBits := maximizedBits - {w};
      }
      if state.Fullscreen? {
        fullscreenBits := fullscreenBits + {w};
      } else {
        fullscreenBits := fullscreenBits - {w};
      }
      location := location[w := Point(rect.x, rect.y)];
    }

    method SetLayout(w: WindowId, target: LayoutState, usable: Option<Rect>)
      requires IsTile(target)
      modifies this
      ensures ViewOf(w) == AfterSetLayout(old(ViewOf(w)), target, usable)
      ensures forall o :: o != w ==> ViewOf(o) == old(ViewOf(o))
    {
      if usable.None? {
        return;
      }
      var current := CurrentRect(ViewOf(w));
      var m := if w in meta then meta[w] else DEFAULT_META;
      if m.layout == target {
        var restore := GetOr(m.savedRect, current);
        meta := meta[w := m.(layout := Floating, savedRect := None)];
        ApplyGeometry(w, restore, Floating);
        return;
      }
      if m.layout.Floating? {
        m := m.(savedRect := Some(current));
      }
      meta := meta[w := m.(layout := target)];
      ApplyGeometry(w, TiledRect(usable.value, target).value, target);
    }

    method MaximizeWindow(w: WindowId, usable: Option<Rect>)
      modifies this
      ensures ViewOf(w) == Step(old(ViewOf(w)), Maximize(usable))
      ensures forall o :: o != w ==> ViewOf(o) == old(ViewOf(o))
    {
      if ViewOf(w).meta.layout.Maximized? {
        return;
      }
      SetLayout(w, Maximized, usable);
    }

    method UnmaximizeWindow(w: WindowId, usable: Option<Rect>)
      modifies this
      ensures ViewOf(w) == Step(old(ViewOf(w)), Unmaximize(usable))
      ensures forall o :: o != w ==> ViewOf(o) == old(ViewOf(o))
    {
      if !ViewOf(w).meta.layout.Maximized? {
        return;
      }
      SetLayout(w, Maximized, usable);
    }

    method SetFullscreen(w: WindowId, output: Rect)
      modifies this
      ensures ViewOf(w) == AfterSetFullscreen(old(ViewOf(w)), output)
      ensures forall o :: o != w ==> ViewOf(o) == old(ViewOf(o))
    {
      var current := CurrentRect(ViewOf(w));
      var m := if w in meta then meta[w] else DEFAULT_META;
      if !m.layout.Fullscreen? {
        m := m.(preFullscreen := Some(m.layout));
        if m.layout.Floating? {
          m := m.(savedRect := Some(current));
        }
        m := m.(layout := Fullscreen);
      }
      meta := meta[w := m];
      ApplyGeometry(w, output, Fullscreen);
    }

    method UnsetFullscreen(w: WindowId, usable: Option<Rect>)
      modifies this
      ensures ViewOf(w) == AfterUnsetFullscreen(old(ViewOf(w)), usable)
      ensures forall o :: o != w ==> ViewOf(o) == old(ViewOf(o))
    {
      if !ViewOf(w).meta.layout.Fullscreen? || usable.None? {
        return;
      }
      var current := CurrentRect(ViewOf(w));
      var m := if w in meta then meta[w] else DEFAULT_META;
      var prev := GetOr(m.preFullscreen, Floating);
      m := m.(preFullscreen := None, layout := prev);
      var tiled := TiledRect(usable.value, prev);
      if tiled.Some? {
        meta := meta[w := m];
        ApplyGeometry(w, tiled.value, prev);
      } else {
        var restore := GetOr(m.savedRect, current);
        meta := meta[w := m.(savedRect := None, layout := Floating)];
        ApplyGeometry(w, restore, Floating);
      }
    }

    method ArrangeOne(w: WindowId, rect: Rect)
      modifies this
      ensures ViewOf(w) == Step(old(ViewOf(w)), ArrangeTo(rect))
      ensures forall o :: o != w ==> ViewOf(o) == old(ViewOf(o))
    {
      meta := meta[w := DEFAULT_META];
      ApplyGeometry(w, rect, Floating);
    }

    /** Tile `windows` in order. They end Floating with nothing saved, at
        rectangles that cut `usable` exactly; no other window moves. */
    method ArrangeWindows(windows: seq<WindowId>, usable: Rect, kind: Arrange.ArrangeKind) returns (rects: seq<Rect>)
      requires forall i, j :: 0 <= i < j < |windows| ==> windows[i] != windows[j]
      modifies this
      ensures |rects| == |windows|
      ensures windows != [] ==> Partitions(rects, usable) && Arrange.Arranged(rects, usable, |windows|, kind)
      ensures forall i :: 0 <= i < |windows| ==>
                ViewOf(windows[i]) == Step(old(ViewOf(windows[i])), ArrangeTo(rects[i]))
      ensures forall o :: o !in windows ==> ViewOf(o) == old(ViewOf(o))
    {
      rects := Arrange.ArrangeRects(usable, |windows|, kind);
      ArrangeAll(windows, rects);
    }

    method ArrangeAll(windows: seq<WindowId>, rects: seq<Rect>)
      requires |rects| == |windows| && forall i, j :: 0 <= i < j < |windows| ==> windows[i] != windows[j]
      modifies this
      ensures forall i :: 0 <= i < |windows| ==>
                ViewOf(windows[i]) == Step(old(ViewOf(windows[i])), ArrangeTo(rects[i]))
      ensures forall o :: o !in windows ==> ViewOf(o) == old(ViewOf(o))
    {
      for i := 0 to |windows|
        invariant forall k :: 0 <= k < i ==>
                    ViewOf(windows[k]) == Step(old(ViewOf(windows[k])), ArrangeTo(rects[k]))
        invariant forall o :: o !in windows[..i] ==> ViewOf(o) == old(ViewOf(o))
      {
        assert windows[..i + 1] == windows[..i] + [windows[i]];
        ArrangeOne(windows[i], rects[i]);
      }
      assert windows[..|windows|] == windows;
    }

    /** The client commits; `own` is the size it picks where it was sent none. */
    method ClientCommit(w: WindowId, own: Size)
      modifies this`geometry
      ensures ViewOf(w) == Step(old(ViewOf(w)), Commit(own))
      ensures forall o :: o != w ==> ViewOf(o) == old(ViewOf(o))
    {
      geometry := geometry[w := if w in configured then configured[w] else own];
    }
  }
}
