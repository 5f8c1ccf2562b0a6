/** The capture subscribers of one output over a run of renders (`push_capture` in
    `src/capture_stream.rs`): backpressure, resizes, session lock and its preview,
    and a tile cache the subscribers share. */
module Mirror {
  import opened Geometry
  import opened Wrappers
  import opened CaptureStream
  import opened Connections

  /** One render of the output: the framebuffer, what changed, whether subscribers
      get the static frame (locked, and the lock preview is not open), and which
      region readbacks fail. */
  datatype Render = Render(fb: Image, damage: Option<seq<Rect>>, locked: bool, fails: Rect -> bool)

  datatype Outcome = Skipped | Pushed | Dropped

  /** The tile of one region in this render. */
  function Encode(render: Render, region: Rect): Option<Tile> {
    if render.locked then Some(Tile(ToRemoteRect(region), FILL_PX))
    else if render.fails(region) then None
    else Some(Tile(ToRemoteRect(region), render.fb.px))
  }

  // ----- regions to tiles -----

  function ClampAll(damage: seq<Rect>, w: int, h: int): (rs: seq<Rect>)
    requires w >= 0 && h >= 0
    ensures forall i :: 0 <= i < |rs| ==> Within(rs[i], Whole(w, h))
  {
    if damage == [] then []
    else
      ClampKeeps(damage[0], w, h, Point(0, 0));
      var c := ClampToBuffer(damage[0], w, h);
      (if c.Some? then [c.value] else []) + ClampAll(damage[1..], w, h)
  }

  lemma {:induction false} ClampAllCovers(damage: seq<Rect>, w: nat, h: nat, p: Point)
    ensures Cover(ClampAll(damage, w, h), p) == if Contains(Whole(w, h), p) then Cover(damage, p) else 0
    ensures Covered(ClampAll(damage, w, h), p) <==> Covered(damage, p) && Contains(Whole(w, h), p)
  {
    if damage != [] {
      var c := ClampToBuffer(damage[0], w, h);
      var first := if c.Some? then [c.value] else [];
      ClampKeeps(damage[0], w, h, p);
      ClampAllCovers(damage[1..], w, h, p);
      CoverConcat(first, ClampAll(damage[1..], w, h), p);
      assert damage == [damage[0]] + damage[1..];
      CoverConcat([damage[0]], damage[1..], p);
      CoverOne(damage[0], p);
      if c.Some? {
        CoverOne(c.value, p);
      }
    }
    CoveredCounts(damage, p);
    CoveredCounts(ClampAll(damage, w, h), p);
  }

  /** The regions a subscriber is due. */
  function Regions(render: Render, full: bool): seq<Rect> {
    if full then [Whole(render.fb.w, render.fb.h)]
    else if render.damage.Some? then ClampAll(render.damage.value, render.fb.w, render.fb.h)
    else []
  }

  /** The tiles of a list of bands, those whose readback fails left out. */
  function TilesFor(render: Render, bands: seq<Rect>): seq<Tile> {
    if bands == [] then []
    else
      var t := Encode(render, bands[|bands| - 1]);
      TilesFor(render, bands[..|bands| - 1]) + if t.Some? then [t.value] else []
  }

  /** How many of some bands read back. */
  function ReadCount(render: Render, bands: seq<Rect>): nat {
    if bands == [] then 0
    else ReadCount(render, bands[..|bands| - 1]) + if Encode(render, bands[|bands| - 1]).Some? then 1 else 0
  }

  /** One tile for each band that reads back, in the order of the bands. */
  lemma {:induction false} TilesInOrder(render: Render, bands: seq<Rect>)
    ensures |TilesFor(render, bands)| == ReadCount(render, bands)
    ensures forall i :: 0 <= i < |bands| && Encode(render, bands[i]).Some? ==>
              && ReadCount(render, bands[..i]) < |TilesFor(render, bands)|
              && TilesFor(render, bands)[ReadCount(render, bands[..i])] == Encode(render, bands[i]).value
  {
    if bands != [] {
      var init := bands[..|bands| - 1];
      TilesInOrder(render, init);
      assert forall i :: 0 <= i < |init| ==> init[..i] == bands[..i];
      assert bands[..|init|] == init;
    }
  }

  /** A tile stands for a rectangle inside the output. */
  lemma {:induction false} TilesWithin(render: Render, bands: seq<Rect>)
    requires forall i :: 0 <= i < |bands| ==> Within(bands[i], Whole(render.fb.w, render.fb.h))
    ensures AllWithin(TilesFor(render, bands), render.fb.w, render.fb.h)
  {
    if bands != [] {
      TilesWithin(render, bands[..|bands| - 1]);
    }
  }

  /** Some band that did read back holds `p`. */
  ghost predicate Read(render: Render, bands: seq<Rect>, p: Point) {
    exists i :: 0 <= i < |bands| && Contains(bands[i], p) && Encode(render, bands[i]).Some?
  }

  ghost predicate OnTile(tiles: seq<Tile>, p: Point) {
    exists i :: 0 <= i < |tiles| && Contains(tiles[i].rect, p)
  }

  ghost predicate FitsWire(img: Image) {
    img.w < 0x1_0000 && img.h < 0x1_0000
  }

  /** The pixels every tile of a render carries. */
  function Source(render: Render): Point -> Pixel {
    if render.locked then FILL_PX else render.fb.px
  }

  lemma OnTileConcat(a: seq<Tile>, b: seq<Tile>, p: Point)
    ensures OnTile(a + b, p) <==> OnTile(a, p) || OnTile(b, p)
  {
    if OnTile(a, p) {
      var i :| 0 <= i < |a| && Contains(a[i].rect, p);
      assert (a + b)[i] == a[i];
    }
    if OnTile(b, p) {
      var i :| 0 <= i < |b| && Contains(b[i].rect, p);
      assert (a + b)[|a| + i] == b[i];
    }
  }

  lemma ReadSnoc(render: Render, init: seq<Rect>, last: Rect, p: Point)
    ensures Read(render, init + [last], p) <==>
              Read(render, init, p) || (Contains(last, p) && Encode(render, last).Some?)
  {
    var bands := init + [last];
    if Read(render, init, p) {
      var i :| 0 <= i < |init| && Contains(init[i], p) && Encode(render, init[i]).Some?;
      assert bands[i] == init[i];
    }
    assert bands[|init|] == last;
    if Read(render, bands, p) {
      var i :| 0 <= i < |bands| && Contains(bands[i], p) && Encode(render, bands[i]).Some?;
      assert i < |init| ==> init[i] == bands[i];
    }
  }

  lemma {:induction false} TilesReach(render: Render, bands: seq<Rect>, p: Point)
    requires FitsWire(render.fb)
    requires forall i :: 0 <= i < |bands| ==> Within(bands[i], Whole(render.fb.w, render.fb.h))
    ensures var tiles := TilesFor(render, bands);
      && (forall i :: 0 <= i < |tiles| ==> tiles[i].px == Source(render))
      && (OnTile(tiles, p) <==> Read(render, bands, p))
  {
    if bands != [] {
      var init, last := bands[..|bands| - 1], bands[|bands| - 1];
      var t := Encode(render, last);
      var added := if t.Some? then [t.value] else [];
      TilesReach(render, init, p);
      WireFits(render.fb.w, render.fb.h);
      assert ToRemoteRect(last) == last;
      OnTileConcat(TilesFor(render, init), added, p);
      assert OnTile(added, p) <==> Contains(last, p) && t.Some? by {
        if t.Some? {
          assert added[0] == t.value;
        }
      }
      ReadSnoc(render, init, last, p);
      assert bands == init + [last];
    }
  }

  /** What drawing a list of bands does to one pixel. */
  lemma DrawBands(img: Image, render: Render, bands: seq<Rect>, p: Point)
    requires FitsWire(render.fb)
    requires forall i :: 0 <= i < |bands| ==> Within(bands[i], Whole(render.fb.w, render.fb.h))
    ensures var d := DrawAll(img, TilesFor(render, bands));
      && d.w == img.w && d.h == img.h
      && d.px(p) == if Read(render, bands, p) then Source(render)(p) else img.px(p)
  {
    TilesReach(render, bands, p);
    DrawnPixel(img, TilesFor(render, bands), Source(render), p);
  }

  /** No readback that such a push needs fails. */
  ghost predicate AllRead(render: Render, full: bool) {
    forall r :: r in AllBands(Regions(render, full)) ==> !render.fails(r)
  }

  /** The bands of a push reach, when they all read back, exactly the points of its
      regions. */
  lemma PushReaches(render: Render, full: bool, p: Point)
    requires AllRead(render, full)
    ensures Read(render, AllBands(Regions(render, full)), p) <==> Covered(Regions(render, full), p)
  {
    var bands := AllBands(Regions(render, full));
    AllBandsCover(Regions(render, full), p);
    if Covered(bands, p) {
      var i :| 0 <= i < |bands| && Contains(bands[i], p);
      assert Encode(render, bands[i]).Some?;
    }
  }

  lemma BandsInBounds(render: Render, full: bool)
    ensures forall i :: 0 <= i < |AllBands(Regions(render, full))| ==>
              Within(AllBands(Regions(render, full))[i], Whole(render.fb.w, render.fb.h))
  {
    AllBandsWithin(Regions(render, full), Whole(render.fb.w, render.fb.h));
  }

  /** The damage covers every pixel that changed since `prev`. A change of size
      makes every subscriber due a full frame, so it says nothing then. */
  ghost predicate DamageCovers(prev: Image, render: Render) {
    prev.w == render.fb.w && prev.h == render.fb.h ==>
      forall p :: Contains(Whole(prev.w, prev.h), p) ==>
        prev.px(p) == render.fb.px(p) || (render.damage.Some? && Covered(render.damage.value, p))
  }

  /** A push on an image of the right size shows the framebuffer exactly when every
      pixel it fails to read back is right already. */
  lemma PushExact(img: Image, render: Render, full: bool)
    requires FitsWire(render.fb) && !render.locked && img.w == render.fb.w && img.h == render.fb.h
    ensures var bands := AllBands(Regions(render, full));
      Same(DrawAll(img, TilesFor(render, bands)), render.fb) <==>
      forall p :: Contains(Whole(img.w, img.h), p) && !Read(render, bands, p) ==> img.px(p) == render.fb.px(p)
  {
    var bands := AllBands(Regions(render, full));
    var d := DrawAll(img, TilesFor(render, bands));
    BandsInBounds(render, full);
    DrawBands(img, render, bands, Point(0, 0));
    forall p ensures d.px(p) == if Read(render, bands, p) then render.fb.px(p) else img.px(p) {
      DrawBands(img, render, bands, p);
    }
    if Same(d, render.fb) {
      forall p | Contains(Whole(img.w, img.h), p) && !Read(render, bands, p) ensures img.px(p) == render.fb.px(p) {
        assert d.px(p) == render.fb.px(p);
      }
    }
  }

  /** With every readback good, a full push shows the framebuffer, whatever the
      surface held before. */
  lemma FullPushShows(img: Image, render: Render)
    requires FitsWire(render.fb) && AllRead(render, true) && !render.locked
    ensures Same(DrawAll(img.(w := render.fb.w, h := render.fb.h), TilesFor(render, AllBands(Regions(render, true)))),
            render.fb)
  {
    var base := img.(w := render.fb.w, h := render.fb.h);
    var bands := AllBands(Regions(render, true));
    forall p | Contains(Whole(base.w, base.h), p) ensures Read(render, bands, p) {
      PushReaches(render, true, p);
      CoverOne(Whole(base.w, base.h), p);
    }
    PushExact(base, render, true);
  }

  /** An incremental push on an image of the last render shows this one exactly when
      every pixel it fails to read back is one that had not changed. */
  lemma IncrementalPushExact(img: Image, prev: Image, render: Render)
    requires FitsWire(render.fb) && !render.locked
    requires Same(img, prev) && prev.w == render.fb.w && prev.h == render.fb.h
    ensures var bands := AllBands(Regions(render, false));
      Same(DrawAll(img, TilesFor(render, bands)), render.fb) <==>
      forall p :: Contains(Whole(prev.w, prev.h), p) && !Read(render, bands, p) ==> prev.px(p) == render.fb.px(p)
  {
    PushExact(img, render, false);
  }

  /** With damage that covers the change and every readback good, it does. */
  lemma IncrementalPushShows(img: Image, prev: Image, render: Render)
    requires FitsWire(render.fb) && !render.locked && AllRead(render, false)
    requires Same(img, prev) && DamageCovers(prev, render) && prev.w == render.fb.w && prev.h == render.fb.h
    ensures Same(DrawAll(img, TilesFor(render, AllBands(Regions(render, false)))), render.fb)
  {
    var bands := AllBands(Regions(render, false));
    forall p | Contains(Whole(prev.w, prev.h), p) && !Read(render, bands, p)
      ensures prev.px(p) == render.fb.px(p)
    {
      PushReaches(render, false, p);
      if render.damage.Some? {
        ClampAllCovers(render.damage.value, render.fb.w, render.fb.h, p);
      }
    }
    IncrementalPushExact(img, prev, render);
  }

  /** No region left after clamping means no pixel of the output changed. */
  lemma NoRegionNoChange(prev: Image, render: Render)
    requires DamageCovers(prev, render) && prev.w == render.fb.w && prev.h == render.fb.h
    requires Regions(render, false) == []
    ensures Same(prev, render.fb)
  {
    forall p | Contains(Whole(prev.w, prev.h), p) ensures prev.px(p) == render.fb.px(p) {
      if render.damage.Some? {
        ClampAllCovers(render.damage.value, render.fb.w, render.fb.h, p);
      }
    }
  }

  /** The static frame fills the surface, whatever it held. */
  lemma LockedPushShows(img: Image, render: Render)
    requires FitsWire(render.fb) && render.locked
    ensures var w, h := render.fb.w, render.fb.h;
      Same(DrawAll(img.(w := w, h := h), TilesFor(render, [Whole(w, h)])), SolidFill(w, h))
  {
  }

  /** Nothing but the fill colour is encoded while locked. */
  lemma {:induction false} LockedTilesAreFill(render: Render, bands: seq<Rect>)
    requires render.locked
    ensures forall t :: t in TilesFor(render, bands) ==> t.px == FILL_PX
  {
    if bands != [] {
      LockedTilesAreFill(render, bands[..|bands| - 1]);
    }
  }

  lemma {:induction false} PreludeHasNoTiles(prelude: seq<Message>, frames: seq<Message>)
    requires |prelude| <= 1 && forall i :: 0 <= i < |prelude| ==> prelude[i].Ready? || prelude[i].Resize?
    ensures TilesOf(prelude + frames) == TilesOf(frames)
  {
    if frames == [] {
      assert prelude + frames == prelude;
      if prelude != [] {
        assert prelude[..0] == [];
      }
    } else {
      assert (prelude + frames)[..|prelude + frames| - 1] == prelude + frames[..|frames| - 1];
      PreludeHasNoTiles(prelude, frames[..|frames| - 1]);
    }
  }

  /** After the prelude the surface has the output's size. */
  lemma PreludeSizes(img: Image, prelude: seq<Message>, w: nat, h: nat)
    requires prelude == [Ready(w, h)] || prelude == [Resize(w, h)] || (prelude == [] && img.w == w && img.h == h)
    ensures Rebuild(img, prelude) == img.(w := w, h := h)
  {
  }

  // ----- the shared tile cache -----

  class TileCache {
    var tiles: seq<(Rect, Option<Tile>)>
    /** How many regions have been encoded. */
    ghost var encodes: nat

    constructor ()
      ensures tiles == [] && encodes == 0
    {
      tiles := [];
      encodes := 0;
    }

    /** Every entry is what this render encodes for its region, made once. */
    ghost predicate Valid(render: Render)
      reads this
    {
      && (forall i :: 0 <= i < |tiles| ==> tiles[i].1 == Encode(render, tiles[i].0))
      && (forall i, j :: 0 <= i < j < |tiles| ==> tiles[i].0 != tiles[j].0)
      && encodes == |tiles|
    }

    /** The tile of `region`, encoded the first time it is asked for; a failure is
        remembered like any other answer. */
    method Get(region: Rect, render: Render) returns (t: Option<Tile>)
      requires Valid(render)
      modifies this
      ensures Valid(render) && t == Encode(render, region)
      ensures encodes == old(encodes) + if exists i :: 0 <= i < |old(tiles)| && old(tiles)[i].0 == region then 0 else 1
    {
      for i := 0 to |tiles|
        invariant forall k :: 0 <= k < i ==> tiles[k].0 != region
      {
        if tiles[i].0 == region {
          return tiles[i].1;
        }
      }
      t := Encode(render, region);
      encodes := encodes + 1;
      tiles := tiles + [(region, t)];
    }
  }

  // ----- what one subscriber is due -----

  /** What a subscriber has been told. */
  datatype Flags = Flags(sentReady: bool, lastSize: (nat, nat), resync: bool, lockedFrameSent: bool)

  datatype Due = Nothing | Due(prelude: seq<Message>, bands: seq<Rect>)

  predicate NeedsFull(f: Flags, render: Render) {
    !f.sentReady || f.lastSize != (render.fb.w, render.fb.h) || f.resync || render.locked || f.lockedFrameSent
  }

  function DueFor(f: Flags, render: Render): Due {
    var size := (render.fb.w, render.fb.h);
    var sizeChanged := f.sentReady && f.lastSize != size;
    if render.locked && f.lockedFrameSent && !sizeChanged then Nothing
    else
      var full := !f.sentReady || sizeChanged || f.resync || render.locked || f.lockedFrameSent;
      var regions := Regions(render, full);
      if !full && regions == [] then Nothing
      else
        var prelude :=
          if !f.sentReady then [Ready(size.0, size.1)]
          else if sizeChanged then [Resize(size.0, size.1)]
          else [];
        Due(prelude, if render.locked then [Whole(size.0, size.1)] else AllBands(regions))
  }

  /** The flags once a push has gone out. */
  function UpToDate(render: Render): Flags {
    Flags(true, (render.fb.w, render.fb.h), false, render.locked)
  }

  predicate InSync(f: Flags) {
    f.sentReady && !f.resync && !f.lockedFrameSent
  }

  /** What holds of the image whatever has been read and however: it has the size the
      viewer was told. */
  ghost predicate Sized(f: Flags, view: Image) {
    && (!f.sentReady ==> !f.lockedFrameSent)
    && (f.sentReady ==> (view.w, view.h) == f.lastSize)
  }

  /** What the flags promise about the viewer's image after a render of `fb`: with
      the static frame out it is the solid fill, and in sync it is `fb`. */
  ghost predicate Mirrors(f: Flags, view: Image, fb: Image) {
    && Sized(f, view)
    && (f.lockedFrameSent ==> Same(view, SolidFill(f.lastSize.0, f.lastSize.1)))
    && (f.lockedFrameSent && !f.resync ==> f.lastSize == (fb.w, fb.h))
    && (InSync(f) ==> Same(view, fb))
  }

  /** What a subscriber has been told is what the stream queued for it says: it is one
      a viewer understands, the flags know its size and `seqNo` its last frame. */
  ghost predicate Spoken(f: Flags, seqNo: nat, queued: seq<Message>) {
    && WellSpoken(queued) && (f.sentReady <==> queued != [])
    && (f.sentReady ==> ToldSize(queued) == Some(f.lastSize))
    && seqNo == SeqAfter(0, FrameCount(queued))
  }

  /** What is due a subscriber goes on from what it has been told. */
  lemma PreludeSpoken(f: Flags, seqNo: nat, queued: seq<Message>, render: Render)
    requires Spoken(f, seqNo, queued) && DueFor(f, render).Due?
    ensures var ms := queued + DueFor(f, render).prelude;
      && WellSpoken(ms) && ToldSize(ms) == Some((render.fb.w, render.fb.h))
      && FrameCount(ms) == FrameCount(queued) && ms != []
  {
    var prelude := DueFor(f, render).prelude;
    if prelude == [] {
      assert queued + prelude == queued;
    } else {
      assert prelude == [prelude[0]];
      SpokenOn(queued, prelude[0]);
      SaidOne(queued, prelude[0]);
    }
  }

  lemma DueWithin(f: Flags, render: Render)
    requires DueFor(f, render).Due?
    ensures AllWithin(TilesFor(render, DueFor(f, render).bands), render.fb.w, render.fb.h)
  {
    BandsInBounds(render, true);
    BandsInBounds(render, false);
    TilesWithin(render, DueFor(f, render).bands);
  }

  lemma Regrouped<T>(a: seq<T>, b: seq<T>, c: seq<T>)
    ensures a + (b + c) == a + b + c
  {
  }

  lemma PushSpoken(f: Flags, seqNo: nat, queued: seq<Message>, render: Render, frames: seq<Message>)
    requires Spoken(f, seqNo, queued) && DueFor(f, render).Due?
    requires AreFrames(frames, seqNo) && TilesOf(frames) == TilesFor(render, DueFor(f, render).bands)
    ensures Spoken(UpToDate(render), SeqAfter(seqNo, |frames|), queued + (DueFor(f, render).prelude + frames))
  {
    var prelude := DueFor(f, render).prelude;
    PreludeSpoken(f, seqNo, queued, render);
    DueWithin(f, render);
    FramesSpokenOn(queued + prelude, frames, seqNo, render);
    Regrouped(queued, prelude, frames);
  }

  lemma FramesSpokenOn(ms: seq<Message>, frames: seq<Message>, seqNo: nat, render: Render)
    requires WellSpoken(ms) && ToldSize(ms) == Some((render.fb.w, render.fb.h)) && seqNo == SeqAfter(0, FrameCount(ms))
    requires AreFrames(frames, seqNo) && ms != []
    requires AllWithin(TilesOf(frames), render.fb.w, render.fb.h)
    ensures Spoken(UpToDate(render), SeqAfter(seqNo, |frames|), ms + frames)
  {
    var n := FrameCount(ms);
    TilesOfEach(frames, render.fb.w, render.fb.h);
    FramesSpoken(ms, frames, render.fb.w, render.fb.h);
    SeqOn(n, |frames|);
  }

  /** The viewer's image once what it is due has been drawn. */
  function Delivered(view: Image, due: Due, render: Render): Image
    requires due.Due?
  {
    DrawAll(Rebuild(view, due.prelude), TilesFor(render, due.bands))
  }

  /** Whether a subscriber's image can be relied on after its turn in a render, its
      earlier bytes flushed as `flush` says, if `sure` is whether it could before: a
      push of the whole output needs only its own readbacks, and none under the
      static frame; an incremental one also the image before it and damage that
      covers the change; a skipped turn owes the whole output next time. */
  ghost predicate SureAfter(sure: bool, f: Flags, prev: Image, render: Render, flush: FlushResult) {
    if flush != Drained then sure
    else if DueFor(f, render).Nothing? then sure && (render.locked || DamageCovers(prev, render))
    else
      && FitsWire(render.fb)
      && (render.locked || AllRead(render, NeedsFull(f, render)))
      && (NeedsFull(f, render) || (sure && DamageCovers(prev, render)))
  }

  /** A turn keeps the promise so far as `SureAfter` says, a whole push making it
      anew whatever went before. */
  lemma TurnShows(sure: bool, f: Flags, view: Image, prev: Image, render: Render, flush: FlushResult)
    requires Sized(f, view) && (sure ==> Mirrors(f, view, prev))
    ensures flush == Blocked ==>
              Sized(f.(resync := true), view)
              && (SureAfter(sure, f, prev, render, flush) ==> Mirrors(f.(resync := true), view, render.fb))
    ensures flush == Drained ==>
              var due, sureNow := DueFor(f, render), SureAfter(sure, f, prev, render, flush);
              if due.Nothing? then sureNow ==> Mirrors(f, view, render.fb)
              else
                && Sized(UpToDate(render), Delivered(view, due, render))
                && (sureNow ==> Mirrors(UpToDate(render), Delivered(view, due, render), render.fb))
  {
    if flush == Drained {
      match DueFor(f, render)
      case Nothing =>
        if sure && !render.locked && DamageCovers(prev, render) {
          NoRegionNoChange(prev, render);
        }
      case Due(prelude, bands) =>
        PreludeSizes(view, prelude, render.fb.w, render.fb.h);
        DrawAllSize(Rebuild(view, prelude), TilesFor(render, bands));
        if SureAfter(sure, f, prev, render, flush) {
          if render.locked {
            LockedPushShows(view, render);
          } else if NeedsFull(f, render) {
            FullPushShows(view, render);
          } else {
            IncrementalPushShows(view, prev, render);
          }
        }
    }
  }

  /** An in-sync subscriber of an unlocked session is due nothing when nothing in
      the output is damaged, and in a locked session nobody is due the static frame
      twice at one size. */
  lemma IdleCostsNothing(f: Flags, render: Render)
    requires f.lastSize == (render.fb.w, render.fb.h)
    ensures InSync(f) && !render.locked ==> (DueFor(f, render) == Nothing <==> Regions(render, false) == [])
    ensures f.sentReady && render.locked ==> (DueFor(f, render) == Nothing <==> f.lockedFrameSent)
  {
  }

  /** A subscriber that missed damage, or held the static frame, or has an image of
      another size, is due the whole output as soon as the session is unlocked. */
  lemma CatchUpIsFull(f: Flags, render: Render)
    requires !render.locked && NeedsFull(f, render)
    ensures DueFor(f, render).Due? && DueFor(f, render).bands == AllBands([Whole(render.fb.w, render.fb.h)])
  {
  }

  /** And one that did not is sent the damage and no more, each point as often as it
      was damaged. */
  lemma DamageAndNoMore(f: Flags, render: Render, p: Point)
    requires !render.locked && !NeedsFull(f, render) && DueFor(f, render).Due?
    ensures render.damage.Some?
    ensures Cover(DueFor(f, render).bands, p) ==
            if Contains(Whole(render.fb.w, render.fb.h), p) then Cover(render.damage.value, p) else 0
  {
    AllBandsCover(Regions(render, false), p);
    if render.damage.Some? {
      ClampAllCovers(render.damage.value, render.fb.w, render.fb.h, p);
    }
  }

  lemma {:induction false} NothingRead(render: Render, bands: seq<Rect>)
    requires !render.locked && forall r :: render.fails(r)
    ensures TilesFor(render, bands) == []
  {
    if bands != [] {
      NothingRead(render, bands[..|bands| - 1]);
    }
  }

  /** A readback that fails leaves its pixels stale in a subscriber that still counts
      as in sync: nothing asks for them again until they are damaged again. */
  lemma FailedReadbackLeavesHole() returns (f: Flags, prev: Image, render: Render)
    ensures Mirrors(f, prev, prev) && DamageCovers(prev, render) && FitsWire(render.fb)
    ensures DueFor(f, render).Due? && InSync(UpToDate(render))
    ensures !Same(Delivered(prev, DueFor(f, render), render), render.fb)
  {
    prev := Image(1, 1, (p: Point) => 1);
    var fb := Image(1, 1, (p: Point) => 2);
    render := Render(fb, Some([Whole(1, 1)]), false, (r: Rect) => true);
    f := Flags(true, (1, 1), false, false);
    assert ClampAll([Whole(1, 1)][1..], 1, 1) == [];
    assert Regions(render, false) == [Whole(1, 1)];
    var due := DueFor(f, render);
    assert due.prelude == [] && Rebuild(prev, due.prelude) == prev;
    NothingRead(render, due.bands);
    var after := DrawAll(prev, TilesFor(render, due.bands));
    assert after == prev;
    assert Contains(Whole(1, 1), Point(0, 0)) && after.px(Point(0, 0)) != fb.px(Point(0, 0));
    CoverOne(Whole(1, 1), Point(0, 0));
    forall p | Contains(Whole(1, 1), p) ensures Covered([Whole(1, 1)], p) {
      CoverOne(Whole(1, 1), p);
    }
  }

  /** The socket failed, flushing or writing what was due. */
  predicate LetGo(told: Flags, render: Render, flush: FlushResult, wrote: bool) {
    flush == Failed || (flush == Drained && DueFor(told, render).Due? && !wrote)
  }

  /** More has been queued, and under the static frame nothing but fill. */
  ghost predicate Extends(before: seq<Message>, after: seq<Message>, locked: bool) {
    && |before| <= |after| && after[..|before|] == before
    && (locked ==> forall t :: t in TilesOf(after[|before|..]) ==> t.px == FILL_PX)
  }

  lemma ExtendsBy(before: seq<Message>, sent: seq<Message>, f: Flags, render: Render)
    requires sent == [] || (DueFor(f, render).Due? && TilesOf(sent) == TilesFor(render, DueFor(f, render).bands))
    ensures Extends(before, before + sent, render.locked)
  {
  }

  /** All there is to say about a subscriber at one moment. */
  datatype Account = Account(told: Flags, seqNo: nat, view: Image, queued: seq<Message>, sure: bool)

  ghost predicate KeepsPromise(a: Account, fb: Image) {
    Spoken(a.told, a.seqNo, a.queued) && Sized(a.told, a.view) && (a.sure ==> Mirrors(a.told, a.view, fb))
  }

  /** What one render's turn does for a subscriber. */
  ghost predicate Served(was: Account, now: Account, prev: Image, render: Render, flush: FlushResult, wrote: bool,
                         dropped: bool)
  {
    && (dropped <==> LetGo(was.told, render, flush, wrote))
    && Extends(was.queued, now.queued, render.locked)
    && (!dropped && flush == Blocked ==> now.told.resync && now.queued == was.queued)
    && (!dropped ==>
          && now.sure == SureAfter(was.sure, was.told, prev, render, flush)
          && KeepsPromise(now, render.fb))
  }

  lemma TurnServed(was: Account, now: Account, sent: seq<Message>, prev: Image, render: Render,
                   flush: FlushResult, wrote: bool, outcome: Outcome)
    requires KeepsPromise(was, prev)
    requires now.queued == was.queued + sent && now.sure == SureAfter(was.sure, was.told, prev, render, flush)
    requires sent == [] ==> now.view == was.view && now.seqNo == was.seqNo
    requires flush == Failed ==> outcome == Dropped && sent == []
    requires flush == Blocked ==> outcome == Skipped && sent == [] && now.told == was.told.(resync := true)
    requires flush == Drained ==>
               var due := DueFor(was.told, render);
               if due.Nothing? then outcome == Skipped && sent == [] && now.told == was.told
               else
                 && TilesOf(sent) == TilesFor(render, due.bands)
                 && now.view == Delivered(was.view, due, render)
                 && outcome == (if wrote then Pushed else Dropped)
                 && (wrote ==> now.told == UpToDate(render) && Spoken(now.told, now.seqNo, now.queued))
    ensures Served(was, now, prev, render, flush, wrote, outcome == Dropped)
  {
    ExtendsBy(was.queued, sent, was.told, render);
    TurnShows(was.sure, was.told, was.view, prev, render, flush);
    if sent == [] {
      assert was.queued + sent == was.queued;
    }
  }

  lemma QueueView(queued: seq<Message>, prelude: seq<Message>, frames: seq<Message>, last: nat, blank: Image)
    requires AreFrames(frames, last)
    ensures Rebuild(blank, queued + (prelude + frames)) == DrawAll(Rebuild(Rebuild(blank, queued), prelude),
            TilesOf(frames))
  {
    RebuildConcat(blank, queued, prelude + frames);
    RebuildConcat(Rebuild(blank, queued), prelude, frames);
    FramesDraw(Rebuild(Rebuild(blank, queued), prelude), frames, last);
  }

  // ----- one subscriber -----

  class CaptureSub {
    var seqNo: nat
    var sentReady: bool
    var lastSize: (nat, nat)
    var resync: bool
    var lockedFrameSent: bool
    /** Everything queued for this subscriber so far. */
    ghost var queued: seq<Message>
    /** What its surfaces happen to hold before anything is drawn. */
    ghost const blank: Image
    /** Whether its image can be relied on to be what the flags promise. */
    ghost var sure: bool

    constructor (ghost blank: Image)
      ensures queued == [] && Told() == Flags(false, (0, 0), false, false) && sure && seqNo == 0
      ensures forall fb :: Mirrors(Told(), View(), fb)
    {
      seqNo, sentReady, lastSize, resync, lockedFrameSent := 0, false, (0, 0), false, false;
      queued, sure := [], true;
      this.blank := blank;
    }

    function Told(): Flags
      reads this
    {
      Flags(sentReady, lastSize, resync, lockedFrameSent)
    }

    /** The viewer's image, rebuilt from everything queued. */
    ghost function View(): Image
      reads this
    {
      Rebuild(blank, queued)
    }

    /** Its image, if it can be relied on, is what its flags promise after `fb`. */
    ghost predicate Ok(fb: Image)
      reads this
    {
      KeepsPromise(Now(), fb)
    }

    /** The tiles of `bands`, through the cache. */
    method CollectTiles(cache: TileCache, render: Render, bands: seq<Rect>) returns (tiles: seq<Tile>)
      requires cache.Valid(render)
      modifies cache
      ensures cache.Valid(render) && tiles == TilesFor(render, bands)
    {
      tiles := [];
      for i := 0 to |bands|
        invariant cache.Valid(render) && tiles == TilesFor(render, bands[..i])
      {
        assert bands[..i + 1][..i] == bands[..i];
        var t := cache.Get(bands[i], render);
        if t.Some? {
          tiles := tiles + [t.value];
        }
      }
      assert bands[..|bands|] == bands;
    }

    /** Queue a prelude and the frames of the tiles, and mark the subscriber up to
        date unless the write failed. */
    method Queue(prelude: seq<Message>, tiles: seq<Tile>, render: Render, wrote: bool, lenOf: Tile -> nat)
      returns (outcome: Outcome, ghost frames: seq<Message>)
      requires |prelude| <= 1 && forall i :: 0 <= i < |prelude| ==> prelude[i].Ready? || prelude[i].Resize?
      modifies this
      ensures sure == old(sure)
      ensures queued == old(queued) + (prelude + frames) && Packed(frames, old(seqNo), lenOf) && |frames| >= 1
      ensures TilesOf(frames) == tiles == TilesOf(prelude + frames)
      ensures View() == DrawAll(Rebuild(old(View()), prelude), tiles)
      ensures outcome == if wrote then Pushed else Dropped
      ensures Told() == if wrote then UpToDate(render) else old(Told())
      ensures seqNo == if wrote then SeqAfter(old(seqNo), |frames|) else old(seqNo)
    {
      var fs, nextSeq := FrameMessages(seqNo, tiles, lenOf);
      frames := fs;
      QueueView(queued, prelude, fs, seqNo, blank);
      PreludeHasNoTiles(prelude, fs);
      queued := queued + (prelude + fs);
      if !wrote {
        return Dropped, fs;
      }
      sentReady := true;
      lastSize := (render.fb.w, render.fb.h);
      seqNo := nextSeq;
      resync := false;
      lockedFrameSent := render.locked;
      return Pushed, fs;
    }

    /** One subscriber's turn in one render: `flush` is how far its earlier bytes
        got, `wrote` whether queueing the new ones met an I/O failure. */
    method Push(cache: TileCache, render: Render, flush: FlushResult, wrote: bool, lenOf: Tile -> nat)
      returns (outcome: Outcome, ghost sent: seq<Message>)
      requires cache.Valid(render) && Spoken(Told(), seqNo, queued)
      modifies this, cache
      ensures cache.Valid(render) && queued == old(queued) + sent && sure == old(sure)
      ensures sent == [] ==> View() == old(View()) && seqNo == old(seqNo)
      ensures flush == Failed ==> outcome == Dropped && sent == [] && Told() == old(Told())
      ensures flush == Blocked ==> outcome == Skipped && sent == [] && Told() == old(Told()).(resync := true)
      ensures flush == Drained && DueFor(old(Told()), render).Nothing? ==>
                outcome == Skipped && sent == [] && Told() == old(Told())
      ensures flush == Drained && DueFor(old(Told()), render).Due? ==>
                var due := DueFor(old(Told()), render);
                && TilesOf(sent) == TilesFor(render, due.bands)
                && (exists frames :: sent == due.prelude + frames && Packed(frames, old(seqNo), lenOf))
                && View() == Delivered(old(View()), due, render)
                && outcome == (if wrote then Pushed else Dropped)
                && Told() == (if wrote then UpToDate(render) else old(Told()))
                && (wrote ==> Spoken(Told(), seqNo, queued))
    {
      sent := [];
      match flush {
        case Drained =>
        case Blocked =>
          resync := true;
          return Skipped, [];
        case Failed =>
          return Dropped, [];
      }
      var due := DueFor(Told(), render);
      if due.Nothing? {
        return Skipped, [];
      }
      var tiles := CollectTiles(cache, render, due.bands);
      ghost var frames;
      outcome, frames := Queue(due.prelude, tiles, render, wrote, lenOf);
      sent := due.prelude + frames;
      PushSpoken(old(Told()), old(seqNo), old(queued), render, frames);
    }

    /** `Push`, and what it comes to: what can be relied on after it. */
    method Serve(cache: TileCache, render: Render, flush: FlushResult, wrote: bool, lenOf: Tile -> nat,
                 ghost prev: Image)
      returns (dropped: bool)
      requires cache.Valid(render) && Ok(prev)
      modifies this, cache
      ensures cache.Valid(render) && (!dropped ==> Ok(render.fb))
      ensures Served(old(Now()), Now(), prev, render, flush, wrote, dropped)
    {
      ghost var was := Now();
      var outcome, sent := Push(cache, render, flush, wrote, lenOf);
      dropped := outcome == Dropped;
      sure := SureAfter(was.sure, was.told, prev, render, flush);
      TurnServed(was, Now(), sent, prev, render, flush, wrote, outcome);
    }

    ghost function Now(): Account
      reads this
    {
      Account(Told(), seqNo, View(), queued, sure)
    }
  }

  // ----- all the subscribers of an output -----

  class Output {
    var captureEnabled: bool
    var subs: map<ClientId, CaptureSub>
    /** The framebuffer at the last render pushed. */
    ghost var shown: Image

    constructor (ghost fb: Image)
      ensures Valid() && subs == map[] && shown == fb && captureEnabled
    {
      captureEnabled, subs, shown := true, map[], fb;
    }

    ghost predicate Distinct()
      reads this
    {
      forall a, b :: a in subs && b in subs && a != b ==> subs[a] != subs[b]
    }

    /** Every subscriber's image that can be relied on is what its flags promise. */
    ghost predicate Valid()
      reads this, subs.Values
    {
      && Distinct()
      && (captureEnabled || subs == map[])
      && (forall id :: id in subs ==> subs[id].Ok(shown))
    }

    method Subscribe(id: ClientId, ghost blank: Image)
      requires Valid() && captureEnabled && id !in subs
      modifies this`subs
      ensures Valid() && id in subs && fresh(subs[id]) && subs[id].sure && subs == old(subs)[id := subs[id]]
    {
      var sub := new CaptureSub(blank);
      subs := subs[id := sub];
    }

    /** The gate closes: every stream gets its goodbye and goes. */
    method Teardown()
      requires Valid()
      modifies this`subs, this`captureEnabled, subs.Values
      ensures Valid() && subs == map[] && !captureEnabled
      ensures forall id :: id in old(subs) ==> old(subs)[id].queued == old(subs[id].queued) + [Bye]
    {
      var rest := subs.Keys;
      while rest != {}
        invariant rest <= subs.Keys && subs == old(subs)
        invariant forall id :: id in rest ==> subs[id].queued == old(subs[id].queued)
        invariant forall id :: id in subs && id !in rest ==> subs[id].queued == old(subs[id].queued) + [Bye]
        decreases rest
      {
        var id :| id in rest;
        rest := rest - {id};
        subs[id].queued := subs[id].queued + [Bye];
      }
      subs := map[];
      captureEnabled := false;
    }

    /** One render, pushed to every subscriber in whatever order. `flush` and `wrote`
        are what each one's socket does; those it fails are dropped. Afterwards
        every subscriber that is left and can be relied on mirrors this framebuffer
        as its flags promise, and while the static frame is due nothing but fill has
        gone out. */
    method PushCapture(render: Render, flush: ClientId -> FlushResult, wrote: ClientId -> bool, lenOf: Tile -> nat)
      requires Valid()
      modifies this`subs, this`shown, subs.Values
      ensures Valid()
      ensures !captureEnabled ==> subs == old(subs) && shown == old(shown)
      ensures captureEnabled ==> shown == render.fb
      ensures captureEnabled ==> forall id :: id in old(subs) ==>
                && (id in subs ==> subs[id] == old(subs)[id])
                && Served(old(subs[id].Now()), old(subs)[id].Now(), old(shown), render, flush(id), wrote(id),
                   id !in subs)
      ensures subs.Keys <= old(subs).Keys
    {
      if captureEnabled {
        var toDrop := ServeAll(render, flush, wrote, lenOf);
        forall id | id in subs && id !in toDrop ensures subs[id].Ok(render.fb) {
          assert ServedOne(subs[id], shown, render, flush(id), wrote(id), false);
        }
        Drop(toDrop, render.fb);
      }
    }

    /** The subscribers the turn let go of go. */
    method Drop(toDrop: set<ClientId>, ghost fb: Image)
      requires captureEnabled && Distinct()
      requires forall id :: id in subs && id !in toDrop ==> subs[id].Ok(fb)
      modifies this`subs, this`shown
      ensures Valid() && subs == old(subs) - toDrop && shown == fb
    {
      shown := fb;
      subs := subs - toDrop;
    }

    /** `Served`, of one subscriber between two states. */
    twostate predicate ServedOne(sub: CaptureSub, prev: Image, render: Render, flush: FlushResult, wrote: bool,
                                 dropped: bool)
      reads sub
    {
      Served(old(sub.Now()), sub.Now(), prev, render, flush, wrote, dropped)
    }

    /** One subscriber's turn, which touches no other. */
    method ServeOne(id: ClientId, cache: TileCache, render: Render, flush: FlushResult, wrote: bool, lenOf: Tile -> nat)
      returns (dropped: bool)
      requires id in subs && subs[id].Ok(shown) && cache.Valid(render)
      requires Distinct()
      modifies subs[id], cache
      ensures cache.Valid(render) && ServedOne(subs[id], shown, render, flush, wrote, dropped)
      ensures forall k :: k in subs && k != id ==> unchanged(subs[k])
    {
      var sub := subs[id];
      dropped := sub.Serve(cache, render, flush, wrote, lenOf, shown);
    }

    method ServeAll(render: Render, flush: ClientId -> FlushResult, wrote: ClientId -> bool, lenOf: Tile -> nat)
      returns (toDrop: set<ClientId>)
      requires Valid()
      modifies subs.Values
      ensures forall id {:trigger subs[id]} :: id in subs ==>
                ServedOne(subs[id], shown, render, flush(id), wrote(id), id in toDrop)
    {
      var cache := new TileCache();
      var rest := subs.Keys;
      toDrop := {};
      while rest != {}
        invariant rest <= subs.Keys
        invariant fresh(cache) && cache.Valid(render)
        invariant forall id {:trigger subs[id]} :: id in subs ==>
                    if id in rest then id !in toDrop && unchanged(subs[id])
                    else ServedOne(subs[id], shown, render, flush(id), wrote(id), id in toDrop)
        decreases rest
      {
        var id :| id in rest;
        rest := rest - {id};
        var dropped := ServeOne(id, cache, render, flush(id), wrote(id), lenOf);
        toDrop := if dropped then toDrop + {id} else toDrop;
      }
    }
  }
}
