/** Damage streaming (`src/capture_stream.rs`): each viewer's image, rebuilt from the
    messages queued for it, against the framebuffer it mirrors. */
module CaptureStream {
  import opened Geometry
  import opened Wrappers

  type Pixel = nat

  /** What a viewer sees of a locked session: B, G, R, A of 0x10, 0x10, 0x10, 0xff. */
  const LOCKED_FILL: Pixel := 0xff10_1010

  const BYTES_PER_PIXEL := 4
  const MAX_TILE_BYTES := 32 * 1024 * 1024
  const MAX_MESSAGE_LEN := 256 * 1024 * 1024
  const FRAME_HEADER_LEN := 1 + 4 + 4

  /** A framebuffer, or a viewer's image of one. */
  datatype Image = Image(w: nat, h: nat, px: Point -> Pixel)

  function Whole(w: nat, h: nat): Rect {
    Rect(0, 0, w, h)
  }

  /** The same size, and the same pixel everywhere in it. */
  ghost predicate Same(a: Image, b: Image) {
    a.w == b.w && a.h == b.h && forall p :: Contains(Whole(a.w, a.h), p) ==> a.px(p) == b.px(p)
  }

  const FILL_PX: Point -> Pixel := (p: Point) => LOCKED_FILL

  function SolidFill(w: nat, h: nat): Image {
    Image(w, h, FILL_PX)
  }

  // ----- regions -----

  /** A damage rectangle clamped to the framebuffer; none if nothing is left. */
  function ClampToBuffer(r: Rect, w: int, h: int): Option<Rect> {
    var x0 := if r.x > 0 then r.x else 0;
    var y0 := if r.y > 0 then r.y else 0;
    var x1 := if r.x + r.w < w then r.x + r.w else w;
    var y1 := if r.y + r.h < h then r.y + r.h else h;
    if x1 <= x0 || y1 <= y0 then None else Some(Rect(x0, y0, x1 - x0, y1 - y0))
  }

  /** Clamping keeps exactly the points inside the framebuffer. */
  lemma ClampKeeps(r: Rect, w: nat, h: nat, p: Point)
    ensures Contains(r, p) && Contains(Whole(w, h), p) <==>
            ClampToBuffer(r, w, h).Some? && Contains(ClampToBuffer(r, w, h).value, p)
    ensures ClampToBuffer(r, w, h).Some? ==>
              var c := ClampToBuffer(r, w, h).value; Within(c, Whole(w, h)) && c.w > 0 && c.h > 0
  {
  }

  /** The most rows of a region `width` pixels wide that go in one tile. */
  function BandRows(width: nat): (rows: nat)
    ensures rows >= 1
    ensures rows == 1 || rows * (width * BYTES_PER_PIXEL) <= MAX_TILE_BYTES
    ensures width >= 1 ==> (rows + 1) * (width * BYTES_PER_PIXEL) > MAX_TILE_BYTES
  {
    var row := (if width > 1 then width else 1) * BYTES_PER_PIXEL;
    var n := MAX_TILE_BYTES / row;
    assert n * row <= MAX_TILE_BYTES < (n + 1) * row;
    assert n * (width * BYTES_PER_PIXEL) <= n * row;
    if n < 1 then 1 else n
  }

  /** `region` in horizontal bands of at most `BandRows` rows, from row `from`. */
  function BandsFrom(region: Rect, from: nat): (bs: seq<Rect>)
    decreases region.h - from
  {
    if region.h <= from then []
    else
      var rows := BandRows(if region.w > 0 then region.w else 0);
      var left := region.h - from;
      [Rect(region.x, region.y + from, region.w, if rows < left then rows else left)] + BandsFrom(region, from + rows)
  }

  function Bands(region: Rect): seq<Rect> {
    BandsFrom(region, 0)
  }

  /** Some rectangle of the list holds `p`. */
  ghost predicate Covered(rs: seq<Rect>, p: Point) {
    exists i :: 0 <= i < |rs| && Contains(rs[i], p)
  }

  /** The bands cut the region exactly: each of its points is in one and only one,
      and no band has a point outside. */
  lemma {:induction false} BandsCut(region: Rect, from: nat, p: Point)
    ensures var rest := Rect(region.x, region.y + from, region.w, region.h - from);
      Cover(BandsFrom(region, from), p) == if Contains(rest, p) then 1 else 0
    decreases region.h - from
  {
    if region.h > from {
      var rows := BandRows(if region.w > 0 then region.w else 0);
      var bs := BandsFrom(region, from);
      var tail := BandsFrom(region, from + rows);
      assert bs == [bs[0]] + tail;
      CoverConcat([bs[0]], tail, p);
      assert [bs[0]][..0] == [];
      assert Cover([bs[0]], p) == if Contains(bs[0], p) then 1 else 0;
      BandsCut(region, from + rows, p);
    }
  }

  lemma BandsPartition(region: Rect)
    ensures Partitions(Bands(region), region)
  {
    forall p ensures Cover(Bands(region), p) == if Contains(region, p) then 1 else 0 {
      BandsCut(region, 0, p);
    }
  }

  lemma {:induction false} BandsWithin(region: Rect, from: nat, outer: Rect)
    requires Within(region, outer)
    ensures forall i :: 0 <= i < |BandsFrom(region, from)| ==> Within(BandsFrom(region, from)[i], outer)
    decreases region.h - from
  {
    if region.h > from {
      var rows := BandRows(if region.w > 0 then region.w else 0);
      BandsWithin(region, from + rows, outer);
    }
  }

  /** The bands in closed form: `BandRows` rows each from the top down, the last
      what is left. */
  lemma {:induction false} BandAt(region: Rect, from: nat, i: nat)
    ensures var rows, bs := BandRows(if region.w > 0 then region.w else 0), BandsFrom(region, from);
      var top := from + i * rows;
      && (i < |bs| <==> top < region.h)
      && (i < |bs| ==> bs[i] == Rect(region.x, region.y + top, region.w, if rows < region.h - top then rows
                               else region.h - top))
    decreases i
  {
    var rows := BandRows(if region.w > 0 then region.w else 0);
    if i > 0 {
      BandAt(region, from + rows, i - 1);
      assert i * rows == rows + (i - 1) * rows;
    }
  }

  function AllBands(regions: seq<Rect>): seq<Rect> {
    if regions == [] then [] else Bands(regions[0]) + AllBands(regions[1..])
  }

  lemma CoveredConcat(a: seq<Rect>, b: seq<Rect>, p: Point)
    ensures Covered(a + b, p) <==> Covered(a, p) || Covered(b, p)
  {
    if Covered(a, p) {
      var i :| 0 <= i < |a| && Contains(a[i], p);
      assert (a + b)[i] == a[i];
    }
    if Covered(b, p) {
      var i :| 0 <= i < |b| && Contains(b[i], p);
      assert (a + b)[|a| + i] == b[i];
    }
  }

  lemma {:induction false} AllBandsCover(regions: seq<Rect>, p: Point)
    ensures Cover(AllBands(regions), p) == Cover(regions, p)
    ensures Covered(AllBands(regions), p) <==> Covered(regions, p)
  {
    if regions != [] {
      var first, rest := Bands(regions[0]), AllBands(regions[1..]);
      BandsCut(regions[0], 0, p);
      AllBandsCover(regions[1..], p);
      CoverConcat(first, rest, p);
      assert regions == [regions[0]] + regions[1..];
      CoverConcat([regions[0]], regions[1..], p);
      CoverOne(regions[0], p);
    }
    CoveredCounts(regions, p);
    CoveredCounts(AllBands(regions), p);
  }

  lemma CoverOne(r: Rect, p: Point)
    ensures Cover([r], p) == (if Contains(r, p) then 1 else 0) && (Covered([r], p) <==> Contains(r, p))
  {
    assert [r][..0] == [] && [r][0] == r;
  }

  lemma CoveredCounts(rs: seq<Rect>, p: Point)
    ensures Covered(rs, p) <==> Cover(rs, p) > 0
  {
    CoverCounts(rs, p);
    if Covered(rs, p) {
      var i :| 0 <= i < |rs| && Contains(rs[i], p);
    }
  }

  lemma {:induction false} AllBandsWithin(regions: seq<Rect>, outer: Rect)
    requires forall i :: 0 <= i < |regions| ==> Within(regions[i], outer)
    ensures forall i :: 0 <= i < |AllBands(regions)| ==> Within(AllBands(regions)[i], outer)
  {
    if regions != [] {
      BandsWithin(regions[0], 0, outer);
      AllBandsWithin(regions[1..], outer);
    }
  }

  // ----- tiles and messages -----

  /** A region as the wire spells it, in 16-bit fields. */
  function ToRemoteRect(r: Rect): Rect {
    Rect(r.x % 0x1_0000, r.y % 0x1_0000, r.w % 0x1_0000, r.h % 0x1_0000)
  }

  /** The wire keeps every region of an output exactly when the output's sides fit
      its fields. */
  lemma WireFits(w: nat, h: nat)
    ensures (forall r :: Within(r, Whole(w, h)) ==> ToRemoteRect(r) == r) <==> w < 0x1_0000 && h < 0x1_0000
  {
    if w >= 0x1_0000 || h >= 0x1_0000 {
      assert Within(Whole(w, h), Whole(w, h));
    }
  }

  datatype Tile = Tile(rect: Rect, px: Point -> Pixel)

  datatype Message =
    | Ready(w: nat, h: nat)
    | Resize(w: nat, h: nat)
    | Frame(seqNo: nat, tiles: seq<Tile>)
    | Bye

  /** The viewer's side: a lifecycle message makes a new surface whose content it
      does not say, a tile overwrites its rectangle. */
  function Draw(img: Image, t: Tile): Image {
    var over, under := t.px, img.px;
    img.(px := (p: Point) => if Contains(t.rect, p) then over(p) else under(p))
  }

  function DrawAll(img: Image, tiles: seq<Tile>): Image
    decreases |tiles|
  {
    if tiles == [] then img else DrawAll(Draw(img, tiles[0]), tiles[1..])
  }

  function Receive(img: Image, m: Message): Image {
    match m
    case Ready(w, h) => img.(w := w, h := h)
    case Resize(w, h) => img.(w := w, h := h)
    case Frame(_, tiles) => DrawAll(img, tiles)
    case Bye => img
  }

  function Rebuild(img: Image, ms: seq<Message>): Image
    decreases |ms|
  {
    if ms == [] then img else Rebuild(Receive(img, ms[0]), ms[1..])
  }

  lemma {:induction false} RebuildConcat(img: Image, a: seq<Message>, b: seq<Message>)
    ensures Rebuild(img, a + b) == Rebuild(Rebuild(img, a), b)
    decreases |a|
  {
    if a == [] {
      assert a + b == b;
    } else {
      assert (a + b)[1..] == a[1..] + b;
      RebuildConcat(Receive(img, a[0]), a[1..], b);
    }
  }

  lemma {:induction false} DrawAllConcat(img: Image, a: seq<Tile>, b: seq<Tile>)
    ensures DrawAll(img, a + b) == DrawAll(DrawAll(img, a), b)
    decreases |a|
  {
    if a == [] {
      assert a + b == b;
    } else {
      assert (a + b)[1..] == a[1..] + b;
      DrawAllConcat(Draw(img, a[0]), a[1..], b);
    }
  }

  lemma {:induction false} DrawAllSize(img: Image, tiles: seq<Tile>)
    ensures DrawAll(img, tiles).w == img.w && DrawAll(img, tiles).h == img.h
    decreases |tiles|
  {
    if tiles != [] {
      DrawAllSize(Draw(img, tiles[0]), tiles[1..]);
    }
  }

  /** Tiles of one source drawn over an image: the source where they reach, the
      image elsewhere. */
  lemma {:induction false} DrawnPixel(img: Image, tiles: seq<Tile>, src: Point -> Pixel, p: Point)
    requires forall i :: 0 <= i < |tiles| ==> tiles[i].px == src
    ensures var d := DrawAll(img, tiles);
      && d.w == img.w && d.h == img.h
      && d.px(p) == if (exists i :: 0 <= i < |tiles| && Contains(tiles[i].rect, p)) then src(p) else img.px(p)
    decreases |tiles|
  {
    if tiles != [] {
      DrawnPixel(Draw(img, tiles[0]), tiles[1..], src, p);
      if i :| 0 <= i < |tiles| && Contains(tiles[i].rect, p) {
        assert i == 0 || Contains(tiles[1..][i - 1].rect, p);
      }
      if i :| 0 <= i < |tiles| - 1 && Contains(tiles[1..][i].rect, p) {
        assert Contains(tiles[i + 1].rect, p);
      }
    }
  }

  // ----- frames -----

  /** All the tiles of a run of frames, in order. */
  function TilesOf(ms: seq<Message>): seq<Tile> {
    if ms == [] then [] else TilesOf(ms[..|ms| - 1]) + (if ms[|ms| - 1].Frame? then ms[|ms| - 1].tiles else [])
  }

  function NextSeq(n: nat): nat {
    if n == 0xffff_ffff then 0 else n + 1
  }

  /** The number of the `k`th frame after `last`, wrapping as a `u32` does. */
  function SeqAfter(last: nat, k: nat): nat {
    if k == 0 then last else NextSeq(SeqAfter(last, k - 1))
  }

  /** That is the sum in 32 bits. */
  lemma {:induction false} SeqWraps(last: nat, k: nat)
    requires last < 0x1_0000_0000
    ensures SeqAfter(last, k) == (last + k) % 0x1_0000_0000
  {
    if k > 0 {
      SeqWraps(last, k - 1);
    }
  }

  function FrameCount(ms: seq<Message>): nat {
    if ms == [] then 0 else FrameCount(ms[..|ms| - 1]) + if ms[|ms| - 1].Frame? then 1 else 0
  }

  /** The size the viewer was told last. */
  function ToldSize(ms: seq<Message>): Option<(nat, nat)> {
    if ms == [] then None
    else
      match ms[|ms| - 1]
      case Ready(w, h) => Some((w, h))
      case Resize(w, h) => Some((w, h))
      case Frame(_, _) => ToldSize(ms[..|ms| - 1])
      case Bye => ToldSize(ms[..|ms| - 1])
  }

  ghost predicate AllWithin(tiles: seq<Tile>, w: nat, h: nat) {
    forall t :: t in tiles ==> Within(t.rect, Whole(w, h))
  }

  /** What a viewer understands after `ms`: `Ready` to begin with, a `Resize` to
      another size, the next frame with its tiles inside the size it was told. */
  ghost predicate MayFollow(ms: seq<Message>, m: Message) {
    match m
    case Ready(_, _) => ms == []
    case Resize(w, h) => ToldSize(ms).Some? && ToldSize(ms).value != (w, h)
    case Frame(seqNo, tiles) =>
      && seqNo == SeqAfter(0, FrameCount(ms) + 1)
      && ToldSize(ms).Some? && AllWithin(tiles, ToldSize(ms).value.0, ToldSize(ms).value.1)
    case Bye => false
  }

  /** A stream, its goodbye not yet said, that a viewer understands. */
  ghost predicate WellSpoken(ms: seq<Message>) {
    forall i {:trigger MayFollow(ms[..i], ms[i])} :: 0 <= i < |ms| ==> MayFollow(ms[..i], ms[i])
  }

  /** Its first message is `Ready` and no other is; each later `Resize` tells another
      size than was told before it; and the frames are numbered on from 1. */
  lemma WellSpokenMeans(ms: seq<Message>)
    requires WellSpoken(ms)
    ensures forall i :: 0 <= i < |ms| ==> (ms[i].Ready? <==> i == 0)
    ensures forall i :: 0 <= i < |ms| && ms[i].Resize? ==>
              ToldSize(ms[..i]).Some? && ToldSize(ms[..i]).value != (ms[i].w, ms[i].h)
    ensures forall i :: 0 <= i < |ms| && ms[i].Frame? ==> ms[i].seqNo == SeqAfter(0, FrameCount(ms[..i]) + 1)
  {
    forall i | 0 <= i < |ms|
      ensures ms[i].Ready? <==> i == 0
      ensures ms[i].Resize? ==> ToldSize(ms[..i]).Some? && ToldSize(ms[..i]).value != (ms[i].w, ms[i].h)
      ensures ms[i].Frame? ==> ms[i].seqNo == SeqAfter(0, FrameCount(ms[..i]) + 1)
    {
      assert MayFollow(ms[..i], ms[i]);
      assert i == 0 ==> ToldSize(ms[..i]) == None;
    }
  }

  lemma SaidOne(ms: seq<Message>, m: Message)
    ensures FrameCount(ms + [m]) == FrameCount(ms) + if m.Frame? then 1 else 0
    ensures m.Frame? ==> ToldSize(ms + [m]) == ToldSize(ms)
    ensures m.Ready? || m.Resize? ==> ToldSize(ms + [m]) == Some((m.w, m.h))
  {
    assert (ms + [m])[..|ms|] == ms;
  }

  lemma SpokenOn(ms: seq<Message>, m: Message)
    requires WellSpoken(ms) && MayFollow(ms, m)
    ensures WellSpoken(ms + [m])
  {
    var more := ms + [m];
    forall i | 0 <= i < |more| ensures MayFollow(more[..i], more[i]) {
      if i < |ms| {
        assert MayFollow(ms[..i], ms[i]) && more[..i] == ms[..i];
      } else {
        assert more[..i] == ms;
      }
    }
  }

  lemma {:induction false} SeqOn(a: nat, b: nat)
    ensures SeqAfter(SeqAfter(0, a), b) == SeqAfter(0, a + b)
  {
    if b > 0 {
      SeqOn(a, b - 1);
    }
  }

  lemma {:induction false} FramesSpoken(ms: seq<Message>, frames: seq<Message>, w: nat, h: nat)
    requires WellSpoken(ms) && ToldSize(ms) == Some((w, h))
    requires AreFrames(frames, SeqAfter(0, FrameCount(ms)))
    requires forall i :: 0 <= i < |frames| ==> AllWithin(frames[i].tiles, w, h)
    ensures WellSpoken(ms + frames) && ToldSize(ms + frames) == Some((w, h))
    ensures FrameCount(ms + frames) == FrameCount(ms) + |frames|
  {
    if frames == [] {
      assert ms + frames == ms;
    } else {
      var init, last := frames[..|frames| - 1], frames[|frames| - 1];
      FramesSpoken(ms, init, w, h);
      FrameSpoken(ms + init, last, FrameCount(ms), |init|, w, h);
      assert ms + frames == ms + init + [last];
    }
  }

  lemma {:induction false} TilesOfEach(frames: seq<Message>, w: nat, h: nat)
    requires AllWithin(TilesOf(frames), w, h)
    ensures forall i :: 0 <= i < |frames| && frames[i].Frame? ==> AllWithin(frames[i].tiles, w, h)
  {
    if frames != [] {
      var init, last := frames[..|frames| - 1], frames[|frames| - 1];
      var before := TilesOf(init);
      assert AllWithin(before, w, h) by {
        forall t | t in before ensures Within(t.rect, Whole(w, h)) {
          assert t in TilesOf(frames);
        }
      }
      TilesOfEach(init, w, h);
      if last.Frame? {
        forall t | t in last.tiles ensures Within(t.rect, Whole(w, h)) {
          assert t in TilesOf(frames);
        }
      }
    }
  }

  lemma FrameSpoken(ms: seq<Message>, m: Message, before: nat, k: nat, w: nat, h: nat)
    requires WellSpoken(ms) && ToldSize(ms) == Some((w, h)) && FrameCount(ms) == before + k
    requires m.Frame? && m.seqNo == SeqAfter(SeqAfter(0, before), k + 1)
    requires AllWithin(m.tiles, w, h)
    ensures WellSpoken(ms + [m]) && ToldSize(ms + [m]) == Some((w, h))
    ensures FrameCount(ms + [m]) == FrameCount(ms) + 1
  {
    SeqOn(before, k + 1);
    SpokenOn(ms, m);
    SaidOne(ms, m);
  }

  ghost predicate AreFrames(ms: seq<Message>, last: nat) {
    forall i :: 0 <= i < |ms| ==> ms[i].Frame? && ms[i].seqNo == SeqAfter(last, i + 1)
  }

  /** Frames are drawn tile by tile, so however tiles are split over them the
      viewer ends with the same image. */
  lemma {:induction false} FramesDraw(img: Image, ms: seq<Message>, last: nat)
    requires AreFrames(ms, last)
    ensures Rebuild(img, ms) == DrawAll(img, TilesOf(ms))
  {
    if ms != [] {
      var init, m := ms[..|ms| - 1], ms[|ms| - 1];
      FramesDraw(img, init, last);
      assert ms == init + [m];
      RebuildConcat(img, init, [m]);
      assert Rebuild(Rebuild(img, init), [m]) == Receive(Rebuild(img, init), m) by {
        assert [m][1..] == [];
      }
      DrawAllConcat(img, TilesOf(init), m.tiles);
    }
  }

  function TotalLen(tiles: seq<Tile>, lenOf: Tile -> nat): nat {
    if tiles == [] then 0 else TotalLen(tiles[..|tiles| - 1], lenOf) + lenOf(tiles[|tiles| - 1])
  }

  /** No message over the cap, but for one carrying a lone tile that is over it. */
  ghost predicate UnderCap(tiles: seq<Tile>, lenOf: Tile -> nat) {
    |tiles| <= 1 || FRAME_HEADER_LEN + TotalLen(tiles, lenOf) <= MAX_MESSAGE_LEN
  }

  /** There is no room left for `next`. */
  ghost predicate Full(tiles: seq<Tile>, next: Tile, lenOf: Tile -> nat) {
    tiles != [] && FRAME_HEADER_LEN + TotalLen(tiles, lenOf) + lenOf(next) > MAX_MESSAGE_LEN
  }

  /** What is still to be framed begins with a tile the last frame had no room for. */
  ghost predicate Overflows(frames: seq<Message>, batch: seq<Tile>, lenOf: Tile -> nat) {
    frames != [] ==>
      frames[|frames| - 1].Frame? && batch != [] && Full(frames[|frames| - 1].tiles, batch[0], lenOf)
  }

  ghost predicate Packed(frames: seq<Message>, last: nat, lenOf: Tile -> nat) {
    && AreFrames(frames, last)
    && (forall i :: 0 <= i < |frames| ==> UnderCap(frames[i].tiles, lenOf))
    && forall i {:trigger Overflows(frames[..i], frames[i].tiles, lenOf)} :: 0 <= i < |frames| ==>
         Overflows(frames[..i], frames[i].tiles, lenOf)
  }

  lemma TilesOfOne(ms: seq<Message>, m: Message)
    requires m.Frame?
    ensures TilesOf(ms + [m]) == TilesOf(ms) + m.tiles
  {
    assert (ms + [m])[..|ms|] == ms;
  }

  lemma PackOne(frames: seq<Message>, last: nat, batch: seq<Tile>, lenOf: Tile -> nat)
    requires Packed(frames, last, lenOf) && UnderCap(batch, lenOf) && Overflows(frames, batch, lenOf)
    ensures var more := frames + [Frame(SeqAfter(last, |frames| + 1), batch)];
      Packed(more, last, lenOf) && TilesOf(more) == TilesOf(frames) + batch
  {
    var n, m := |frames|, Frame(SeqAfter(last, |frames| + 1), batch);
    var more := frames + [m];
    TilesOfOne(frames, m);
    forall i | 0 <= i <= n
      ensures more[i].Frame? && more[i].seqNo == SeqAfter(last, i + 1) && UnderCap(more[i].tiles, lenOf)
      ensures Overflows(more[..i], more[i].tiles, lenOf)
    {
      assert more[..i] == frames[..i] && frames[..n] == frames;
      assert i < n ==> Overflows(frames[..i], frames[i].tiles, lenOf);
    }
  }

  /** Part of the way: `sent` is framed, but for a batch still open. */
  ghost predicate Packing(frames: seq<Message>, last: nat, batch: seq<Tile>, sent: seq<Tile>, lenOf: Tile -> nat) {
    && Packed(frames, last, lenOf) && UnderCap(batch, lenOf) && Overflows(frames, batch, lenOf)
    && TilesOf(frames) + batch == sent
  }

  lemma BatchOne(batch: seq<Tile>, tile: Tile, lenOf: Tile -> nat)
    ensures TotalLen(batch + [tile], lenOf) == TotalLen(batch, lenOf) + lenOf(tile)
  {
  }

  /** A tile there is room for, or that opens the first batch. */
  lemma PackInto(frames: seq<Message>, last: nat, batch: seq<Tile>, sent: seq<Tile>, tile: Tile, lenOf: Tile -> nat)
    requires Packing(frames, last, batch, sent, lenOf)
    requires batch == [] || FRAME_HEADER_LEN + TotalLen(batch, lenOf) + lenOf(tile) <= MAX_MESSAGE_LEN
    ensures Packing(frames, last, batch + [tile], sent + [tile], lenOf)
  {
    BatchOne(batch, tile, lenOf);
    assert TilesOf(frames) + (batch + [tile]) == sent + [tile];
  }

  /** A tile there is no room for closes the batch and opens another. */
  lemma PackBehind(frames: seq<Message>, last: nat, batch: seq<Tile>, sent: seq<Tile>, tile: Tile, lenOf: Tile -> nat)
    requires Packing(frames, last, batch, sent, lenOf) && Full(batch, tile, lenOf)
    ensures Packing(frames + [Frame(SeqAfter(last, |frames| + 1), batch)], last, [tile], sent + [tile], lenOf)
  {
    PackOne(frames, last, batch, lenOf);
  }

  /** The batch closes the last frame. */
  lemma PackLast(frames: seq<Message>, last: nat, batch: seq<Tile>, sent: seq<Tile>, lenOf: Tile -> nat)
    requires Packing(frames, last, batch, sent, lenOf)
    ensures var all := frames + [Frame(SeqAfter(last, |frames| + 1), batch)];
      Packed(all, last, lenOf) && TilesOf(all) == sent
  {
    PackOne(frames, last, batch, lenOf);
  }

  /** Pack tiles into frames of at most `MAX_MESSAGE_LEN` encoded bytes, numbered on
      from `last`: no tile lost or moved, at least one frame, and no more than needed,
      as each frame but the last has no room for the next tile. */
  method FrameMessages(last: nat, tiles: seq<Tile>, lenOf: Tile -> nat) returns (frames: seq<Message>, next: nat)
    ensures Packed(frames, last, lenOf) && |frames| >= 1 && TilesOf(frames) == tiles
    ensures next == SeqAfter(last, |frames|)
  {
    frames := [];
    var seqNo := last;
    var batch: seq<Tile> := [];
    var len := FRAME_HEADER_LEN;
    for k := 0 to |tiles|
      invariant Packing(frames, last, batch, tiles[..k], lenOf) && seqNo == SeqAfter(last, |frames|)
      invariant len == FRAME_HEADER_LEN + TotalLen(batch, lenOf)
    {
      var tile := tiles[k];
      var tileLen := lenOf(tile);
      assert tiles[..k + 1] == tiles[..k] + [tile];
      BatchOne(batch, tile, lenOf);
      if batch != [] && len + tileLen > MAX_MESSAGE_LEN {
        PackBehind(frames, last, batch, tiles[..k], tile, lenOf);
        BatchOne([], tile, lenOf);
        seqNo := NextSeq(seqNo);
        frames := frames + [Frame(seqNo, batch)];
        batch := [];
        len := FRAME_HEADER_LEN;
      } else {
        PackInto(frames, last, batch, tiles[..k], tile, lenOf);
      }
      len := len + tileLen;
      batch := batch + [tile];
    }
    assert tiles == tiles[..|tiles|];
    PackLast(frames, last, batch, tiles, lenOf);
    seqNo := NextSeq(seqNo);
    frames := frames + [Frame(seqNo, batch)];
    next := seqNo;
  }
}
