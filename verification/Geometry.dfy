/** Logical-pixel points and rectangles, and what it means for a list of
    rectangles to cut up a rectangle exactly. */
module Geometry {
  datatype Point = Point(x: int, y: int)

  datatype Rect = Rect(x: int, y: int, w: int, h: int)

  /** Half-open on the right and bottom edges, as `rect_contains` is: a point on
      a shared seam belongs to the rectangle after it. */
  predicate Contains(r: Rect, p: Point) {
    r.x <= p.x < r.x + r.w && r.y <= p.y < r.y + r.h
  }

  /** How many of `rs` contain `p`. */
  function Cover(rs: seq<Rect>, p: Point): nat {
    if rs == [] then 0
    else Cover(rs[..|rs| - 1], p) + (if Contains(rs[|rs| - 1], p) then 1 else 0)
  }

  /** Every point of `r` lies in exactly one of `rs`, every other point in none. */
  ghost predicate Partitions(rs: seq<Rect>, r: Rect) {
    forall p :: Cover(rs, p) == if Contains(r, p) then 1 else 0
  }

  /** `inner` lies within `outer`'s edges and has no negative side; unlike
      containment of points this also places an empty rectangle. */
  predicate Within(inner: Rect, outer: Rect) {
    && 0 <= inner.w && 0 <= inner.h
    && outer.x <= inner.x && inner.x + inner.w <= outer.x + outer.w
    && outer.y <= inner.y && inner.y + inner.h <= outer.y + outer.h
  }

  function Area(r: Rect): int {
    r.w * r.h
  }

  function TotalArea(rs: seq<Rect>): int {
    if rs == [] then 0 else TotalArea(rs[..|rs| - 1]) + Area(rs[|rs| - 1])
  }

  lemma {:induction false} CoverConcat(a: seq<Rect>, b: seq<Rect>, p: Point)
    ensures Cover(a + b, p) == Cover(a, p) + Cover(b, p)
  {
    if b == [] {
      assert a + b == a;
    } else {
      assert (a + b)[..|a + b| - 1] == a + b[..|b| - 1];
      CoverConcat(a, b[..|b| - 1], p);
    }
  }

  lemma {:induction false} TotalAreaConcat(a: seq<Rect>, b: seq<Rect>)
    ensures TotalArea(a + b) == TotalArea(a) + TotalArea(b)
  {
    if b == [] {
      assert a + b == a;
    } else {
      assert (a + b)[..|a + b| - 1] == a + b[..|b| - 1];
      TotalAreaConcat(a, b[..|b| - 1]);
    }
  }

  lemma {:induction false} CoverCounts(rs: seq<Rect>, p: Point)
    ensures Cover(rs, p) == 0 <==> forall i :: 0 <= i < |rs| ==> !Contains(rs[i], p)
    ensures Cover(rs, p) <= 1 <==>
            forall i, j :: 0 <= i < j < |rs| ==> !(Contains(rs[i], p) && Contains(rs[j], p))
  {
    if rs != [] {
      var init, last := rs[..|rs| - 1], rs[|rs| - 1];
      CoverCounts(init, p);
      if Contains(last, p) {
        if Cover(init, p) > 0 {
          var i :| 0 <= i < |init| && Contains(init[i], p);
          assert Contains(rs[i], p) && Contains(rs[|rs| - 1], p);
        } else {
          forall i, j | 0 <= i < j < |rs| ensures !(Contains(rs[i], p) && Contains(rs[j], p)) {
            assert rs[i] == init[i];
          }
        }
        assert Contains(rs[|rs| - 1], p);
      } else {
        forall i | 0 <= i < |init| ensures init[i] == rs[i] {}
        if Cover(init, p) > 1 {
          var i, j :| 0 <= i < j < |init| && Contains(init[i], p) && Contains(init[j], p);
          assert Contains(rs[i], p) && Contains(rs[j], p);
        } else {
          forall i, j | 0 <= i < j < |rs| ensures !(Contains(rs[i], p) && Contains(rs[j], p)) {
            assert rs[i] == init[i];
            if j < |init| { assert rs[j] == init[j]; }
          }
        }
      }
    }
  }

  /** A partition in the point-counting sense is one in the set sense: some piece
      holds each point of `r`, and no two pieces (at different places in the
      list) share a point. */
  lemma PartitionMeaning(rs: seq<Rect>, r: Rect, p: Point)
    requires Partitions(rs, r)
    ensures Contains(r, p) <==> exists i :: 0 <= i < |rs| && Contains(rs[i], p)
    ensures forall i, j :: 0 <= i < j < |rs| ==> !(Contains(rs[i], p) && Contains(rs[j], p))
  {
    CoverCounts(rs, p);
    assert Cover(rs, p) == if Contains(r, p) then 1 else 0;
  }
}
