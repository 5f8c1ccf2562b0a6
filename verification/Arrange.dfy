/** One-shot window arrangement (`src/layout.rs`, `arrange_rects`): grid, spiral
    and binary dwindle. */
module Arrange {
  import opened Geometry

  datatype ArrangeKind = Grid | Spiral | Bsp

  // ----- machine division -----

  /** Integer division as the source's `i32` does it: toward zero. */
  function TruncDiv(a: int, b: int): int
    requires b > 0
  {
    if a >= 0 then a / b else -((-a) / b)
  }

  function TruncRem(a: int, b: int): int
    requires b > 0
  {
    a - b * TruncDiv(a, b)
  }

  lemma MulAtLeast(m: int, b: int)
    requires m >= 1 && b >= 0
    ensures m * b >= b
  {
    assert (m - 1) * b >= 0;
  }

  lemma DivModUnique(a: int, b: int, q: int, r: int)
    requires b > 0 && a == q * b + r && 0 <= r < b
    ensures a / b == q && a % b == r
  {
    var q', r' := a / b, a % b;
    assert a == q' * b + r';
    if q > q' {
      assert (q - q') * b == q * b - q' * b;
      MulAtLeast(q - q', b);
    } else if q < q' {
      assert (q' - q) * b == q' * b - q * b;
      MulAtLeast(q' - q, b);
    }
  }

  lemma Negate(q: int, b: int)
    ensures (-q) * b == -(q * b) && b * (-q) == -(q * b) && b * q == q * b && (q + 1) * b == q * b + b
  {
  }

  lemma NegatedRem(x: int, b: int, q: int, r: int)
    requires b > 0 && x == q * b + r && 0 <= r < b
    ensures r == 0 <==> -x % b == 0
  {
    if r == 0 {
      Negate(q, b);
      DivModUnique(-x, b, -q, 0);
    } else {
      Negate(q + 1, b);
      DivModUnique(-x, b, -(q + 1), b - r);
    }
  }

  lemma DivMod(x: nat, b: int)
    requires b > 0
    ensures x == x / b * b + x % b && 0 <= x % b < b && x / b >= 0
  {
  }

  /** Division and remainder toward zero, from those of the magnitude `x`. */
  lemma TruncParts(x: int, b: int, q: int, r: int)
    requires x >= 0 && b > 0 && x == q * b + r && 0 <= r < b
    ensures TruncDiv(x, b) == q && TruncRem(x, b) == r
    ensures x > 0 ==> TruncDiv(-x, b) == -q && TruncRem(-x, b) == -r
  {
    DivModUnique(x, b, q, r);
    Negate(q, b);
  }

  lemma TruncRemBounds(a: int, b: int)
    requires b > 0
    ensures a >= 0 ==> 0 <= TruncRem(a, b) < b && TruncDiv(a, b) >= 0
    ensures a < 0 ==> -b < TruncRem(a, b) <= 0 && TruncDiv(a, b) <= 0
    ensures TruncRem(a, b) == 0 <==> a % b == 0
  {
    var x := if a >= 0 then a else -a;
    var q, r := x / b, x % b;
    DivMod(x, b);
    TruncParts(x, b, q, r);
    if a < 0 {
      NegatedRem(x, b, q, r);
    }
  }

  // ----- even spans -----

  /** Length of span `i`: the remainder goes one pixel at a time to the earliest. */
  function SpanLen(total: int, parts: int, i: nat): int
    requires parts >= 1
  {
    TruncDiv(total, parts) + if i < TruncRem(total, parts) then 1 else 0
  }

  /** Where span `i` starts, in closed form. */
  function SpanOff(total: int, parts: int, i: nat): int
    requires parts >= 1
  {
    var extra := TruncRem(total, parts);
    TruncDiv(total, parts) * i + if extra <= 0 then 0 else if i < extra then i else extra
  }

  lemma SpanStep(total: int, parts: int, i: nat)
    requires parts >= 1
    ensures SpanOff(total, parts, 0) == 0
    ensures SpanOff(total, parts, i + 1) == SpanOff(total, parts, i) + SpanLen(total, parts, i)
    ensures total >= 0 ==> 0 <= SpanLen(total, parts, i) && 0 <= SpanOff(total, parts, i)
    ensures total < 0 ==> SpanLen(total, parts, i) <= 0 && SpanOff(total, parts, i) <= 0
  {
    TruncRemBounds(total, parts);
    var base := TruncDiv(total, parts);
    assert base * (i + 1) == base * i + base;
    if total >= 0 {
      assert base * i >= 0;
    } else {
      assert (-base) * i >= 0;
      assert base * i == -((-base) * i);
    }
  }

  /** No two spans differ by more than a pixel, and the longer ones come first. */
  lemma SpansEven(total: int, parts: int, i: nat, j: nat)
    requires parts >= 1 && i <= j
    ensures SpanLen(total, parts, j) <= SpanLen(total, parts, i) <= SpanLen(total, parts, j) + 1
  {
  }

  lemma {:induction false} SpanMonotone(total: int, parts: int, i: nat, j: nat)
    requires parts >= 1 && total >= 0 && i <= j
    ensures SpanOff(total, parts, i) <= SpanOff(total, parts, j)
    decreases j - i
  {
    if i < j {
      SpanStep(total, parts, i);
      SpanMonotone(total, parts, i + 1, j);
    }
  }

  /** The spans end exactly at `total` except for a negative total that the parts
      do not divide. The comment in the source claims exactness there too; with
      division toward zero it does not hold (see `NegativeSpansFallShort`). */
  lemma SpansEndExactly(total: int, parts: int)
    requires parts >= 1
    ensures SpanOff(total, parts, parts) == total <==> total >= 0 || total % parts == 0
  {
    TruncRemBounds(total, parts);
    assert total == parts * TruncDiv(total, parts) + TruncRem(total, parts);
  }

  lemma NegativeSpansFallShort()
    ensures SpanOff(-1, 2, 2) == 0
  {
    assert TruncDiv(-1, 2) == 0;
  }

  method EvenSpans(total: int, parts: int) returns (spans: seq<(int, int)>)
    requires parts >= 1
    ensures |spans| == parts
    ensures forall i :: 0 <= i < parts ==> spans[i] == (SpanOff(total, parts, i), SpanLen(total, parts, i))
  {
    var base := TruncDiv(total, parts);
    var extra := TruncRem(total, parts);
    spans := [];
    var off := 0;
    for i := 0 to parts
      invariant |spans| == i
      invariant off == SpanOff(total, parts, i)
      invariant forall k :: 0 <= k < i ==> spans[k] == (SpanOff(total, parts, k), SpanLen(total, parts, k))
    {
      SpanStep(total, parts, i);
      var len := base + if i < extra then 1 else 0;
      spans := spans + [(off, len)];
      off := off + len;
    }
  }

  // ----- grid -----

  /** `floor(sqrt(n))` by its integer characterisation. */
  function ISqrt(n: nat): (r: nat)
    ensures r * r <= n < (r + 1) * (r + 1)
  {
    if n == 0 then 0
    else
      var p := ISqrt(n - 1);
      if (p + 1) * (p + 1) <= n then p + 1 else p
  }

  function GridRowCount(n: nat): nat {
    var r := ISqrt(n);
    if r < 1 then 1 else r
  }

  lemma SquareFits(r: nat, n: nat)
    requires r >= 1 && r * r <= n
    ensures r <= n && n / r >= 1
  {
    MulAtLeast(r, r);
  }

  /** The rows are the whole part of the square root. */
  lemma GridNearlySquare(n: nat)
    requires n >= 1
    ensures var rows := GridRowCount(n); rows * rows <= n < (rows + 1) * (rows + 1)
  {
  }

  lemma GridRowCountFits(n: nat)
    requires n >= 1
    ensures 1 <= GridRowCount(n) <= n
    ensures forall r: nat :: SpanLen(n, GridRowCount(n), r) >= 1
  {
    SquareFits(GridRowCount(n), n);
  }

  /** The cell of row `r`, column `c`. */
  function GridCell(u: Rect, n: nat, r: nat, c: nat): Rect
    requires n >= 1 && SpanLen(n, GridRowCount(n), r) >= 1
  {
    var rows := GridRowCount(n);
    var cols := SpanLen(n, rows, r);
    Rect(u.x + SpanOff(u.w, cols, c), u.y + SpanOff(u.h, rows, r), SpanLen(u.w, cols, c), SpanLen(u.h, rows, r))
  }

  /** The first `k` cells of row `r`. */
  function RowRects(u: Rect, n: nat, r: nat, k: nat): (rs: seq<Rect>)
    requires n >= 1 && SpanLen(n, GridRowCount(n), r) >= 1
    ensures |rs| == k
  {
    if k == 0 then [] else RowRects(u, n, r, k - 1) + [GridCell(u, n, r, k - 1)]
  }

  /** Every cell of the first `r` rows. */
  ghost function GridRows(u: Rect, n: nat, r: nat): seq<Rect>
    requires n >= 1 && forall i: nat :: SpanLen(n, GridRowCount(n), i) >= 1
  {
    if r == 0 then [] else GridRows(u, n, r - 1) + RowRects(u, n, r - 1, SpanLen(n, GridRowCount(n), r - 1))
  }

  lemma {:induction false} RowCover(u: Rect, n: nat, r: nat, k: nat, p: Point)
    requires n >= 1 && SpanLen(n, GridRowCount(n), r) >= 1
    ensures var rows := GridRowCount(n); var cols := SpanLen(n, rows, r);
      Cover(RowRects(u, n, r, k), p) ==
      if Contains(Rect(u.x, u.y + SpanOff(u.h, rows, r), SpanOff(u.w, cols, k), SpanLen(u.h, rows, r)), p) then 1 else 0
  {
    var cols := SpanLen(n, GridRowCount(n), r);
    SpanStep(u.w, cols, k);
    if k > 0 {
      SpanStep(u.w, cols, k - 1);
      RowCover(u, n, r, k - 1, p);
      assert RowRects(u, n, r, k)[..k - 1] == RowRects(u, n, r, k - 1);
    }
  }

  lemma WholeRowCover(u: Rect, n: nat, r: nat, p: Point)
    requires n >= 1 && SpanLen(n, GridRowCount(n), r) >= 1
    ensures var rows := GridRowCount(n);
      Cover(RowRects(u, n, r, SpanLen(n, rows, r)), p) ==
      if Contains(Rect(u.x, u.y + SpanOff(u.h, rows, r), u.w, SpanLen(u.h, rows, r)), p) then 1 else 0
  {
    var cols := SpanLen(n, GridRowCount(n), r);
    RowCover(u, n, r, cols, p);
    SpansEndExactly(u.w, cols);
    SpanStep(u.w, cols, cols);
  }

  /** A row below what is above it: no point in both, none lost. */
  lemma Stacked(u: Rect, off: int, len: int, next: int, above: nat, row: nat, p: Point)
    requires next == off + len && ((off >= 0 && len >= 0) || (off <= 0 && len <= 0))
    requires above == if Contains(Rect(u.x, u.y, u.w, off), p) then 1 else 0
    requires row == if Contains(Rect(u.x, u.y + off, u.w, len), p) then 1 else 0
    ensures above + row == if Contains(Rect(u.x, u.y, u.w, next), p) then 1 else 0
  {
  }

  lemma OneMoreRowCover(u: Rect, n: nat, r: nat, off: int, next: int, p: Point)
    requires n >= 1 && forall i: nat :: SpanLen(n, GridRowCount(n), i) >= 1
    requires off == SpanOff(u.h, GridRowCount(n), r) && next == SpanOff(u.h, GridRowCount(n), r + 1)
    ensures Cover(GridRows(u, n, r), p) == (if Contains(Rect(u.x, u.y, u.w, off), p) then 1 else 0) ==>
              Cover(GridRows(u, n, r + 1), p) == if Contains(Rect(u.x, u.y, u.w, next), p) then 1 else 0
  {
    var rows := GridRowCount(n);
    var above, row := GridRows(u, n, r), RowRects(u, n, r, SpanLen(n, rows, r));
    SpanStep(u.h, rows, r);
    WholeRowCover(u, n, r, p);
    CoverConcat(above, row, p);
    if Cover(above, p) == if Contains(Rect(u.x, u.y, u.w, off), p) then 1 else 0 {
      Stacked(u, off, SpanLen(u.h, rows, r), next, Cover(above, p), Cover(row, p), p);
    }
  }

  lemma {:induction false} GridCover(u: Rect, n: nat, r: nat, p: Point)
    requires n >= 1 && forall i: nat :: SpanLen(n, GridRowCount(n), i) >= 1
    ensures Cover(GridRows(u, n, r), p) ==
            if Contains(Rect(u.x, u.y, u.w, SpanOff(u.h, GridRowCount(n), r)), p) then 1 else 0
  {
    if r == 0 {
      SpanStep(u.h, GridRowCount(n), 0);
    } else {
      GridCover(u, n, r - 1, p);
      OneMoreRowCover(u, n, r - 1, SpanOff(u.h, GridRowCount(n), r - 1), SpanOff(u.h, GridRowCount(n), r), p);
    }
  }

  lemma Distribute(a: int, b: int, c: int)
    ensures (a + b) * c == a * c + b * c && c * (a + b) == c * a + c * b
  {
  }

  lemma {:induction false} RowArea(u: Rect, n: nat, r: nat, k: nat)
    requires n >= 1 && SpanLen(n, GridRowCount(n), r) >= 1
    ensures var rows := GridRowCount(n);
      TotalArea(RowRects(u, n, r, k)) == SpanOff(u.w, SpanLen(n, rows, r), k) * SpanLen(u.h, rows, r)
  {
    var rows := GridRowCount(n);
    var cols, h := SpanLen(n, rows, r), SpanLen(u.h, rows, r);
    SpanStep(u.w, cols, k);
    if k > 0 {
      SpanStep(u.w, cols, k - 1);
      RowArea(u, n, r, k - 1);
      assert RowRects(u, n, r, k)[..k - 1] == RowRects(u, n, r, k - 1);
      Distribute(SpanOff(u.w, cols, k - 1), SpanLen(u.w, cols, k - 1), h);
    }
  }

  lemma OneMoreRow(w: int, off: int, len: int, next: int, above: int, row: int)
    requires next == off + len && above == w * off && row == w * len
    ensures above + row == w * next
  {
    Distribute(off, len, w);
  }

  lemma WholeRowArea(u: Rect, n: nat, r: nat)
    requires n >= 1 && SpanLen(n, GridRowCount(n), r) >= 1 && u.w >= 0
    ensures var rows := GridRowCount(n);
      TotalArea(RowRects(u, n, r, SpanLen(n, rows, r))) == u.w * SpanLen(u.h, rows, r)
  {
    var cols := SpanLen(n, GridRowCount(n), r);
    RowArea(u, n, r, cols);
    SpansEndExactly(u.w, cols);
  }

  lemma {:induction false} GridArea(u: Rect, n: nat, r: nat)
    requires n >= 1 && forall i: nat :: SpanLen(n, GridRowCount(n), i) >= 1
    requires u.w >= 0
    ensures TotalArea(GridRows(u, n, r)) == u.w * SpanOff(u.h, GridRowCount(n), r)
  {
    var rows := GridRowCount(n);
    SpanStep(u.h, rows, r);
    if r > 0 {
      var cols := SpanLen(n, rows, r - 1);
      SpanStep(u.h, rows, r - 1);
      GridArea(u, n, r - 1);
      WholeRowArea(u, n, r - 1);
      TotalAreaConcat(GridRows(u, n, r - 1), RowRects(u, n, r - 1, cols));
      OneMoreRow(u.w, SpanOff(u.h, rows, r - 1), SpanLen(u.h, rows, r - 1), SpanOff(u.h, rows, r),
                 TotalArea(GridRows(u, n, r - 1)), TotalArea(RowRects(u, n, r - 1, cols)));
    }
  }

  lemma {:induction false} RowCell(u: Rect, n: nat, r: nat, k: nat, c: nat)
    requires n >= 1 && SpanLen(n, GridRowCount(n), r) >= 1 && c < k
    ensures RowRects(u, n, r, k)[c] == GridCell(u, n, r, c)
  {
    if c < k - 1 {
      RowCell(u, n, r, k - 1, c);
    }
  }

  lemma {:induction false} GridLength(u: Rect, n: nat, r: nat)
    requires n >= 1 && forall j: nat :: SpanLen(n, GridRowCount(n), j) >= 1
    ensures |GridRows(u, n, r)| == SpanOff(n, GridRowCount(n), r)
  {
    SpanStep(n, GridRowCount(n), r);
    if r > 0 {
      SpanStep(n, GridRowCount(n), r - 1);
      GridLength(u, n, r - 1);
    }
  }

  /** Row `r`, column `c` stands after all the cells of the rows before it. */
  ghost predicate CellAt(out: seq<Rect>, u: Rect, n: nat, r: nat, c: nat)
    requires n >= 1 && c < SpanLen(n, GridRowCount(n), r)
  {
    var k := SpanOff(n, GridRowCount(n), r) + c;
    0 <= k < |out| && out[k] == GridCell(u, n, r, c)
  }

  /** The cells land where their row and column put them: the row before `r` ends
      at the index its column counts add up to, and after all rows at `n`. */
  lemma {:induction false} GridIndex(u: Rect, n: nat, r: nat, i: nat, c: nat)
    requires n >= 1 && forall j: nat :: SpanLen(n, GridRowCount(n), j) >= 1
    requires i < r && c < SpanLen(n, GridRowCount(n), i)
    ensures CellAt(GridRows(u, n, r), u, n, i, c)
  {
    var rows := GridRowCount(n);
    GridLength(u, n, r);
    GridLength(u, n, r - 1);
    SpanStep(n, rows, r - 1);
    SpanStep(n, rows, i);
    if i == r - 1 {
      RowCell(u, n, i, SpanLen(n, rows, i), c);
    } else {
      GridIndex(u, n, r - 1, i, c);
    }
  }

  lemma RowWithin(u: Rect, n: nat, r: nat, c: nat)
    requires n >= 1 && u.w >= 0 && u.h >= 0
    requires r < GridRowCount(n) && SpanLen(n, GridRowCount(n), r) >= 1 && c < SpanLen(n, GridRowCount(n), r)
    ensures Within(GridCell(u, n, r, c), u)
  {
    var rows := GridRowCount(n);
    var cols := SpanLen(n, rows, r);
    SpanStep(u.h, rows, r);
    SpanStep(u.w, cols, c);
    SpanMonotone(u.h, rows, r + 1, rows);
    SpanMonotone(u.w, cols, c + 1, cols);
    SpansEndExactly(u.h, rows);
    SpansEndExactly(u.w, cols);
  }

  /** The grid cuts `usable` exactly, for every rectangle and every `n >= 1`. */
  lemma GridPartitions(u: Rect, n: nat)
    requires n >= 1 && forall i: nat :: SpanLen(n, GridRowCount(n), i) >= 1
    ensures |GridRows(u, n, GridRowCount(n))| == n
    ensures Partitions(GridRows(u, n, GridRowCount(n)), u)
    ensures u.w >= 0 && u.h >= 0 ==> TotalArea(GridRows(u, n, GridRowCount(n))) == Area(u)
  {
    var rows := GridRowCount(n);
    GridLength(u, n, rows);
    SpansEndExactly(n, rows);
    SpansEndExactly(u.h, rows);
    SpanStep(u.h, rows, rows);
    forall p ensures Cover(GridRows(u, n, rows), p) == if Contains(u, p) then 1 else 0 {
      GridCover(u, n, rows, p);
    }
    if u.w >= 0 && u.h >= 0 {
      GridArea(u, n, rows);
    }
  }

  lemma {:induction false} GridRowsWithin(u: Rect, n: nat, r: nat)
    requires n >= 1 && u.w >= 0 && u.h >= 0 && r <= GridRowCount(n)
    requires forall i: nat :: SpanLen(n, GridRowCount(n), i) >= 1
    ensures forall k :: 0 <= k < |GridRows(u, n, r)| ==> Within(GridRows(u, n, r)[k], u)
  {
    if r > 0 {
      GridRowsWithin(u, n, r - 1);
      var cols := SpanLen(n, GridRowCount(n), r - 1);
      var row := RowRects(u, n, r - 1, cols);
      forall c | 0 <= c < |row| ensures Within(row[c], u) {
        RowCell(u, n, r - 1, cols, c);
        RowWithin(u, n, r - 1, c);
      }
    }
  }

  /** A length in two pieces covering it exactly; the odd pixel goes second. */
  function Halves(len: int): (int, int) {
    var first := TruncDiv(len, 2);
    (first, len - first)
  }

  lemma HalvesEven(len: int)
    ensures var (first, second) := Halves(len);
      && first + second == len
      && if len >= 0 then 0 <= first <= second <= first + 1 else first - 1 <= second <= first <= 0
  {
  }

  /** One split of the remainder: the piece handed out and the piece kept. */
  function SplitStep(rem: Rect, i: nat, rotate: bool): (Rect, Rect) {
    var keepFirst := !rotate || i % 4 < 2;
    if i % 2 == 0 then
      var (lw, rw) := Halves(rem.w);
      var left := Rect(rem.x, rem.y, lw, rem.h);
      var right := Rect(rem.x + lw, rem.y, rw, rem.h);
      if keepFirst then (left, right) else (right, left)
    else
      var (th, bh) := Halves(rem.h);
      var top := Rect(rem.x, rem.y, rem.w, th);
      var bottom := Rect(rem.x, rem.y + th, rem.w, bh);
      if keepFirst then (top, bottom) else (bottom, top)
  }

  /** What is left of `u` before split `i`. */
  function Remainder(u: Rect, i: nat, rotate: bool): Rect {
    if i == 0 then u else SplitStep(Remainder(u, i - 1, rotate), i - 1, rotate).1
  }

  /** The pieces handed out by the first `i` splits. */
  function Pieces(u: Rect, i: nat, rotate: bool): (rs: seq<Rect>)
    ensures |rs| == i
  {
    if i == 0 then [] else Pieces(u, i - 1, rotate) + [SplitStep(Remainder(u, i - 1, rotate), i - 1, rotate).0]
  }

  /** What the rectangles are, by place in the list: the grid by row and column,
      the splits by step. */
  ghost predicate Arranged(out: seq<Rect>, u: Rect, n: nat, kind: ArrangeKind)
    requires n >= 1
  {
    match kind
    case Grid =>
      forall r: nat, c: nat :: r < GridRowCount(n) && c < SpanLen(n, GridRowCount(n), r) ==> CellAt(out, u, n, r, c)
    case Spiral => out == Pieces(u, n - 1, true) + [Remainder(u, n - 1, true)]
    case Bsp => out == Pieces(u, n - 1, false) + [Remainder(u, n - 1, false)]
  }

  lemma GridArranged(u: Rect, n: nat)
    requires n >= 1 && forall i: nat :: SpanLen(n, GridRowCount(n), i) >= 1
    ensures Arranged(GridRows(u, n, GridRowCount(n)), u, n, Grid)
  {
    var rows := GridRowCount(n);
    forall r: nat, c: nat | r < rows && c < SpanLen(n, rows, r)
      ensures CellAt(GridRows(u, n, rows), u, n, r, c)
    {
      GridIndex(u, n, rows, r, c);
    }
  }

  method GridRects(usable: Rect, n: nat) returns (out: seq<Rect>)
    ensures |out| == n
    ensures n >= 1 ==> Partitions(out, usable)
    ensures n >= 1 && usable.w >= 0 && usable.h >= 0 ==>
              TotalArea(out) == Area(usable) && forall k :: 0 <= k < n ==> Within(out[k], usable)
    ensures n >= 1 ==> Arranged(out, usable, n, Grid)
  {
    if n == 0 {
      return [];
    }
    GridRowCountFits(n);
    var rows := GridRowCount(n);
    var baseCols := TruncDiv(n, rows);
    var extra := TruncRem(n, rows);
    out := [];
    var rowSpans := EvenSpans(usable.h, rows);
    for r := 0 to rows
      invariant out == GridRows(usable, n, r)
    {
      var (yOff, h) := rowSpans[r];
      var cols := baseCols + if r < extra then 1 else 0;
      assert cols == SpanLen(n, rows, r);  // so never 0: the source's `continue` is dead
      var y := usable.y + yOff;
      var colSpans := EvenSpans(usable.w, cols);
      for c := 0 to cols
        invariant out == GridRows(usable, n, r) + RowRects(usable, n, r, c)
      {
        var (xOff, w) := colSpans[c];
        out := out + [Rect(usable.x + xOff, y, w, h)];
      }
    }
    GridPartitions(usable, n);
    GridArranged(usable, n);
    if usable.w >= 0 && usable.h >= 0 {
      GridRowsWithin(usable, n, rows);
    }
  }

  // ----- recursive splits -----

  lemma SplitCovers(rem: Rect, i: nat, rotate: bool, p: Point)
    ensures var (mine, next) := SplitStep(rem, i, rotate);
      && (Contains(rem, p) <==> Contains(mine, p) || Contains(next, p))
      && !(Contains(mine, p) && Contains(next, p))
  {
  }

  lemma SplitArea(rem: Rect, i: nat, rotate: bool)
    ensures var (mine, next) := SplitStep(rem, i, rotate); Area(mine) + Area(next) == Area(rem)
  {
    var (mine, next) := SplitStep(rem, i, rotate);
    if i % 2 == 0 {
      Distribute(mine.w, next.w, rem.h);
    } else {
      Distribute(mine.h, next.h, rem.w);
    }
  }

  lemma SplitWithin(rem: Rect, i: nat, rotate: bool)
    requires 0 <= rem.w && 0 <= rem.h
    ensures var (mine, next) := SplitStep(rem, i, rotate); Within(mine, rem) && Within(next, rem)
  {
  }

  /** A split loses no point, doubles none, and keeps the area and the bounds. */
  lemma SplitConserves(rem: Rect, i: nat, rotate: bool)
    ensures var (mine, next) := SplitStep(rem, i, rotate);
      && (forall p :: Contains(rem, p) <==> Contains(mine, p) || Contains(next, p))
      && (forall p :: !(Contains(mine, p) && Contains(next, p)))
      && Area(mine) + Area(next) == Area(rem)
      && (0 <= rem.w && 0 <= rem.h ==> Within(mine, rem) && Within(next, rem))
  {
    forall p {
      SplitCovers(rem, i, rotate, p);
    }
    SplitArea(rem, i, rotate);
    if 0 <= rem.w && 0 <= rem.h {
      SplitWithin(rem, i, rotate);
    }
  }

  lemma {:induction false} PiecesCover(u: Rect, i: nat, rotate: bool, p: Point)
    ensures Cover(Pieces(u, i, rotate), p) + (if Contains(Remainder(u, i, rotate), p) then 1 else 0)
            == if Contains(u, p) then 1 else 0
  {
    if i > 0 {
      PiecesCover(u, i - 1, rotate, p);
      SplitCovers(Remainder(u, i - 1, rotate), i - 1, rotate, p);
      assert Pieces(u, i, rotate)[..i - 1] == Pieces(u, i - 1, rotate);
    }
  }

  lemma OnePieceMore(u: Rect, i: nat, rotate: bool, mine: Rect, next: Rect)
    requires SplitStep(Remainder(u, i, rotate), i, rotate) == (mine, next)
    ensures TotalArea(Pieces(u, i + 1, rotate)) == TotalArea(Pieces(u, i, rotate)) + Area(mine)
    ensures Remainder(u, i + 1, rotate) == next
  {
    TotalAreaConcat(Pieces(u, i, rotate), [mine]);
    assert [mine][..0] == [] && TotalArea([mine]) == Area(mine);
  }

  lemma {:induction false} PiecesArea(u: Rect, i: nat, rotate: bool)
    ensures TotalArea(Pieces(u, i, rotate)) + Area(Remainder(u, i, rotate)) == Area(u)
  {
    if i > 0 {
      var rem := Remainder(u, i - 1, rotate);
      var (mine, next) := SplitStep(rem, i - 1, rotate);
      PiecesArea(u, i - 1, rotate);
      SplitArea(rem, i - 1, rotate);
      OnePieceMore(u, i - 1, rotate, mine, next);
    }
  }

  lemma {:induction false} PiecesWithin(u: Rect, i: nat, rotate: bool)
    requires 0 <= u.w && 0 <= u.h
    ensures Within(Remainder(u, i, rotate), u)
    ensures forall k :: 0 <= k < i ==> Within(Pieces(u, i, rotate)[k], u)
  {
    if i > 0 {
      PiecesWithin(u, i - 1, rotate);
      SplitWithin(Remainder(u, i - 1, rotate), i - 1, rotate);
      assert forall k :: 0 <= k < i - 1 ==> Pieces(u, i, rotate)[k] == Pieces(u, i - 1, rotate)[k];
    }
  }

  lemma PiecesConserve(u: Rect, i: nat, rotate: bool)
    ensures forall p :: Cover(Pieces(u, i, rotate), p) + (if Contains(Remainder(u, i, rotate), p) then 1 else 0)
                     == if Contains(u, p) then 1 else 0
    ensures TotalArea(Pieces(u, i, rotate)) + Area(Remainder(u, i, rotate)) == Area(u)
    ensures 0 <= u.w && 0 <= u.h ==>
              Within(Remainder(u, i, rotate), u)
              && forall k :: 0 <= k < i ==> Within(Pieces(u, i, rotate)[k], u)
  {
    forall p ensures Cover(Pieces(u, i, rotate), p) + (if Contains(Remainder(u, i, rotate), p) then 1 else 0)
                  == if Contains(u, p) then 1 else 0
    {
      PiecesCover(u, i, rotate, p);
    }
    PiecesArea(u, i, rotate);
    if 0 <= u.w && 0 <= u.h {
      PiecesWithin(u, i, rotate);
    }
  }

  method SplitRects(usable: Rect, n: nat, rotate: bool) returns (out: seq<Rect>)
    ensures |out| == n
    ensures n >= 1 ==> Partitions(out, usable) && TotalArea(out) == Area(usable)
    ensures n >= 1 && 0 <= usable.w && 0 <= usable.h ==> forall k :: 0 <= k < n ==> Within(out[k], usable)
    ensures n >= 1 ==> out == Pieces(usable, n - 1, rotate) + [Remainder(usable, n - 1, rotate)]
  {
    out := [];
    var rem := usable;
    for i := 0 to n
      invariant i == n == 0 || i < n
      invariant out == Pieces(usable, i, rotate) && rem == Remainder(usable, i, rotate)
    {
      if i == n - 1 {
        PiecesConserve(usable, i, rotate);
        out := out + [rem];
        assert out[..i] == Pieces(usable, i, rotate);
        break;
      }
      var (mine, next) := SplitStep(rem, i, rotate);
      out := out + [mine];
      rem := next;
    }
  }

  // ----- the dwindle in closed form -----

  function Pow2(k: nat): (p: nat)
    ensures p >= 1
  {
    if k == 0 then 1 else 2 * Pow2(k - 1)
  }

  /** `ceil(a / 2^k)`. */
  function CeilShift(a: nat, k: nat): nat {
    (a + Pow2(k) - 1) / Pow2(k)
  }

  lemma MulMonotone(a: int, b: int, p: int)
    requires a <= b && p >= 0
    ensures a * p <= b * p
  {
    assert (b - a) * p >= 0;
  }

  lemma CeilCharacterised(a: nat, k: nat, q: nat)
    ensures q == CeilShift(a, k) <==> (q - 1) * Pow2(k) < a <= q * Pow2(k)
  {
    var p, t := Pow2(k), CeilShift(a, k);
    assert a + p - 1 == p * t + (a + p - 1) % p;
    assert (t - 1) * p == p * t - p;
    assert (q - 1) * p == p * q - p;
    if q < t {
      MulMonotone(q, t - 1, p);
    } else if q > t {
      MulMonotone(t, q - 1, p);
    }
  }

  lemma Regroup(x: int, p: int)
    ensures (2 * x) * p == x * (2 * p)
  {
  }

  /** Keeping the larger half once more is one more halving, rounded up. */
  lemma CeilShiftHalves(a: nat, k: nat)
    ensures CeilShift(a, k) - CeilShift(a, k) / 2 == CeilShift(a, k + 1)
  {
    var p, c := Pow2(k), CeilShift(a, k);
    var d := c - c / 2;
    CeilCharacterised(a, k, c);
    var e: int := d;
    assert 2 * (e - 1) <= c - 1 && c <= 2 * e;
    MulMonotone(2 * (e - 1), c - 1, p);
    MulMonotone(c, 2 * e, p);
    Regroup(e - 1, p);
    Regroup(e, p);
    CeilCharacterised(a, k + 1, d);
  }

  lemma CeilShiftAtLeastTwo(a: nat, k: nat)
    ensures CeilShift(a, k) >= 2 <==> a > Pow2(k)
    ensures CeilShift(a, k) >= 1 <==> a >= 1
  {
    var c := CeilShift(a, k);
    CeilCharacterised(a, k, c);
    if c >= 2 {
      MulAtLeast(c - 1, Pow2(k));
    }
  }

  lemma {:induction false} Pow2Monotone(j: nat, k: nat)
    requires j <= k
    ensures Pow2(j) <= Pow2(k)
  {
    if j < k {
      Pow2Monotone(j, k - 1);
    }
  }

  /** A rectangle of that size in the bottom-right corner. */
  function Corner(u: Rect, w: int, h: int): Rect {
    Rect(u.x + u.w - w, u.y + u.h - h, w, h)
  }

  /** The remainder before split `i` as a formula: the width has been halved at
      each even split, the height at each odd one, both rounded up, and the
      bottom-right corner has not moved. */
  function BspRemainder(u: Rect, i: nat): Rect
    requires u.w >= 0 && u.h >= 0
  {
    Corner(u, CeilShift(u.w, (i + 1) / 2), CeilShift(u.h, i / 2))
  }

  /** A dwindle split keeps the bottom-right corner. */
  lemma KeptCorner(u: Rect, i: nat, w: nat, h: nat, w': nat, h': nat)
    requires w' == (if i % 2 == 0 then w - w / 2 else w) && h' == if i % 2 == 0 then h else h - h / 2
    ensures SplitStep(Corner(u, w, h), i, false).1 == Corner(u, w', h')
  {
  }

  lemma BspOneMore(u: Rect, i: nat)
    requires u.w >= 0 && u.h >= 0
    ensures SplitStep(BspRemainder(u, i), i, false).1 == BspRemainder(u, i + 1)
  {
    if i % 2 == 0 {
      CeilShiftHalves(u.w, (i + 1) / 2);
      assert (i + 2) / 2 == (i + 1) / 2 + 1 && (i + 1) / 2 == i / 2;
    } else {
      CeilShiftHalves(u.h, i / 2);
      assert (i + 2) / 2 == (i + 1) / 2 && (i + 1) / 2 == i / 2 + 1;
    }
    KeptCorner(u, i, CeilShift(u.w, (i + 1) / 2), CeilShift(u.h, i / 2),
               CeilShift(u.w, (i + 2) / 2), CeilShift(u.h, (i + 1) / 2));
  }

  lemma {:induction false} BspClosedForm(u: Rect, i: nat)
    requires u.w >= 0 && u.h >= 0
    ensures Remainder(u, i, false) == BspRemainder(u, i)
  {
    if i == 0 {
      assert Pow2(0) == 1;
    } else {
      BspClosedForm(u, i - 1);
      BspOneMore(u, i - 1);
    }
  }

  /** Window `i` of a dwindle over `n` windows, without recursion. */
  function BspRect(u: Rect, n: nat, i: nat): Rect
    requires u.w >= 0 && u.h >= 0 && i < n
  {
    var r := BspRemainder(u, i);
    if i == n - 1 then r
    else if i % 2 == 0 then Rect(r.x, r.y, r.w / 2, r.h)
    else Rect(r.x, r.y, r.w, r.h / 2)
  }

  lemma {:induction false} BspPiece(u: Rect, n: nat, k: nat, i: nat)
    requires u.w >= 0 && u.h >= 0 && i < k < n
    ensures Pieces(u, k, false)[i] == BspRect(u, n, i)
    decreases k
  {
    if i == k - 1 {
      BspClosedForm(u, i);
    } else {
      BspPiece(u, n, k - 1, i);
    }
  }

  /** The loop's rectangles are the formula's. */
  lemma BspRects(u: Rect, n: nat, i: nat)
    requires u.w >= 0 && u.h >= 0 && i < n
    ensures (Pieces(u, n - 1, false) + [Remainder(u, n - 1, false)])[i] == BspRect(u, n, i)
  {
    if i == n - 1 {
      BspClosedForm(u, i);
    } else {
      BspPiece(u, n, n - 1, i);
    }
  }

  predicate Solid(r: Rect) {
    r.w > 0 && r.h > 0
  }

  lemma BspSolid(u: Rect, n: nat, i: nat)
    requires u.w >= 0 && u.h >= 0 && i < n
    ensures Solid(BspRect(u, n, i))
       <==> && u.w >= 1 && u.h >= 1
            && (i < n - 1 && i % 2 == 0 ==> u.w > Pow2(i / 2))
            && (i < n - 1 && i % 2 == 1 ==> u.h > Pow2(i / 2))
  {
    var r := BspRemainder(u, i);
    CeilShiftAtLeastTwo(u.w, (i + 1) / 2);
    CeilShiftAtLeastTwo(u.h, i / 2);
    assert Solid(r) <==> u.w >= 1 && u.h >= 1;
    if i < n - 1 {
      if i % 2 == 0 {
        assert (i + 1) / 2 == i / 2;
        assert Solid(BspRect(u, n, i)) <==> r.w >= 2 && r.h >= 1;
      } else {
        assert Solid(BspRect(u, n, i)) <==> r.w >= 1 && r.h >= 2;
      }
    }
  }

  lemma LastHalving(u: Rect, n: nat, i: nat)
    requires u.w >= 0 && u.h >= 0 && i < n - 1 && Solid(BspRect(u, n, i))
    ensures i % 2 == 0 ==> u.w > Pow2(i / 2)
    ensures i % 2 == 1 ==> u.h > Pow2(i / 2)
  {
    BspSolid(u, n, i);
  }

  /** No window of the dwindle is degenerate exactly when each side outlasts the
      halvings it takes part in. */
  lemma BspNonDegenerate(u: Rect, n: nat)
    requires u.w >= 0 && u.h >= 0 && n >= 1
    ensures (forall i: nat :: i < n ==> Solid(BspRect(u, n, i)))
       <==> && u.w >= 1 && u.h >= 1
            && (n >= 2 ==> u.w > Pow2((n - 2) / 2))
            && (n >= 3 ==> u.h > Pow2((n - 3) / 2))
  {
    if u.w >= 1 && u.h >= 1 && (n >= 2 ==> u.w > Pow2((n - 2) / 2)) && (n >= 3 ==> u.h > Pow2((n - 3) / 2)) {
      forall i: nat | i < n ensures Solid(BspRect(u, n, i)) {
        BspSolid(u, n, i);
        if i < n - 1 {
          Pow2Monotone(i / 2, if i % 2 == 0 then (n - 2) / 2 else (n - 3) / 2);
        }
      }
    } else if forall i: nat :: i < n ==> Solid(BspRect(u, n, i)) {
      BspSolid(u, n, 0);
      if n >= 2 {
        LastHalving(u, n, (n - 2) / 2 * 2);
      }
      if n >= 3 {
        LastHalving(u, n, (n - 3) / 2 * 2 + 1);
      }
    }
  }

  // ----- the spiral -----

  /** The later window lies on the far side of the earlier one's edge: to its right,
      below it, to its left and above it in turn. */
  predicate Beyond(i: nat, mine: Rect, later: Rect) {
    match i % 4
    case 0 => mine.x + mine.w <= later.x
    case 1 => mine.y + mine.h <= later.y
    case 2 => later.x + later.w <= mine.x
    case _ => later.y + later.h <= mine.y
  }

  lemma Quarter(i: nat)
    ensures i % 2 == i % 4 % 2
  {
  }

  lemma SpiralStep(rem: Rect, i: nat, r: Rect)
    requires 0 <= rem.w && 0 <= rem.h && Within(r, SplitStep(rem, i, true).1)
    ensures Beyond(i, SplitStep(rem, i, true).0, r)
  {
    Quarter(i);
  }

  lemma WithinTransitive(a: Rect, b: Rect, c: Rect)
    requires Within(a, b) && Within(b, c)
    ensures Within(a, c)
  {
  }

  /** Everything handed out from split `i` on lies in the remainder before it. */
  lemma {:induction false} LaterWithin(u: Rect, i: nat, j: nat, rotate: bool)
    requires 0 <= u.w && 0 <= u.h && i <= j
    ensures var rem := Remainder(u, j, rotate);
      0 <= rem.w && 0 <= rem.h && Within(rem, Remainder(u, i, rotate))
      && Within(SplitStep(rem, j, rotate).0, Remainder(u, i, rotate))
    decreases j - i
  {
    PiecesWithin(u, j, rotate);
    SplitWithin(Remainder(u, j, rotate), j, rotate);
    if i < j {
      PiecesWithin(u, i, rotate);
      SplitWithin(Remainder(u, i, rotate), i, rotate);
      LaterWithin(u, i + 1, j, rotate);
      WithinTransitive(Remainder(u, j, rotate), Remainder(u, i + 1, rotate), Remainder(u, i, rotate));
      WithinTransitive(SplitStep(Remainder(u, j, rotate), j, rotate).0, Remainder(u, i + 1, rotate),
                       Remainder(u, i, rotate));
    }
  }

  lemma {:induction false} PieceAt(u: Rect, k: nat, i: nat, rotate: bool)
    requires i < k
    ensures Pieces(u, k, rotate)[i] == SplitStep(Remainder(u, i, rotate), i, rotate).0
    decreases k
  {
    if i < k - 1 {
      PieceAt(u, k - 1, i, rotate);
    }
  }

  /** Window `i` of a spiral stands against one edge of what was left, and all later
      ones lie beyond it; the edges go round. */
  ghost predicate Winds(out: seq<Rect>) {
    forall i, j :: 0 <= i < j < |out| ==> Beyond(i, out[i], out[j])
  }

  lemma SpiralWinds(u: Rect, n: nat)
    requires 0 <= u.w && 0 <= u.h && n >= 1
    ensures Winds(Pieces(u, n - 1, true) + [Remainder(u, n - 1, true)])
  {
    var out := Pieces(u, n - 1, true) + [Remainder(u, n - 1, true)];
    forall i, j | 0 <= i < j < n ensures Beyond(i, out[i], out[j]) {
      PieceAt(u, n - 1, i, true);
      if j < n - 1 {
        PieceAt(u, n - 1, j, true);
      }
      SpiralPair(u, i, j);
    }
  }

  lemma SpiralPair(u: Rect, i: nat, j: nat)
    requires 0 <= u.w && 0 <= u.h && i < j
    ensures var mine, rem := SplitStep(Remainder(u, i, true), i, true).0, Remainder(u, j, true);
      Beyond(i, mine, rem) && Beyond(i, mine, SplitStep(rem, j, true).0)
  {
    var rem := Remainder(u, i, true);
    PiecesWithin(u, i, true);
    LaterWithin(u, i + 1, j, true);
    SpiralStep(rem, i, Remainder(u, j, true));
    SpiralStep(rem, i, SplitStep(Remainder(u, j, true), j, true).0);
  }

  /** What the halvings of a side rounded up and down in turn, up first, add before
      the one division by `2^k` that comes to the same. */
  function Carry(k: nat): nat {
    if k == 0 then 0 else Carry(k - 1) + if k % 2 == 1 then Pow2(k - 1) else 0
  }

  /** In closed form it is a third of the next power of four, less one. */
  lemma {:induction false} CarryClosed(k: nat)
    ensures 3 * Carry(k) + 1 == if k % 2 == 0 then Pow2(k) else Pow2(k + 1)
  {
    if k > 0 {
      CarryClosed(k - 1);
      assert Pow2(k + 1) == 2 * Pow2(k) && Pow2(k) == 2 * Pow2(k - 1);
    }
  }

  function Over(x: nat, p: nat): nat
    requires p >= 1
  {
    x / p
  }

  function SpiralSide(a: nat, k: nat): nat {
    Over(a + Carry(k), Pow2(k))
  }

  lemma HalfOfQuotient(x: nat, p: nat)
    requires p >= 1
    ensures (x / p) / 2 == x / (2 * p) && (x / p + 1) / 2 == (x + p) / (2 * p)
  {
    var q, r := x / p, x % p;
    assert x == p * q + r;
    var h, e := q / 2, q % 2;
    assert q == 2 * h + e;
    assert p * q == (2 * p) * h + p * e;
    Quotient(x, 2 * p, h, p * e + r);
    if e == 0 {
      Quotient(x + p, 2 * p, h, p + r);
    } else {
      assert (2 * p) * (h + 1) == (2 * p) * h + 2 * p;
      Quotient(x + p, 2 * p, h + 1, r);
    }
  }

  lemma Quotient(x: nat, d: nat, q: nat, r: nat)
    requires d >= 1 && x == d * q + r && r < d
    ensures x / d == q
  {
    var k := x / d;
    assert x == d * k + x % d;
    if k < q {
      MulMonotone(k + 1, q, d);
    } else if q < k {
      MulMonotone(q + 1, k, d);
    }
  }

  lemma SpiralSideNext(a: nat, k: nat)
    ensures var s := SpiralSide(a, k); SpiralSide(a, k + 1) == if k % 2 == 0 then s - s / 2 else s / 2
  {
    HalfOfQuotient(a + Carry(k), Pow2(k));
    var s := SpiralSide(a, k);
    assert s - s / 2 == (s + 1) / 2;
  }

  lemma SpiralHalves(rem: Rect, i: nat)
    requires 0 <= rem.w && 0 <= rem.h
    ensures var next := SplitStep(rem, i, true).1;
      if i % 2 == 0 then next.h == rem.h && next.w == if i % 4 < 2 then rem.w - rem.w / 2 else rem.w / 2
      else next.w == rem.w && next.h == if i % 4 < 2 then rem.h - rem.h / 2 else rem.h / 2
  {
  }

  lemma EvenCuts(i: nat)
    requires i % 2 == 0
    ensures (i + 1) / 2 == i / 2 && (i + 2) / 2 == i / 2 + 1 && (i % 4 < 2 <==> i / 2 % 2 == 0)
  {
  }

  lemma OddCuts(i: nat)
    requires i % 2 == 1
    ensures (i + 1) / 2 == i / 2 + 1 && (i + 2) / 2 == (i + 1) / 2 && (i % 4 < 2 <==> i / 2 % 2 == 0)
  {
    var k := i / 2;
    assert i == 2 * k + 1;
    assert (2 * k + 2) / 2 == k + 1 && (2 * k + 3) / 2 == k + 1;
    var m, e := k / 2, k % 2;
    assert i == 4 * m + (2 * e + 1);
    assert i % 4 == 2 * e + 1;
  }

  lemma SpiralGrow(u: Rect, rem: Rect, i: nat)
    requires u.w >= 0 && u.h >= 0
    requires rem.w == SpiralSide(u.w, (i + 1) / 2) && rem.h == SpiralSide(u.h, i / 2)
    ensures var next := SplitStep(rem, i, true).1;
      next.w == SpiralSide(u.w, (i + 2) / 2) && next.h == SpiralSide(u.h, (i + 1) / 2)
  {
    SpiralHalves(rem, i);
    if i % 2 == 0 {
      EvenCuts(i);
      SpiralSideNext(u.w, i / 2);
    } else {
      OddCuts(i);
      SpiralSideNext(u.h, i / 2);
    }
  }

  /** The size of what is left before split `i`, without recursion. */
  lemma {:induction false} SpiralRemainder(u: Rect, i: nat)
    requires u.w >= 0 && u.h >= 0
    ensures var rem := Remainder(u, i, true);
      rem.w == SpiralSide(u.w, (i + 1) / 2) && rem.h == SpiralSide(u.h, i / 2)
  {
    if i == 0 {
      assert Pow2(0) == 1 && Carry(0) == 0;
    } else {
      SpiralRemainder(u, i - 1);
      SpiralGrow(u, Remainder(u, i - 1, true), i - 1);
    }
  }

  /** The size of window `i` of a spiral over `n`: the last has all that is left, the
      others the part of it that is not. */
  ghost predicate SpiralSized(u: Rect, n: nat, i: nat, r: Rect)
    requires u.w >= 0 && u.h >= 0
  {
    var w, h := SpiralSide(u.w, (i + 1) / 2), SpiralSide(u.h, i / 2);
    if i + 1 >= n then r.w == w && r.h == h
    else if i % 2 == 0 then r.w == w - SpiralSide(u.w, (i + 2) / 2) && r.h == h
    else r.w == w && r.h == h - SpiralSide(u.h, (i + 1) / 2)
  }

  lemma SpiralTaken(u: Rect, n: nat, i: nat, rem: Rect)
    requires u.w >= 0 && u.h >= 0 && i + 1 < n
    requires rem.w == SpiralSide(u.w, (i + 1) / 2) && rem.h == SpiralSide(u.h, i / 2)
    ensures SpiralSized(u, n, i, SplitStep(rem, i, true).0)
  {
    SpiralGrow(u, rem, i);
    SplitSums(rem, i, true);
  }

  lemma SplitSums(rem: Rect, i: nat, rotate: bool)
    ensures var (mine, next) := SplitStep(rem, i, rotate);
      if i % 2 == 0 then mine.w + next.w == rem.w && mine.h == rem.h else mine.h + next.h == rem.h && mine.w == rem.w
  {
  }

  lemma SpiralRects(u: Rect, n: nat, i: nat)
    requires u.w >= 0 && u.h >= 0 && i < n
    ensures SpiralSized(u, n, i, (Pieces(u, n - 1, true) + [Remainder(u, n - 1, true)])[i])
  {
    SpiralRemainder(u, i);
    if i < n - 1 {
      PieceAt(u, n - 1, i, true);
      SpiralTaken(u, n, i, Remainder(u, i, true));
    }
  }

  // ----- every kind -----

  method ArrangeRects(usable: Rect, n: nat, kind: ArrangeKind) returns (out: seq<Rect>)
    ensures |out| == n
    ensures n >= 1 ==> Partitions(out, usable) && Arranged(out, usable, n, kind)
    ensures n >= 1 && usable.w >= 0 && usable.h >= 0 ==>
              TotalArea(out) == Area(usable) && forall k :: 0 <= k < n ==> Within(out[k], usable)
    ensures kind.Spiral? && usable.w >= 0 && usable.h >= 0 ==>
              Winds(out) && forall i :: 0 <= i < n ==> SpiralSized(usable, n, i, out[i])
    ensures kind.Bsp? && usable.w >= 0 && usable.h >= 0 ==> forall i :: 0 <= i < n ==> out[i] == BspRect(usable, n, i)
  {
    match kind
    case Grid => out := GridRects(usable, n);
    case Spiral =>
      out := SplitRects(usable, n, true);
      if n >= 1 && usable.w >= 0 && usable.h >= 0 {
        SpiralWinds(usable, n);
        forall i | 0 <= i < n ensures SpiralSized(usable, n, i, out[i]) {
          SpiralRects(usable, n, i);
        }
      }
    case Bsp =>
      out := SplitRects(usable, n, false);
      if n >= 1 && usable.w >= 0 && usable.h >= 0 {
        forall i | 0 <= i < n ensures out[i] == BspRect(usable, n, i) {
          BspRects(usable, n, i);
        }
      }
  }
}
