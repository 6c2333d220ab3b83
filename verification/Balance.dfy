/** How much ink falls on each viewport-sized tile of an arrangement, on a grid of whole numbers. */
module Balance {

  datatype Rect = Rect(x: int, y: int, w: int, h: int)

  function Max(a: int, b: int): int {
    if a < b then b else a
  }

  function Min(a: int, b: int): int {
    if b < a then b else a
  }

  /** How much of the stretch `[a, a + m)` falls within `[x, x + n)`. */
  function Common(x: int, n: int, a: int, m: int): nat {
    Max(Min(x + n, a + m) - Max(x, a), 0)
  }

  function Overlap(a: Rect, b: Rect): int {
    Common(a.x, a.w, b.x, b.w) * Common(a.y, a.h, b.y, b.h)
  }

  /** The number of tiles of side `v` that cover `n`: at least one. */
  function Count(n: int, v: int): (c: nat)
    requires v > 0
    ensures c >= 1
  {
    if n <= 0 then 1 else (n + v - 1) / v
  }

  lemma RealProduct(c: int, v: int)
    ensures (c * v) as real == c as real * v as real
  {
  }

  lemma Ceiling(n: int, v: int)
    requires v > 0 && n > 0
    ensures (Count(n, v) - 1) * v <= n - 1 && n <= Count(n, v) * v
  {
    var c := (n + v - 1) / v;
    assert n + v - 1 == c * v + (n + v - 1) % v;
    assert (c - 1) * v == c * v - v;
  }

  /** The count is the least that covers, and the hundredth the source takes off before rounding up does
      not change it. */
  lemma CountCovers(n: int, v: int)
    requires v > 0
    ensures n <= Count(n, v) * v
    ensures n > 0 ==> (Count(n, v) - 1) as real * v as real < n as real - 0.01 <= Count(n, v) as real * v as real
  {
    if n > 0 {
      Ceiling(n, v);
      hide Count;
      RealProduct(Count(n, v) - 1, v);
      RealProduct(Count(n, v), v);
    }
  }

  function TileAt(bbox: Rect, vw: int, vh: int, row: int, col: int): Rect {
    Rect(bbox.x + col * vw, bbox.y + row * vh, vw, vh)
  }

  /** Everything the tiles cover. */
  function Grid(bbox: Rect, vw: int, vh: int, rows: nat, cols: nat): Rect {
    Rect(bbox.x, bbox.y, cols * vw, rows * vh)
  }

  /** The overlaps of one tile with all the rectangles. */
  function Ink(tile: Rect, rects: seq<Rect>): int {
    if rects == [] then 0 else Ink(tile, rects[..|rects| - 1]) + Overlap(tile, rects[|rects| - 1])
  }

  function Sum(s: seq<int>): int {
    if s == [] then 0 else Sum(s[..|s| - 1]) + s[|s| - 1]
  }

  function Area(rects: seq<Rect>): int {
    if rects == [] then 0 else Area(rects[..|rects| - 1]) + rects[|rects| - 1].w * rects[|rects| - 1].h
  }

  // ---- the tiles tile ----

  /** Two stretches side by side have in common with a third what both together have. */
  lemma CommonApart(x: int, n: nat, k: nat, a: int, m: nat)
    ensures Common(x, n, a, m) + Common(x + n, k, a, m) == Common(x, n + k, a, m)
  {
  }

  lemma NothingCommon(x: int, a: int, m: int)
    ensures Common(x, 0, a, m) == 0
  {
  }

  /** The overlaps of a row's tiles with one rectangle. */
  function RowInk(bbox: Rect, vw: int, vh: int, row: int, cols: nat, r: Rect): int {
    if cols == 0 then 0 else RowInk(bbox, vw, vh, row, cols - 1, r) + Overlap(TileAt(bbox, vw, vh, row, cols - 1), r)
  }

  function GridInk(bbox: Rect, vw: int, vh: int, rows: nat, cols: nat, r: Rect): int {
    if rows == 0 then 0 else GridInk(bbox, vw, vh, rows - 1, cols, r) + RowInk(bbox, vw, vh, rows - 1, cols, r)
  }

  lemma {:induction false} RowIsStrip(bbox: Rect, vw: nat, vh: nat, row: int, cols: nat, r: Rect)
    requires r.w >= 0 && r.h >= 0
    ensures RowInk(bbox, vw, vh, row, cols, r) == Common(bbox.x, cols * vw, r.x, r.w) * Common(bbox.y + row * vh, vh, r.y, r.h)
  {
    hide Common;
    var high := Common(bbox.y + row * vh, vh, r.y, r.h);
    NothingCommon(bbox.x, r.x, r.w);
    if cols > 0 {
      RowIsStrip(bbox, vw, vh, row, cols - 1, r);
      assert (cols - 1) * vw + vw == cols * vw;
      CommonApart(bbox.x, (cols - 1) * vw, vw, r.x, r.w);
      Distribute(Common(bbox.x, (cols - 1) * vw, r.x, r.w), Common(bbox.x + (cols - 1) * vw, vw, r.x, r.w), high);
    }
  }

  lemma Distribute(a: int, b: int, c: int)
    ensures a * c + b * c == (a + b) * c
    ensures c * a + c * b == c * (a + b)
  {
  }

  /** Over any rectangle the tiles' overlaps add up to its overlap with the whole grid. */
  lemma {:induction false} TilesAddUp(bbox: Rect, vw: nat, vh: nat, rows: nat, cols: nat, r: Rect)
    requires r.w >= 0 && r.h >= 0
    ensures GridInk(bbox, vw, vh, rows, cols, r) == Overlap(Grid(bbox, vw, vh, rows, cols), r)
  {
    hide Common;
    var wide := Common(bbox.x, cols * vw, r.x, r.w);
    NothingCommon(bbox.y, r.y, r.h);
    if rows > 0 {
      TilesAddUp(bbox, vw, vh, rows - 1, cols, r);
      RowIsStrip(bbox, vw, vh, rows - 1, cols, r);
      assert (rows - 1) * vh + vh == rows * vh;
      CommonApart(bbox.y, (rows - 1) * vh, vh, r.y, r.h);
      Distribute(Common(bbox.y, (rows - 1) * vh, r.y, r.h), Common(bbox.y + (rows - 1) * vh, vh, r.y, r.h), wide);
    }
  }

  predicate Within(r: Rect, bbox: Rect) {
    && bbox.x <= r.x && r.x + r.w <= bbox.x + bbox.w
    && bbox.y <= r.y && r.y + r.h <= bbox.y + bbox.h
  }

  /** The tiles hold the whole area of a rectangle that has any exactly when it lies within all they cover. */
  lemma {:induction false} InkIsKept(bbox: Rect, vw: nat, vh: nat, rows: nat, cols: nat, r: Rect)
    requires r.w > 0 && r.h > 0
    ensures GridInk(bbox, vw, vh, rows, cols, r) == r.w * r.h <==> Within(r, Grid(bbox, vw, vh, rows, cols))
  {
    TilesAddUp(bbox, vw, vh, rows, cols, r);
    var g := Grid(bbox, vw, vh, rows, cols);
    var a, b := Common(g.x, g.w, r.x, r.w), Common(g.y, g.h, r.y, r.h);
    assert a <= r.w && b <= r.h;
    ProductOfParts(a, r.w, b, r.h);
    assert a == r.w <==> g.x <= r.x && r.x + r.w <= g.x + g.w;
    assert b == r.h <==> g.y <= r.y && r.y + r.h <= g.y + g.h;
  }

  lemma ProductOfParts(a: nat, w: nat, b: nat, h: nat)
    requires a <= w && b <= h && w > 0 && h > 0
    ensures a * b == w * h <==> a == w && b == h
  {
    if a < w {
      assert a * b <= a * h < w * h;
    } else if b < h {
      assert a * b < w * h;
    }
  }

  // ---- the loop over the tiles ----

  function RowTiles(bbox: Rect, vw: int, vh: int, row: int, cols: nat, rects: seq<Rect>): (tiles: seq<int>)
    ensures |tiles| == cols && forall col :: 0 <= col < cols ==> tiles[col] == Ink(TileAt(bbox, vw, vh, row, col), rects)
  {
    seq(cols, col requires 0 <= col < cols => Ink(TileAt(bbox, vw, vh, row, col), rects))
  }

  function AllTiles(bbox: Rect, vw: int, vh: int, rows: nat, cols: nat, rects: seq<Rect>): seq<int> {
    if rows == 0 then [] else AllTiles(bbox, vw, vh, rows - 1, cols, rects) + RowTiles(bbox, vw, vh, rows - 1, cols, rects)
  }

  /** The ink on each tile, row by row. */
  method Tiles(bbox: Rect, vw: nat, vh: nat, rects: seq<Rect>) returns (tiles: seq<int>)
    requires vw > 0 && vh > 0
    ensures tiles == AllTiles(bbox, vw, vh, Count(bbox.h, vh), Count(bbox.w, vw), rects)
  {
    var cols, rows := Count(bbox.w, vw), Count(bbox.h, vh);
    tiles := [];
    for row := 0 to rows
      invariant tiles == AllTiles(bbox, vw, vh, row, cols, rects)
    {
      for col := 0 to cols
        invariant tiles == AllTiles(bbox, vw, vh, row, cols, rects) + RowTiles(bbox, vw, vh, row, cols, rects)[..col]
      {
        tiles := tiles + [Ink(TileAt(bbox, vw, vh, row, col), rects)];
      }
      assert RowTiles(bbox, vw, vh, row, cols, rects)[..cols] == RowTiles(bbox, vw, vh, row, cols, rects);
    }
  }

  lemma {:induction false} SumApart(a: seq<int>, b: seq<int>)
    ensures Sum(a + b) == Sum(a) + Sum(b)
  {
    if b == [] {
      assert a + b == a;
    } else {
      assert (a + b)[..|a + b| - 1] == a + b[..|b| - 1];
      SumApart(a, b[..|b| - 1]);
    }
  }

  lemma {:induction false} RowTilesSum(bbox: Rect, vw: int, vh: int, row: int, cols: nat, rects: seq<Rect>)
    ensures Sum(RowTiles(bbox, vw, vh, row, cols, rects)) == RowSum(bbox, vw, vh, row, cols, rects)
  {
    if cols > 0 {
      var tiles := RowTiles(bbox, vw, vh, row, cols, rects);
      assert tiles[..cols - 1] == RowTiles(bbox, vw, vh, row, cols - 1, rects);
      RowTilesSum(bbox, vw, vh, row, cols - 1, rects);
    }
  }

  lemma {:induction false} AllTilesSum(bbox: Rect, vw: int, vh: int, rows: nat, cols: nat, rects: seq<Rect>)
    ensures Sum(AllTiles(bbox, vw, vh, rows, cols, rects)) == GridSum(bbox, vw, vh, rows, cols, rects)
  {
    if rows > 0 {
      AllTilesSum(bbox, vw, vh, rows - 1, cols, rects);
      RowTilesSum(bbox, vw, vh, rows - 1, cols, rects);
      SumApart(AllTiles(bbox, vw, vh, rows - 1, cols, rects), RowTiles(bbox, vw, vh, rows - 1, cols, rects));
    }
  }

  function RowSum(bbox: Rect, vw: int, vh: int, row: int, cols: nat, rects: seq<Rect>): int {
    if cols == 0 then 0 else RowSum(bbox, vw, vh, row, cols - 1, rects) + Ink(TileAt(bbox, vw, vh, row, cols - 1), rects)
  }

  function GridSum(bbox: Rect, vw: int, vh: int, rows: nat, cols: nat, rects: seq<Rect>): int {
    if rows == 0 then 0 else GridSum(bbox, vw, vh, rows - 1, cols, rects) + RowSum(bbox, vw, vh, rows - 1, cols, rects)
  }

  lemma {:induction false} RowSumApart(bbox: Rect, vw: int, vh: int, row: int, cols: nat, rects: seq<Rect>)
    requires rects != []
    ensures RowSum(bbox, vw, vh, row, cols, rects)
            == RowSum(bbox, vw, vh, row, cols, rects[..|rects| - 1]) + RowInk(bbox, vw, vh, row, cols, rects[|rects| - 1])
  {
    if cols > 0 {
      RowSumApart(bbox, vw, vh, row, cols - 1, rects);
    }
  }

  lemma {:induction false} GridSumApart(bbox: Rect, vw: int, vh: int, rows: nat, cols: nat, rects: seq<Rect>)
    requires rects != []
    ensures GridSum(bbox, vw, vh, rows, cols, rects)
            == GridSum(bbox, vw, vh, rows, cols, rects[..|rects| - 1]) + GridInk(bbox, vw, vh, rows, cols, rects[|rects| - 1])
  {
    if rows > 0 {
      GridSumApart(bbox, vw, vh, rows - 1, cols, rects);
      RowSumApart(bbox, vw, vh, rows - 1, cols, rects);
    }
  }

  lemma {:induction false} NothingDrawn(bbox: Rect, vw: int, vh: int, rows: nat, cols: nat)
    ensures GridSum(bbox, vw, vh, rows, cols, []) == 0
  {
    if rows > 0 {
      NothingDrawn(bbox, vw, vh, rows - 1, cols);
      NothingInRow(bbox, vw, vh, rows - 1, cols);
    }
  }

  lemma {:induction false} NothingInRow(bbox: Rect, vw: int, vh: int, row: int, cols: nat)
    ensures RowSum(bbox, vw, vh, row, cols, []) == 0
  {
    if cols > 0 {
      NothingInRow(bbox, vw, vh, row, cols - 1);
    }
  }

  /** With everything drawn inside the bounding box, the tiles hold between them exactly the area drawn. */
  lemma {:induction false} InkIsConserved(bbox: Rect, vw: nat, vh: nat, rects: seq<Rect>)
    requires vw > 0 && vh > 0
    requires forall r :: r in rects ==> r.w >= 0 && r.h >= 0 && Within(r, bbox)
    ensures Sum(AllTiles(bbox, vw, vh, Count(bbox.h, vh), Count(bbox.w, vw), rects)) == Area(rects)
  {
    AllTilesSum(bbox, vw, vh, Count(bbox.h, vh), Count(bbox.w, vw), rects);
    GridHoldsAll(bbox, vw, vh, rects);
  }

  lemma {:induction false} GridHoldsAll(bbox: Rect, vw: nat, vh: nat, rects: seq<Rect>)
    requires vw > 0 && vh > 0
    requires forall r :: r in rects ==> r.w >= 0 && r.h >= 0 && Within(r, bbox)
    ensures GridSum(bbox, vw, vh, Count(bbox.h, vh), Count(bbox.w, vw), rects) == Area(rects)
  {
    hide Count, GridSum, GridInk, RowInk;
    var rows, cols := Count(bbox.h, vh), Count(bbox.w, vw);
    if rects == [] {
      NothingDrawn(bbox, vw, vh, rows, cols);
    } else {
      var r := rects[|rects| - 1];
      assert r in rects;
      GridSumApart(bbox, vw, vh, rows, cols, rects);
      GridHoldsAll(bbox, vw, vh, rects[..|rects| - 1]);
      TilesAddUp(bbox, vw, vh, rows, cols, r);
      CountCovers(bbox.w, vw);
      CountCovers(bbox.h, vh);
    }
  }
}
