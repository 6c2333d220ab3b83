/** The packer that keeps record order: each box beside the one before it, or at the left of a new shelf. */
module Shelf {
  import opened Geometry

  /** Box `j` is the next drawn box after box `i`. */
  ghost predicate Follows(sizes: seq<Size>, i: nat, j: nat) {
    && i < j < |sizes| && !sizes[i].Empty() && !sizes[j].Empty()
    && (forall k :: i < k < j ==> sizes[k].Empty())
  }

  /** The next box goes right beside the last one when that stays within `width`, else it opens a
      shelf at the left wall, a gap under the deepest box so far. */
  ghost predicate Shelved(at: seq<Point>, sizes: seq<Size>, width: real, gap: real, i: nat, j: nat)
    requires i < |at| <= |sizes| && j < |at|
  {
    var beside := at[i].x + sizes[i].w + gap;
    if beside + sizes[j].w <= width then
      at[j] == Point(beside, at[i].y)
    else
      at[j].x == 0.0 && DeepestPlus(at, sizes, gap, j, at[j].y)
  }

  /** `y` is a gap under the deepest of the drawn boxes before `j`. */
  ghost predicate DeepestPlus(at: seq<Point>, sizes: seq<Size>, gap: real, j: nat, y: real)
    requires j <= |at| <= |sizes|
  {
    && (forall k :: 0 <= k < j && !sizes[k].Empty() ==> at[k].y + sizes[k].h + gap <= y)
    && (exists k :: 0 <= k < j && !sizes[k].Empty() && at[k].y + sizes[k].h + gap == y)
  }

  /** The shelf once the boxes of `at` are on it: the next box goes to `(x, y)`, the row it joins is
      `rowH` deep so far, and `last` is the last drawn box. */
  datatype State = State(x: real, y: real, rowH: real, last: nat)

  function Wrapped(s: State, w: real, width: real, gap: real): State {
    if s.x > 0.0 && s.x + w > width then State(0.0, s.y + s.rowH + gap, 0.0, s.last) else s
  }

  /** Box `k` is on the row being filled, left of the next box, or a gap above that row. */
  ghost predicate Behind(at: seq<Point>, sizes: seq<Size>, gap: real, s: State, k: nat)
    requires k < |at| <= |sizes|
  {
    && at[k].x >= 0.0 && at[k].y >= 0.0
    && ((at[k].y == s.y && at[k].x + sizes[k].w + gap <= s.x && sizes[k].h <= s.rowH)
        || at[k].y + sizes[k].h + gap <= s.y)
  }

  /** Some drawn box ends at `y`. */
  ghost predicate BottomOfOne(at: seq<Point>, sizes: seq<Size>, y: real)
    requires |at| <= |sizes|
  {
    exists k :: 0 <= k < |at| && !sizes[k].Empty() && at[k].y + sizes[k].h == y
  }

  ghost predicate OnShelf(at: seq<Point>, sizes: seq<Size>, gap: real, s: State)
    requires |at| <= |sizes|
  {
    && s.x >= 0.0 && s.y >= 0.0 && s.rowH >= 0.0
    && (forall k :: 0 <= k < |at| && !sizes[k].Empty() ==> Behind(at, sizes, gap, s, k))
    && (s.x == 0.0 ==> s.y == 0.0 && s.rowH == 0.0 && forall k :: 0 <= k < |at| ==> sizes[k].Empty())
    && (s.x > 0.0 ==>
          && BottomOfOne(at, sizes, s.y + s.rowH)
          && s.last < |at| && !sizes[s.last].Empty() && (forall k :: s.last < k < |at| ==> sizes[k].Empty())
          && at[s.last].y == s.y && at[s.last].x + sizes[s.last].w + gap == s.x)
  }

  /** What is true of every drawn box on the shelf, for good. */
  ghost predicate ShelvedSoFar(at: seq<Point>, sizes: seq<Size>, width: real, gap: real)
    requires |at| <= |sizes|
  {
    && (forall i, j :: 0 <= i < j < |at| && !sizes[i].Empty() && !sizes[j].Empty()
          ==> Apart(Box(at[i], sizes[i]), Box(at[j], sizes[j]), gap))
    && (forall i, j :: 0 <= i < |at| && 0 <= j < |at| && Follows(sizes, i, j) ==> Shelved(at, sizes, width, gap, i, j))
    && (forall i :: 0 <= i < |at| && First(sizes, i) ==> at[i] == Point(0.0, 0.0))
  }

  /** Box `i` is the first that is drawn. */
  ghost predicate First(sizes: seq<Size>, i: nat) {
    i < |sizes| && !sizes[i].Empty() && forall k :: 0 <= k < i ==> sizes[k].Empty()
  }

  /** The first drawn box is in the corner, and every other where the one before it leaves it. */
  ghost predicate OnShelves(at: seq<Point>, sizes: seq<Size>, width: real, gap: real) {
    && |at| == |sizes|
    && (forall i :: 0 <= i < |at| && First(sizes, i) ==> at[i] == Point(0.0, 0.0))
    && (forall i, j :: 0 <= i < |at| && 0 <= j < |at| && Follows(sizes, i, j) ==> Shelved(at, sizes, width, gap, i, j))
  }

  ghost predicate Extent(at: seq<Point>, sizes: seq<Size>, e: Size)
    requires |at| <= |sizes|
  {
    && e.Natural()
    && (forall i :: 0 <= i < |at| && !sizes[i].Empty() ==> at[i].x + sizes[i].w <= e.w && at[i].y + sizes[i].h <= e.h)
    && (e.w == 0.0 || exists i :: 0 <= i < |at| && !sizes[i].Empty() && e.w == at[i].x + sizes[i].w)
    && (e.h == 0.0 || exists i :: 0 <= i < |at| && !sizes[i].Empty() && e.h == at[i].y + sizes[i].h)
  }

  /** Earlier boxes read the same on a longer shelf. */
  lemma Extended(at: seq<Point>, at': seq<Point>, sizes: seq<Size>, width: real, gap: real)
    requires |at'| == |at| + 1 <= |sizes| && at'[..|at|] == at
    requires ShelvedSoFar(at, sizes, width, gap)
    ensures forall i :: 0 <= i < |at| ==> at'[i] == at[i]
    ensures forall i, j :: 0 <= i < |at| && 0 <= j < |at| && Follows(sizes, i, j) ==> Shelved(at', sizes, width, gap, i, j)
  {
    assert forall i :: 0 <= i < |at| ==> at'[i] == at'[..|at|][i];
    forall i, j | 0 <= i < |at| && 0 <= j < |at| && Follows(sizes, i, j)
      ensures Shelved(at', sizes, width, gap, i, j)
    {
      assert Shelved(at, sizes, width, gap, i, j);
    }
  }

  lemma BottomKept(at: seq<Point>, sizes: seq<Size>, p: Point, y: real)
    requires |at| < |sizes|
    ensures BottomOfOne(at, sizes, y) ==> BottomOfOne(at + [p], sizes, y)
  {
    if BottomOfOne(at, sizes, y) {
      var k :| 0 <= k < |at| && !sizes[k].Empty() && at[k].y + sizes[k].h == y;
      assert (at + [p])[k] == at[k];
    }
  }

  lemma SkipKept(at: seq<Point>, sizes: seq<Size>, width: real, gap: real, s: State, p: Point)
    requires |at| < |sizes| && sizes[|at|].Empty()
    requires OnShelf(at, sizes, gap, s) && ShelvedSoFar(at, sizes, width, gap)
    ensures OnShelf(at + [p], sizes, gap, s) && ShelvedSoFar(at + [p], sizes, width, gap)
  {
    hide Behind, BottomOfOne, Apart, Shelved, ShelvedSoFar, Follows, First;
    BottomKept(at, sizes, p, s.y + s.rowH);
    SkipShelved(at, sizes, width, gap, p);
    forall k | 0 <= k < |at| && !sizes[k].Empty()
      ensures Behind(at + [p], sizes, gap, s, k)
    {
      BehindKept(at, sizes, gap, s, p, k);
    }
  }

  lemma SkipShelved(at: seq<Point>, sizes: seq<Size>, width: real, gap: real, p: Point)
    requires |at| < |sizes| && sizes[|at|].Empty() && ShelvedSoFar(at, sizes, width, gap)
    ensures ShelvedSoFar(at + [p], sizes, width, gap)
  {
    hide Apart, Shelved;
    Extended(at, at + [p], sizes, width, gap);
  }

  lemma BehindKept(at: seq<Point>, sizes: seq<Size>, gap: real, s: State, p: Point, k: nat)
    requires k < |at| < |sizes| && Behind(at, sizes, gap, s, k)
    ensures Behind(at + [p], sizes, gap, s, k)
  {
  }

  lemma WrapKept(at: seq<Point>, sizes: seq<Size>, width: real, gap: real, s: State, w: real, k: nat)
    requires |at| <= |sizes| && AllNatural(sizes) && gap > 0.0 && w >= 0.0
    requires OnShelf(at, sizes, gap, s) && k < |at| && !sizes[k].Empty()
    ensures Behind(at, sizes, gap, Wrapped(s, w, width, gap), k)
  {
    assert Behind(at, sizes, gap, s, k);
  }

  lemma PlaceOnShelf(at: seq<Point>, sizes: seq<Size>, width: real, gap: real, s: State, turned: State, next: State)
    requires |at| < |sizes| && AllNatural(sizes) && gap > 0.0 && !sizes[|at|].Empty()
    requires OnShelf(at, sizes, gap, s)
    requires turned == Wrapped(s, sizes[|at|].w, width, gap)
    requires next == State(turned.x + sizes[|at|].w + gap, turned.y, Max(turned.rowH, sizes[|at|].h), |at|)
    ensures OnShelf(at + [Point(turned.x, turned.y)], sizes, gap, next)
  {
    var n := |at|;
    var at' := at + [Point(turned.x, turned.y)];
    forall k | 0 <= k <= n && !sizes[k].Empty()
      ensures Behind(at', sizes, gap, next, k)
    {
      if k < n {
        WrapKept(at, sizes, width, gap, s, sizes[n].w, k);
        assert at'[k] == at[k];
      }
    }
    assert at'[n] == Point(turned.x, turned.y);
    BottomKept(at, sizes, at'[n], s.y + s.rowH);
  }

  lemma PlaceFollows(at: seq<Point>, sizes: seq<Size>, width: real, gap: real, s: State, i: nat)
    requires |at| < |sizes| && AllNatural(sizes) && gap > 0.0 && Follows(sizes, i, |at|)
    requires OnShelf(at, sizes, gap, s)
    ensures var row := Wrapped(s, sizes[|at|].w, width, gap);
            Shelved(at + [Point(row.x, row.y)], sizes, width, gap, i, |at|)
  {
    var n := |at|;
    var row := Wrapped(s, sizes[n].w, width, gap);
    var at' := at + [Point(row.x, row.y)];
    assert i == s.last;
    if s.x + sizes[n].w > width {
      var k :| 0 <= k < |at| && !sizes[k].Empty() && at[k].y + sizes[k].h == s.y + s.rowH;
      assert at'[k].y + sizes[k].h + gap == row.y;
      forall k | 0 <= k < n && !sizes[k].Empty()
        ensures at'[k].y + sizes[k].h + gap <= row.y
      {
        assert Behind(at, sizes, gap, s, k);
      }
    }
  }

  lemma BehindIsApart(at: seq<Point>, sizes: seq<Size>, gap: real, row: State, k: nat)
    requires |at| < |sizes| && k < |at| && Behind(at, sizes, gap, row, k)
    ensures Apart(Box(at[k], sizes[k]), Box(Point(row.x, row.y), sizes[|at|]), gap)
  {
  }

  lemma PlaceKept(at: seq<Point>, sizes: seq<Size>, width: real, gap: real, s: State, row: State)
    requires |at| < |sizes| && AllNatural(sizes) && gap > 0.0 && !sizes[|at|].Empty()
    requires OnShelf(at, sizes, gap, s) && ShelvedSoFar(at, sizes, width, gap)
    requires row == Wrapped(s, sizes[|at|].w, width, gap)
    ensures ShelvedSoFar(at + [Point(row.x, row.y)], sizes, width, gap)
  {
    hide Behind, BottomOfOne, Shelved, OnShelf, Wrapped, Apart, ShelvedSoFar, Follows, First;
    var n := |at|;
    var at' := at + [Point(row.x, row.y)];
    Extended(at, at', sizes, width, gap);
    forall k | 0 <= k < n && !sizes[k].Empty()
      ensures Apart(Box(at'[k], sizes[k]), Box(at'[n], sizes[n]), gap)
    {
      WrapKept(at, sizes, width, gap, s, sizes[n].w, k);
      BehindIsApart(at, sizes, gap, row, k);
    }
    forall i | 0 <= i < n && Follows(sizes, i, n)
      ensures Shelved(at', sizes, width, gap, i, n)
    {
      PlaceFollows(at, sizes, width, gap, s, i);
    }
    if First(sizes, n) {
      PlaceFirst(at, sizes, width, gap, s);
    }
    OneMore(at, at', sizes, width, gap);
  }

  lemma OneMore(at: seq<Point>, at': seq<Point>, sizes: seq<Size>, width: real, gap: real)
    requires |at'| == |at| + 1 <= |sizes| && at'[..|at|] == at && ShelvedSoFar(at, sizes, width, gap)
    requires forall k :: 0 <= k < |at| && !sizes[k].Empty() ==> Apart(Box(at'[k], sizes[k]), Box(at'[|at|], sizes[|at|]), gap)
    requires forall i :: 0 <= i < |at| && Follows(sizes, i, |at|) ==> Shelved(at', sizes, width, gap, i, |at|)
    requires First(sizes, |at|) ==> at'[|at|] == Point(0.0, 0.0)
    ensures ShelvedSoFar(at', sizes, width, gap)
  {
    hide Apart, Shelved, First;
    Extended(at, at', sizes, width, gap);
  }

  lemma PlaceFirst(at: seq<Point>, sizes: seq<Size>, width: real, gap: real, s: State)
    requires |at| < |sizes| && First(sizes, |at|) && OnShelf(at, sizes, gap, s)
    ensures Wrapped(s, sizes[|at|].w, width, gap) == State(0.0, 0.0, 0.0, s.last)
  {
  }

  lemma ExtentKept(at: seq<Point>, sizes: seq<Size>, e: Size, p: Point)
    requires |at| < |sizes| && Extent(at, sizes, e)
    requires p.x >= 0.0 && p.y >= 0.0 && AllNatural(sizes)
    ensures sizes[|at|].Empty() ==> Extent(at + [p], sizes, e)
    ensures Extent(at + [p], sizes, Size(Max(e.w, p.x + sizes[|at|].w), Max(e.h, p.y + sizes[|at|].h))) || sizes[|at|].Empty()
  {
    var at' := at + [p];
    assert forall i :: 0 <= i < |at| ==> at'[i] == at[i];
    assert at'[|at|] == p;
  }

  method PackShelf(sizes: seq<Size>, width: real, gap: real) returns (at: seq<Point>, extent: Size)
    requires gap > 0.0 && AllNatural(sizes)
    ensures |at| == |sizes|
    ensures DrawnSeparated(at, sizes, gap)
    ensures ExactExtent(at, sizes, extent, Drawn(sizes))
    ensures OnShelves(at, sizes, width, gap)
  {
    at := [];
    var s := State(0.0, 0.0, 0.0, 0);
    extent := Size(0.0, 0.0);
    for n := 0 to |sizes|
      invariant |at| == n
      invariant OnShelf(at, sizes, gap, s)
      invariant ShelvedSoFar(at, sizes, width, gap)
      invariant Extent(at, sizes, extent)
    {
      var size := sizes[n];
      if size.Empty() {
        SkipKept(at, sizes, width, gap, s, Point(s.x, s.y));
        ExtentKept(at, sizes, extent, Point(s.x, s.y));
        at := at + [Point(s.x, s.y)];
        continue;
      }
      at, s, extent := PlaceNext(at, s, extent, sizes, width, gap);
    }
    forall k | 0 <= k < |at| && !sizes[k].Empty()
      ensures at[k].x >= 0.0 && at[k].y >= 0.0
    {
      assert Behind(at, sizes, gap, s, k);
    }
    ShelvedAll(at, sizes, width, gap, extent);
  }

  lemma ShelvedAll(at: seq<Point>, sizes: seq<Size>, width: real, gap: real, extent: Size)
    requires |at| == |sizes| && ShelvedSoFar(at, sizes, width, gap) && Extent(at, sizes, extent)
    requires forall k :: 0 <= k < |at| && !sizes[k].Empty() ==> at[k].x >= 0.0 && at[k].y >= 0.0
    ensures DrawnSeparated(at, sizes, gap) && ExactExtent(at, sizes, extent, Drawn(sizes)) && OnShelves(at, sizes, width, gap)
  {
  }

  lemma {:induction false} FirstOrFollows(sizes: seq<Size>, i: nat, n: nat)
    requires i < |sizes| && n <= i && !sizes[i].Empty() && forall k :: n <= k < i ==> sizes[k].Empty()
    ensures First(sizes, i) || exists k: nat :: k < i && Follows(sizes, k, i)
  {
    if n > 0 {
      if sizes[n - 1].Empty() {
        FirstOrFollows(sizes, i, n - 1);
      } else {
        assert Follows(sizes, n - 1, i);
      }
    }
  }

  /** No box reaches past the width, but for one that is wider and so at the left wall. */
  lemma ShelvesStayWithin(at: seq<Point>, sizes: seq<Size>, width: real, gap: real, i: nat)
    requires OnShelves(at, sizes, width, gap) && i < |at| && !sizes[i].Empty()
    ensures at[i].x == 0.0 || at[i].x + sizes[i].w <= width
  {
    FirstOrFollows(sizes, i, i);
    if !First(sizes, i) {
      var k: nat :| k < i && Follows(sizes, k, i);
      assert Shelved(at, sizes, width, gap, k, i);
    }
  }

  /** One drawn box onto the shelf. */
  method PlaceNext(at: seq<Point>, s: State, extent: Size, sizes: seq<Size>, width: real, gap: real)
    returns (at': seq<Point>, s': State, extent': Size)
    requires gap > 0.0 && AllNatural(sizes) && |at| < |sizes| && !sizes[|at|].Empty()
    requires OnShelf(at, sizes, gap, s) && ShelvedSoFar(at, sizes, width, gap) && Extent(at, sizes, extent)
    ensures |at'| == |at| + 1
    ensures OnShelf(at', sizes, gap, s') && ShelvedSoFar(at', sizes, width, gap) && Extent(at', sizes, extent')
  {
    hide Shelved, First, Follows, Apart;
    var w, h := sizes[|at|].w, sizes[|at|].h;
    var row := Wrapped(s, w, width, gap);
    at' := at + [Point(row.x, row.y)];
    s' := State(row.x + w + gap, row.y, Max(row.rowH, h), |at|);
    extent' := Size(Max(extent.w, s'.x - gap), Max(extent.h, s'.y + s'.rowH));
    PlaceOnShelf(at, sizes, width, gap, s, row, s');
    PlaceKept(at, sizes, width, gap, s, row);
    ExtentKept(at, sizes, extent, Point(row.x, row.y));
    assert row.rowH == 0.0 || row.y + row.rowH <= extent.h;
  }
}
