/** Points, sizes and rectangles of the teams graph, and what "apart" means for them.
    Coordinates are exact reals: every `EPS` of the source reads as an exact comparison
    (EpsilonIsExact says why that loses nothing on whole-number inputs). */
module Geometry {

  datatype Point = Point(x: real, y: real)

  datatype Size = Size(w: real, h: real) {
    /** A container that is not drawn is reserved with no room at all. */
    predicate Empty() {
      w <= 0.0 && h <= 0.0
    }

    predicate Natural() {
      w >= 0.0 && h >= 0.0
    }
  }

  datatype Rect = Rect(x: real, y: real, w: real, h: real)

  /** What a packer answers: a position for each box, and the room they take together. */
  datatype Packing = Packing(at: seq<Point>, extent: Size)

  function Max(a: real, b: real): real {
    if a < b then b else a
  }

  function Min(a: real, b: real): real {
    if b < a then b else a
  }

  function Box(at: Point, size: Size): Rect {
    Rect(at.x, at.y, size.w, size.h)
  }

  function Shift(r: Rect, d: Point): Rect {
    Rect(r.x + d.x, r.y + d.y, r.w, r.h)
  }

  /** At least `gap` of clear space between `a` and `b`, in x or in y. */
  predicate Apart(a: Rect, b: Rect, gap: real) {
    || a.x + a.w + gap <= b.x
    || b.x + b.w + gap <= a.x
    || a.y + a.h + gap <= b.y
    || b.y + b.h + gap <= a.y
  }

  /** `inner` lies within `outer`. */
  predicate Inside(inner: Rect, outer: Rect) {
    && outer.x <= inner.x && inner.x + inner.w <= outer.x + outer.w
    && outer.y <= inner.y && inner.y + inner.h <= outer.y + outer.h
  }

  ghost predicate AllNatural(sizes: seq<Size>) {
    forall i :: 0 <= i < |sizes| ==> sizes[i].Natural()
  }

  /** No two of the boxes are closer than `gap`. */
  ghost predicate Separated(at: seq<Point>, sizes: seq<Size>, gap: real)
    requires |at| == |sizes|
  {
    forall i, j :: 0 <= i < j < |at| ==> Apart(Box(at[i], sizes[i]), Box(at[j], sizes[j]), gap)
  }

  /** The same, for the boxes that are drawn at all. */
  ghost predicate DrawnSeparated(at: seq<Point>, sizes: seq<Size>, gap: real)
    requires |at| == |sizes|
  {
    forall i, j :: 0 <= i < j < |at| && !sizes[i].Empty() && !sizes[j].Empty()
      ==> Apart(Box(at[i], sizes[i]), Box(at[j], sizes[j]), gap)
  }

  function Indices(sizes: seq<Size>): set<nat> {
    set i {:trigger sizes[i]} | 0 <= i < |sizes|
  }

  function Drawn(sizes: seq<Size>): set<nat> {
    set i | 0 <= i < |sizes| && !sizes[i].Empty()
  }

  /** `extent` is the least size that holds every box of `who`, measured from the origin. */
  ghost predicate ExactExtent(at: seq<Point>, sizes: seq<Size>, extent: Size, who: set<nat>)
    requires |at| == |sizes|
    requires who <= Indices(sizes)
  {
    && (forall i :: i in who ==>
          && 0.0 <= at[i].x && at[i].x + sizes[i].w <= extent.w
          && 0.0 <= at[i].y && at[i].y + sizes[i].h <= extent.h)
    && (extent.w == 0.0 || exists i :: i in who && extent.w == at[i].x + sizes[i].w)
    && (extent.h == 0.0 || exists i :: i in who && extent.h == at[i].y + sizes[i].h)
  }

  /** The boxes of `done` are within `extent`, which is no larger than it must be. */
  ghost predicate Spread(at: seq<Point>, sizes: seq<Size>, done: set<nat>, extent: Size)
    requires |at| == |sizes| && done <= Indices(sizes)
  {
    && extent.Natural()
    && (forall i :: i in done ==> at[i].x + sizes[i].w <= extent.w && at[i].y + sizes[i].h <= extent.h)
    && (extent.w == 0.0 || exists i :: i in done && extent.w == at[i].x + sizes[i].w)
    && (extent.h == 0.0 || exists i :: i in done && extent.h == at[i].y + sizes[i].h)
  }

  lemma SpreadStep(at: seq<Point>, sizes: seq<Size>, done: set<nat>, extent: Size, node: nat, p: Point)
    requires |at| == |sizes| && done <= Indices(sizes) && node < |at| && node !in done
    requires Spread(at, sizes, done, extent)
    ensures Spread(at[node := p], sizes, done + {node}, Size(Max(extent.w, p.x + sizes[node].w), Max(extent.h, p.y + sizes[node].h)))
  {
    var at' := at[node := p];
    var e := Size(Max(extent.w, p.x + sizes[node].w), Max(extent.h, p.y + sizes[node].h));
    assert at'[node] == p && node in done + {node};
    if e.w != 0.0 && e.w != p.x + sizes[node].w {
      var i :| i in done && extent.w == at[i].x + sizes[i].w;
      assert i in done + {node} && at'[i] == at[i];
    }
    if e.h != 0.0 && e.h != p.y + sizes[node].h {
      var i :| i in done && extent.h == at[i].y + sizes[i].h;
      assert i in done + {node} && at'[i] == at[i];
    }
  }

  lemma ApartSymmetric(a: Rect, b: Rect, gap: real)
    ensures Apart(a, b, gap) == Apart(b, a, gap)
  {
  }

  /** Rectangles held inside two others are at least as far apart as those are. */
  lemma InsideKeepsApart(a: Rect, b: Rect, a': Rect, b': Rect, gap: real, gap': real)
    requires Inside(a', a) && Inside(b', b) && gap' <= gap && Apart(a, b, gap)
    requires a'.w >= 0.0 && a'.h >= 0.0 && b'.w >= 0.0 && b'.h >= 0.0
    ensures Apart(a', b', gap')
  {
  }

  /** On whole numbers a tolerance of a hundredth never changes the outcome of a comparison. */
  lemma EpsilonIsExact(a: int, b: int)
    ensures (a as real <= b as real + 0.01) == (a <= b)
    ensures (a as real < b as real - 0.01) == (a < b)
    ensures ((a as real - b as real) < 0.01 && (b as real - a as real) < 0.01) == (a == b)
  {
    if a > b {
      assert a as real >= (b + 1) as real;
    }
    if a < b {
      assert (a + 1) as real <= b as real;
    }
  }
}
