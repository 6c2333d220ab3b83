/** Each connected group of boxes is packed as an island, and the islands are packed further apart. */
module Islands {
  import opened Constants
  import opened Geometry
  import Families
  import opened Skyline
  import opened Sorting

  function Pick<T>(all: seq<T>, group: seq<nat>): (r: seq<T>)
    requires forall k :: 0 <= k < |group| ==> group[k] < |all|
    ensures |r| == |group| && forall k :: 0 <= k < |r| ==> r[k] == all[group[k]]
  {
    seq(|group|, k requires 0 <= k < |group| => all[group[k]])
  }

  function Moved(p: Point, d: Point): Point {
    Point(p.x + d.x, p.y + d.y)
  }

  lemma ShiftKeepsApart(a: Rect, b: Rect, d: Point, gap: real)
    ensures Apart(Shift(a, d), Shift(b, d), gap) == Apart(a, b, gap)
  {
  }

  /** Island `k` is packed: its boxes lie a task gap apart within its shape. */
  ghost predicate Island(sizes: seq<Size>, group: seq<nat>, at: seq<Point>, shape: Size) {
    && |at| == |group| && shape.Natural()
    && (forall a :: 0 <= a < |group| ==> group[a] < |sizes|)
    && Separated(at, Pick(sizes, group), TASK_GAP)
    && (forall a :: 0 <= a < |group| ==> Inside(Box(at[a], sizes[group[a]]), Rect(0.0, 0.0, shape.w, shape.h)))
  }

  /** Every box of the islands stands where its island was put, offset within it. */
  ghost predicate Settled(groups: seq<seq<nat>>, ats: seq<seq<Point>>, outer: seq<Point>, spots: seq<Point>, upTo: nat)
    requires upTo <= |groups| == |ats| == |outer|
  {
    forall k, a :: 0 <= k < upTo && 0 <= a < |groups[k]| && a < |ats[k]| && groups[k][a] < |spots| ==>
      spots[groups[k][a]] == Moved(ats[k][a], outer[k])
  }

  ghost predicate Islands(sizes: seq<Size>, groups: seq<seq<nat>>, ats: seq<seq<Point>>, shapes: seq<Size>, outer: seq<Point>) {
    && |groups| == |ats| == |shapes| == |outer|
    && (forall k :: 0 <= k < |groups| ==> Island(sizes, groups[k], ats[k], shapes[k]))
    && Separated(outer, shapes, ISLAND_GAP)
    && (forall k :: 0 <= k < |outer| ==> outer[k].x >= 0.0 && outer[k].y >= 0.0)
  }

  /** Boxes of one island are a task gap apart, boxes of different ones an island gap. */
  lemma IslandsApart(sizes: seq<Size>, groups: seq<seq<nat>>, ats: seq<seq<Point>>, shapes: seq<Size>, outer: seq<Point>,
                     spots: seq<Point>, k: nat, a: nat, l: nat, b: nat)
    requires Islands(sizes, groups, ats, shapes, outer) && AllNatural(sizes)
    requires Settled(groups, ats, outer, spots, |groups|) && |spots| == |sizes|
    requires k < |groups| && a < |groups[k]| && l < |groups| && b < |groups[l]|
    requires k != l || a != b
    ensures groups[k][a] < |spots| && groups[l][b] < |spots|
    ensures Apart(Box(spots[groups[k][a]], sizes[groups[k][a]]), Box(spots[groups[l][b]], sizes[groups[l][b]]),
                  if k == l then TASK_GAP else ISLAND_GAP)
  {
    assert Island(sizes, groups[k], ats[k], shapes[k]) && Island(sizes, groups[l], ats[l], shapes[l]);
    var i, j := groups[k][a], groups[l][b];
    if k == l {
      var p, q := Box(ats[k][a], sizes[i]), Box(ats[k][b], sizes[j]);
      assert Apart(p, q, TASK_GAP) by {
        assert Pick(sizes, groups[k])[a] == sizes[i] && Pick(sizes, groups[k])[b] == sizes[j];
        ApartSymmetric(p, q, TASK_GAP);
      }
      ShiftKeepsApart(p, q, outer[k], TASK_GAP);
    } else {
      var p, q := Box(outer[k], shapes[k]), Box(outer[l], shapes[l]);
      ApartSymmetric(p, q, ISLAND_GAP);
      assert Inside(Box(ats[k][a], sizes[i]), Rect(0.0, 0.0, shapes[k].w, shapes[k].h));
      assert Inside(Box(ats[l][b], sizes[j]), Rect(0.0, 0.0, shapes[l].w, shapes[l].h));
      InsideKeepsApart(p, q, Box(spots[i], sizes[i]), Box(spots[j], sizes[j]), ISLAND_GAP, ISLAND_GAP);
    }
  }

  /** The packing of one island. */
  method PackIsland(sizes: seq<Size>, group: seq<nat>, side: real, score: Size -> real) returns (at: seq<Point>, shape: Size)
    requires AllNatural(sizes) && forall k :: 0 <= k < |group| ==> group[k] < |sizes|
    ensures Island(sizes, group, at, shape)
    ensures BestOfFour(Packing(at, shape), Pick(sizes, group), TASK_GAP, side, true, score)
  {
    hide BestOfFour;
    var dense := Pick(sizes, group);
    var best := PackBest(dense, TASK_GAP, side, true, score);
    at, shape := best.at, best.extent;
    forall a | 0 <= a < |group|
      ensures Inside(Box(at[a], sizes[group[a]]), Rect(0.0, 0.0, shape.w, shape.h))
    {
      assert a in Indices(dense) && dense[a] == sizes[group[a]];
    }
    ExtentNatural(at, dense, shape, Indices(dense));
  }

  lemma ExtentNatural(at: seq<Point>, sizes: seq<Size>, extent: Size, who: set<nat>)
    requires |at| == |sizes| && who <= Indices(sizes) && AllNatural(sizes) && ExactExtent(at, sizes, extent, who)
    ensures extent.Natural()
  {
  }

  function Area(sizes: seq<Size>): real {
    if sizes == [] then 0.0 else Area(sizes[..|sizes| - 1]) + sizes[|sizes| - 1].w * sizes[|sizes| - 1].h
  }

  lemma {:induction false} AreaAdds(a: seq<Size>, b: seq<Size>)
    ensures Area(a + b) == Area(a) + Area(b)
    ensures forall s :: Area([s]) == s.w * s.h
  {
    if b == [] {
      assert a + b == a;
    } else {
      var n := |b| - 1;
      AreaAdds(a, b[..n]);
      assert (a + b)[..|a + b| - 1] == a + b[..n];
    }
  }

  /** `edge` is the exact extent of the boxes of `done`. */
  ghost predicate Edge(spots: seq<Point>, sizes: seq<Size>, edge: Size, done: set<nat>) {
    && |spots| == |sizes| && done <= Indices(sizes) && Spread(spots, sizes, done, edge)
    && (forall i :: i in done ==> spots[i].x >= 0.0 && spots[i].y >= 0.0)
  }

  lemma EdgeLengths(spots: seq<Point>, sizes: seq<Size>, edge: Size, done: set<nat>)
    requires Edge(spots, sizes, edge, done)
    ensures |spots| == |sizes|
  {
  }

  lemma EdgeStep(spots: seq<Point>, sizes: seq<Size>, edge: Size, done: set<nat>, ix: nat, p: Point)
    requires Edge(spots, sizes, edge, done) && ix < |sizes| && ix !in done && p.x >= 0.0 && p.y >= 0.0
    ensures Edge(spots[ix := p], sizes, Size(Max(edge.w, p.x + sizes[ix].w), Max(edge.h, p.y + sizes[ix].h)), done + {ix})
  {
    hide Spread, Max;
    SpreadStep(spots, sizes, done, edge, ix, p);
  }

  lemma IslandLengths(sizes: seq<Size>, group: seq<nat>, at: seq<Point>, shape: Size)
    requires Island(sizes, group, at, shape)
    ensures |at| == |group| && forall a :: 0 <= a < |group| ==> group[a] < |sizes|
  {
  }

  lemma NotYet(group: seq<nat>, a: nat)
    requires Distinct(group) && a < |group|
    ensures group[a] !in group[..a]
    ensures forall b :: 0 <= b < a ==> group[b] != group[a]
  {
  }

  /** A box of the island lies within its shape, which is right of and below the origin. */
  lemma IslandSpot(sizes: seq<Size>, group: seq<nat>, at: seq<Point>, shape: Size, offset: Point, a: nat)
    requires Island(sizes, group, at, shape) && a < |group| && offset.x >= 0.0 && offset.y >= 0.0
    ensures |at| == |group| && group[a] < |sizes| && Moved(at[a], offset).x >= 0.0 && Moved(at[a], offset).y >= 0.0
  {
    assert Inside(Box(at[a], sizes[group[a]]), Rect(0.0, 0.0, shape.w, shape.h));
  }

  /** Sets the boxes of one island down where the island goes. */
  method SetDown(sizes: seq<Size>, group: seq<nat>, at: seq<Point>, shape: Size, offset: Point, spots: seq<Point>, edge: Size, ghost done: set<nat>)
    returns (spots': seq<Point>, edge': Size, ghost done': set<nat>)
    requires Island(sizes, group, at, shape) && offset.x >= 0.0 && offset.y >= 0.0
    requires Edge(spots, sizes, edge, done)
    requires forall a :: 0 <= a < |group| ==> group[a] !in done
    requires Distinct(group)
    ensures Edge(spots', sizes, edge', done')
    ensures forall i :: i in done' <==> i in done || i in group
    ensures forall a :: 0 <= a < |group| ==> spots'[group[a]] == Moved(at[a], offset)
    ensures forall i :: 0 <= i < |spots'| && i !in group ==> spots'[i] == spots[i]
  {
    hide Edge, Island, Distinct;
    EdgeLengths(spots, sizes, edge, done);
    IslandLengths(sizes, group, at, shape);
    spots', edge', done' := spots, edge, done;
    assert group[..0] == [];
    for a := 0 to |group|
      invariant |spots'| == |sizes| == |spots| && Edge(spots', sizes, edge', done')
      invariant forall i :: i in done' <==> i in done || i in group[..a]
      invariant forall b :: 0 <= b < a ==> spots'[group[b]] == Moved(at[b], offset)
      invariant forall i :: 0 <= i < |spots'| && i !in group ==> spots'[i] == spots[i]
    {
      var ix := group[a];
      assert group[..a + 1] == group[..a] + [ix];
      NotYet(group, a);
      var spot := Moved(at[a], offset);
      IslandSpot(sizes, group, at, shape, offset, a);
      EdgeStep(spots', sizes, edge', done', ix, spot);
      spots' := spots'[ix := spot];
      edge' := Size(Max(edge'.w, spot.x + sizes[ix].w), Max(edge'.h, spot.y + sizes[ix].h));
      done' := done' + {ix};
    }
    assert group[..|group|] == group;
  }

  /** How far apart two boxes must be: an island gap, unless one family holds both. */
  ghost function GapBetween(parents: Families.Edges, count: nat, i: nat, j: nat): real {
    if Families.Linked(parents, count, i, j) then TASK_GAP else ISLAND_GAP
  }

  /** The side of a square that suits boxes with this much area. */
  function Side(sqrt: real -> real, content: real, target: real): real {
    sqrt(content * target)
  }

  /** A rectangle that wide, and as wide for its height as is wanted, has just that area. */
  lemma SideHolds(sqrt: real -> real, content: real, target: real)
    requires content >= 0.0 && target > 0.0 && forall x :: x >= 0.0 ==> sqrt(x) * sqrt(x) == x
    ensures Side(sqrt, content, target) * (Side(sqrt, content, target) / target) == content
  {
    var side := Side(sqrt, content, target);
    assert content * target >= 0.0;
    assert side * side == content * target;
    assert side * (side / target) == side * side / target;
  }

  /** How a packing of boxes with this much area scores. */
  function Mark(score: (Size, real, real) -> real, content: real, target: real): Size -> real {
    (e: Size) => score(e, content, target)
  }

  lemma MarkIsScore(score: (Size, real, real) -> real, content: real, target: real, extent: Size)
    ensures Mark(score, content, target)(extent) == score(extent, content, target)
  {
  }

  /** What has best been tried for these boxes, on a container that suits their area. */
  ghost predicate BestFor(at: seq<Point>, extent: Size, sizes: seq<Size>, gap: real, target: real, sqrt: real -> real, score: (Size, real, real) -> real) {
    BestOfFour(Packing(at, extent), sizes, gap, Side(sqrt, Area(sizes), target), true, Mark(score, Area(sizes), target))
  }

  /** Each island and the islands together are the best of what has been tried for them. */
  ghost predicate BestIslands(sizes: seq<Size>, groups: seq<seq<nat>>, ats: seq<seq<Point>>, shapes: seq<Size>, outer: seq<Point>,
                              target: real, sqrt: real -> real, score: (Size, real, real) -> real) {
    && |groups| == |ats| == |shapes|
    && (forall k, a :: 0 <= k < |groups| && 0 <= a < |groups[k]| ==> groups[k][a] < |sizes|)
    && (forall k :: 0 <= k < |groups| ==> BestFor(ats[k], shapes[k], Pick(sizes, groups[k]), TASK_GAP, target, sqrt, score))
    && (exists edge: Size :: BestFor(outer, edge, shapes, ISLAND_GAP, target, sqrt, score))
  }

  /** Packs every island, and the islands. */
  method PackEach(sizes: seq<Size>, groups: seq<seq<nat>>, target: real, sqrt: real -> real, score: (Size, real, real) -> real)
    returns (ats: seq<seq<Point>>, shapes: seq<Size>, outer: seq<Point>)
    requires AllNatural(sizes)
    requires forall k, i :: 0 <= k < |groups| && i in groups[k] ==> i < |sizes|
    ensures Islands(sizes, groups, ats, shapes, outer)
    ensures BestIslands(sizes, groups, ats, shapes, outer, target, sqrt, score)
  {
    hide BestOfFour, Island, GoodPacking, Area, Mark;
    forall k, a | 0 <= k < |groups| && 0 <= a < |groups[k]|
      ensures groups[k][a] < |sizes|
    {
      assert groups[k][a] in groups[k];
    }
    ats, shapes := [], [];
    for k := 0 to |groups|
      invariant |ats| == |shapes| == k
      invariant forall j :: 0 <= j < k ==> Island(sizes, groups[j], ats[j], shapes[j])
      invariant forall j :: 0 <= j < k ==> BestFor(ats[j], shapes[j], Pick(sizes, groups[j]), TASK_GAP, target, sqrt, score)
    {
      var content := Area(Pick(sizes, groups[k]));
      var at, shape := PackIsland(sizes, groups[k], Side(sqrt, content, target), Mark(score, content, target));
      ats, shapes := ats + [at], shapes + [shape];
    }
    ShapesNatural(sizes, groups, ats, shapes);
    var content := Area(shapes);
    var best := PackBest(shapes, ISLAND_GAP, Side(sqrt, content, target), true, Mark(score, content, target));
    outer := best.at;
    OuterIsGood(best, shapes);
    assert BestFor(outer, best.extent, shapes, ISLAND_GAP, target, sqrt, score);
  }

  lemma ShapesNatural(sizes: seq<Size>, groups: seq<seq<nat>>, ats: seq<seq<Point>>, shapes: seq<Size>)
    requires |groups| == |ats| == |shapes| && forall j :: 0 <= j < |groups| ==> Island(sizes, groups[j], ats[j], shapes[j])
    ensures AllNatural(shapes)
  {
  }

  lemma OuterIsGood(best: Packing, shapes: seq<Size>)
    requires GoodPacking(best, shapes, ISLAND_GAP)
    ensures |best.at| == |shapes| && Separated(best.at, shapes, ISLAND_GAP)
    ensures forall k :: 0 <= k < |best.at| ==> best.at[k].x >= 0.0 && best.at[k].y >= 0.0
  {
    assert forall k :: 0 <= k < |best.at| ==> k in Indices(shapes);
  }

  ghost predicate AreFamilies(groups: seq<seq<nat>>, sizes: seq<Size>, parents: Families.Edges) {
    forall k, i, j :: 0 <= k < |groups| && i in groups[k] && 0 <= j < |sizes| ==>
      (j in groups[k] <==> Families.Linked(parents, |sizes|, i, j))
  }

  /** Every box stands where its family was packed, and the families as they were packed together. */
  ghost predicate IslandWise(spots: seq<Point>, sizes: seq<Size>, parents: Families.Edges, target: real, sqrt: real -> real, score: (Size, real, real) -> real) {
    exists groups: seq<seq<nat>>, ats: seq<seq<Point>>, shapes: seq<Size>, outer: seq<Point> ::
      && |groups| == |ats| == |outer| && Settled(groups, ats, outer, spots, |groups|)
      && Families.Partition(groups, |sizes|) && Families.FirstMembersRise(groups) && AreFamilies(groups, sizes, parents)
      && BestIslands(sizes, groups, ats, shapes, outer, target, sqrt, score)
  }

  /** Boxes of one family end up a task gap apart, boxes of different families an island gap. */
  method PackIslands(sizes: seq<Size>, parents: Families.Edges, target: real, sqrt: real -> real, score: (Size, real, real) -> real)
    returns (spots: seq<Point>, edge: Size)
    requires AllNatural(sizes) && |parents| == |sizes|
    ensures IslandWise(spots, sizes, parents, target, sqrt, score)
    ensures |spots| == |sizes|
    ensures forall i, j :: 0 <= i < j < |spots| ==>
      Apart(Box(spots[i], sizes[i]), Box(spots[j], sizes[j]), GapBetween(parents, |sizes|, i, j))
    ensures ExactExtent(spots, sizes, edge, Indices(sizes))
  {
    hide BestIslands, Islands, Families.Partition, Families.FirstMembersRise, Families.Linked, Edge, Settled, IslandWise, Apart;
    var groups := Families.FamiliesOf(|sizes|, parents);
    InGroups(groups, |sizes|);
    var ats, shapes, outer := PackEach(sizes, groups, target, sqrt, score);
    IslandsLengths(sizes, groups, ats, shapes, outer);
    ghost var done;
    spots, edge, done := SetAllDown(sizes, groups, ats, shapes, outer);
    EdgeLengths(spots, sizes, edge, done);
    AllDown(sizes, parents, groups, ats, shapes, outer, spots, edge, done);
    DownAsPacked(spots, sizes, parents, target, sqrt, score, groups, ats, shapes, outer);
  }

  lemma InGroups(groups: seq<seq<nat>>, count: nat)
    requires Families.Partition(groups, count)
    ensures forall k, i :: 0 <= k < |groups| && i in groups[k] ==> i < count
  {
  }

  lemma IslandsLengths(sizes: seq<Size>, groups: seq<seq<nat>>, ats: seq<seq<Point>>, shapes: seq<Size>, outer: seq<Point>)
    requires Islands(sizes, groups, ats, shapes, outer)
    ensures |groups| == |ats| == |shapes| == |outer|
  {
  }

  lemma DownAsPacked(spots: seq<Point>, sizes: seq<Size>, parents: Families.Edges, target: real, sqrt: real -> real, score: (Size, real, real) -> real,
                     groups: seq<seq<nat>>, ats: seq<seq<Point>>, shapes: seq<Size>, outer: seq<Point>)
    requires |groups| == |ats| == |outer| && Settled(groups, ats, outer, spots, |groups|)
    requires Families.Partition(groups, |sizes|) && Families.FirstMembersRise(groups) && AreFamilies(groups, sizes, parents)
    requires BestIslands(sizes, groups, ats, shapes, outer, target, sqrt, score)
    ensures IslandWise(spots, sizes, parents, target, sqrt, score)
  {
    hide BestIslands, Families.Partition, Families.FirstMembersRise, AreFamilies, Settled;
  }

  /** Sets the boxes of every island down. */
  method SetAllDown(sizes: seq<Size>, groups: seq<seq<nat>>, ats: seq<seq<Point>>, shapes: seq<Size>, outer: seq<Point>)
    returns (spots: seq<Point>, edge: Size, ghost done: set<nat>)
    requires Islands(sizes, groups, ats, shapes, outer) && Families.Partition(groups, |sizes|)
    ensures Edge(spots, sizes, edge, done) && Settled(groups, ats, outer, spots, |groups|)
    ensures forall i :: i in done <==> exists j :: 0 <= j < |groups| && i in groups[j]
  {
    hide Edge, Settled, Island, Separated;
    spots := seq(|sizes|, _ => Point(0.0, 0.0));
    edge := Size(0.0, 0.0);
    done := {};
    NothingDown(sizes, groups, ats, outer, spots);
    for k := 0 to |groups|
      invariant Edge(spots, sizes, edge, done)
      invariant forall i :: i in done <==> exists j :: 0 <= j < k && i in groups[j]
      invariant Settled(groups, ats, outer, spots, k)
    {
      ghost var before := spots;
      EdgeLengths(spots, sizes, edge, done);
      GroupIsNew(groups, |sizes|, k, done);
      IslandLengths(sizes, groups[k], ats[k], shapes[k]);
      spots, edge, done := SetDown(sizes, groups[k], ats[k], shapes[k], outer[k], spots, edge, done);
      EdgeLengths(spots, sizes, edge, done);
      SettledStep(groups, ats, outer, before, spots, k);
    }
  }

  lemma NothingDown(sizes: seq<Size>, groups: seq<seq<nat>>, ats: seq<seq<Point>>, outer: seq<Point>, spots: seq<Point>)
    requires |groups| == |ats| == |outer| && |spots| == |sizes|
    ensures Edge(spots, sizes, Size(0.0, 0.0), {}) && Settled(groups, ats, outer, spots, 0)
  {
  }

  lemma GroupIsNew(groups: seq<seq<nat>>, count: nat, k: nat, done: set<nat>)
    requires Families.Partition(groups, count) && k < |groups|
    requires forall i :: i in done <==> exists j :: 0 <= j < k && i in groups[j]
    ensures Distinct(groups[k]) && forall a :: 0 <= a < |groups[k]| ==> groups[k][a] !in done
  {
    forall a | 0 <= a < |groups[k]|
      ensures groups[k][a] !in done
    {
      assert groups[k][a] in groups[k];
    }
  }

  lemma SettledStep(groups: seq<seq<nat>>, ats: seq<seq<Point>>, outer: seq<Point>, before: seq<Point>, spots: seq<Point>, k: nat)
    requires k < |groups| == |ats| == |outer| && |before| == |spots|
    requires Families.Partition(groups, |spots|) && Settled(groups, ats, outer, before, k)
    requires |ats[k]| == |groups[k]| && forall a :: 0 <= a < |groups[k]| ==> groups[k][a] < |spots|
    requires forall a :: 0 <= a < |groups[k]| ==> spots[groups[k][a]] == Moved(ats[k][a], outer[k])
    requires forall i :: 0 <= i < |spots| && i !in groups[k] ==> spots[i] == before[i]
    ensures Settled(groups, ats, outer, spots, k + 1)
  {
    forall j, a | 0 <= j < k && 0 <= a < |groups[j]| && a < |ats[j]| && groups[j][a] < |spots|
      ensures spots[groups[j][a]] == Moved(ats[j][a], outer[j])
    {
      assert groups[j][a] in groups[j];
    }
  }

  lemma AllDown(sizes: seq<Size>, parents: Families.Edges, groups: seq<seq<nat>>, ats: seq<seq<Point>>, shapes: seq<Size>,
                outer: seq<Point>, spots: seq<Point>, edge: Size, done: set<nat>)
    requires AllNatural(sizes) && Edge(spots, sizes, edge, done)
    requires Families.Partition(groups, |sizes|)
    requires forall k, i, j :: 0 <= k < |groups| && i in groups[k] && 0 <= j < |sizes| ==>
      (j in groups[k] <==> Families.Linked(parents, |sizes|, i, j))
    requires Islands(sizes, groups, ats, shapes, outer) && Settled(groups, ats, outer, spots, |groups|)
    requires forall i :: i in done <==> exists j :: 0 <= j < |groups| && i in groups[j]
    ensures forall i, j :: 0 <= i < j < |spots| ==>
      Apart(Box(spots[i], sizes[i]), Box(spots[j], sizes[j]), GapBetween(parents, |sizes|, i, j))
    ensures ExactExtent(spots, sizes, edge, Indices(sizes))
  {
    forall i | 0 <= i < |sizes|
      ensures i in done
    {
      assert Families.Held(groups, i);
    }
    assert done == Indices(sizes);
    forall i, j | 0 <= i < j < |spots|
      ensures Apart(Box(spots[i], sizes[i]), Box(spots[j], sizes[j]), GapBetween(parents, |sizes|, i, j))
    {
      assert Families.Held(groups, i) && Families.Held(groups, j);
      var k :| 0 <= k < |groups| && i in groups[k];
      var l :| 0 <= l < |groups| && j in groups[l];
      var a :| 0 <= a < |groups[k]| && groups[k][a] == i;
      var b :| 0 <= b < |groups[l]| && groups[l][b] == j;
      IslandsApart(sizes, groups, ats, shapes, outer, spots, k, a, l, b);
    }
  }
}
