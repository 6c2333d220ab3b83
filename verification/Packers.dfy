/** The packers the arrangements name, each answering a place for every container. */
module Packers {
  import opened Constants
  import opened Geometry
  import opened Options
  import opened Parents
  import Families
  import Islands
  import Shelf
  import opened Skyline
  import opened Sorting
  import Tree

  /** What every packer promises of the containers that are drawn: they are at least `TASK_GAP` apart,
      nothing is left of or above the origin, and the extent is exact. */
  ghost predicate Placement(at: seq<Point>, extent: Size, sizes: seq<Size>) {
    && |at| == |sizes|
    && DrawnSeparated(at, sizes, TASK_GAP)
    && ExactExtent(at, sizes, extent, Drawn(sizes))
  }

  // ---- leaving the empty ones out ----

  /** The indices of the drawn containers among the first `n`, in order. */
  function Kept(sizes: seq<Size>, n: nat): (kept: seq<nat>)
    requires n <= |sizes|
    ensures forall i :: i in kept <==> 0 <= i < n && !sizes[i].Empty()
    ensures forall a, b :: 0 <= a < b < |kept| ==> kept[a] < kept[b]
    ensures forall a :: 0 <= a < |kept| ==> kept[a] < n
  {
    if n == 0 then []
    else if sizes[n - 1].Empty() then Kept(sizes, n - 1)
    else Kept(sizes, n - 1) + [n - 1]
  }

  /** How many drawn containers come before `ix`, which is what a drawn `ix` is renumbered to. */
  function Before(sizes: seq<Size>, ix: nat): nat
    requires ix <= |sizes|
  {
    if ix == 0 then 0 else Before(sizes, ix - 1) + if sizes[ix - 1].Empty() then 0 else 1
  }

  lemma {:induction false} KeptCount(sizes: seq<Size>, n: nat)
    requires n <= |sizes|
    ensures |Kept(sizes, n)| == Before(sizes, n)
  {
    if n > 0 {
      KeptCount(sizes, n - 1);
    }
  }

  lemma {:induction false} KeptPosition(sizes: seq<Size>, ix: nat)
    requires ix < |sizes| && !sizes[ix].Empty()
    ensures var kept := Kept(sizes, |sizes|);
            Before(sizes, ix) < |kept| && kept[Before(sizes, ix)] == ix
  {
    KeptCount(sizes, ix);
    KeptPrefix(sizes, ix + 1, |sizes|);
  }

  lemma {:induction false} KeptPrefix(sizes: seq<Size>, m: nat, n: nat)
    requires m <= n <= |sizes|
    ensures Kept(sizes, m) <= Kept(sizes, n)
  {
    hide Kept;
    if m < n {
      KeptPrefix(sizes, m, n - 1);
      KeptNext(sizes, n);
    }
  }

  lemma KeptNext(sizes: seq<Size>, n: nat)
    requires 0 < n <= |sizes|
    ensures Kept(sizes, n - 1) <= Kept(sizes, n)
  {
  }

  /** `kept` lists exactly the drawn containers, and `packed` says where each of them went. */
  ghost predicate SetBack(sizes: seq<Size>, kept: seq<nat>, packed: seq<Point>, at: seq<Point>) {
    && |packed| == |kept| && |at| == |sizes|
    && (forall k :: 0 <= k < |kept| ==> kept[k] in Drawn(sizes) && at[kept[k]] == packed[k])
    && (forall i :: i in Drawn(sizes) ==> i in kept)
  }

  lemma {:induction false} KeptIsDrawn(sizes: seq<Size>, packed: seq<Point>, at: seq<Point>)
    requires |packed| == |Kept(sizes, |sizes|)| && |at| == |sizes|
    requires forall k :: 0 <= k < |packed| ==> at[Kept(sizes, |sizes|)[k]] == packed[k]
    ensures SetBack(sizes, Kept(sizes, |sizes|), packed, at)
  {
    var kept := Kept(sizes, |sizes|);
    forall k | 0 <= k < |kept|
      ensures kept[k] in Drawn(sizes)
    {
      assert kept[k] in kept;
    }
  }

  /** Sets the packed boxes back at their own indices; a container that is not drawn stays at the origin. */
  method WithoutEmpties(sizes: seq<Size>, kept: seq<nat>, packed: seq<Point>) returns (at: seq<Point>)
    requires kept == Kept(sizes, |sizes|) && |packed| == |kept|
    ensures SetBack(sizes, kept, packed, at)
    ensures forall i :: 0 <= i < |sizes| && sizes[i].Empty() ==> at[i] == Point(0.0, 0.0)
  {
    hide Kept, SetBack;
    at := seq(|sizes|, _ => Point(0.0, 0.0));
    for k := 0 to |kept|
      invariant |at| == |sizes|
      invariant forall j :: 0 <= j < k ==> at[kept[j]] == packed[j]
      invariant forall i :: 0 <= i < |sizes| && i !in kept ==> at[i] == Point(0.0, 0.0)
    {
      at := at[kept[k] := packed[k]];
    }
    KeptIsDrawn(sizes, packed, at);
  }

  /** A drawn container's place in the dense list. */
  lemma DenseIndex(sizes: seq<Size>, kept: seq<nat>, packed: seq<Point>, at: seq<Point>, i: nat) returns (a: nat)
    requires SetBack(sizes, kept, packed, at) && i in Drawn(sizes)
    ensures a < |kept| && kept[a] == i && at[i] == packed[a]
  {
    a :| 0 <= a < |kept| && kept[a] == i;
  }

  lemma DenseSeparated(sizes: seq<Size>, kept: seq<nat>, packed: seq<Point>, at: seq<Point>)
    requires SetBack(sizes, kept, packed, at)
    requires Separated(packed, Islands.Pick(sizes, kept), TASK_GAP)
    ensures DrawnSeparated(at, sizes, TASK_GAP)
  {
    var dense := Islands.Pick(sizes, kept);
    forall i, j | 0 <= i < j < |at| && !sizes[i].Empty() && !sizes[j].Empty()
      ensures Apart(Box(at[i], sizes[i]), Box(at[j], sizes[j]), TASK_GAP)
    {
      var a := DenseIndex(sizes, kept, packed, at, i);
      var b := DenseIndex(sizes, kept, packed, at, j);
      if a < b {
        assert Apart(Box(packed[a], dense[a]), Box(packed[b], dense[b]), TASK_GAP);
      } else {
        assert Apart(Box(packed[b], dense[b]), Box(packed[a], dense[a]), TASK_GAP);
      }
    }
  }

  lemma DenseBounds(sizes: seq<Size>, kept: seq<nat>, packed: seq<Point>, extent: Size, at: seq<Point>, i: nat)
    requires SetBack(sizes, kept, packed, at) && i in Drawn(sizes)
    requires ExactExtent(packed, Islands.Pick(sizes, kept), extent, Indices(Islands.Pick(sizes, kept)))
    ensures 0.0 <= at[i].x && at[i].x + sizes[i].w <= extent.w
    ensures 0.0 <= at[i].y && at[i].y + sizes[i].h <= extent.h
  {
    var a := DenseIndex(sizes, kept, packed, at, i);
    assert a in Indices(Islands.Pick(sizes, kept));
  }

  lemma DenseExtent(sizes: seq<Size>, kept: seq<nat>, packed: seq<Point>, extent: Size, at: seq<Point>)
    requires SetBack(sizes, kept, packed, at)
    requires ExactExtent(packed, Islands.Pick(sizes, kept), extent, Indices(Islands.Pick(sizes, kept)))
    ensures ExactExtent(at, sizes, extent, Drawn(sizes))
  {
    var dense := Islands.Pick(sizes, kept);
    forall i | i in Drawn(sizes)
      ensures 0.0 <= at[i].x && at[i].x + sizes[i].w <= extent.w && 0.0 <= at[i].y && at[i].y + sizes[i].h <= extent.h
    {
      DenseBounds(sizes, kept, packed, extent, at, i);
    }
    if extent.w != 0.0 {
      var a :| a in Indices(dense) && extent.w == packed[a].x + dense[a].w;
      assert kept[a] in Drawn(sizes);
    }
    if extent.h != 0.0 {
      var a :| a in Indices(dense) && extent.h == packed[a].y + dense[a].h;
      assert kept[a] in Drawn(sizes);
    }
  }

  /** A good packing of the drawn boxes is a good placement of all. */
  lemma DensePlacement(sizes: seq<Size>, kept: seq<nat>, packed: seq<Point>, extent: Size, at: seq<Point>)
    requires SetBack(sizes, kept, packed, at)
    requires Separated(packed, Islands.Pick(sizes, kept), TASK_GAP)
    requires ExactExtent(packed, Islands.Pick(sizes, kept), extent, Indices(Islands.Pick(sizes, kept)))
    ensures Placement(at, extent, sizes)
  {
    DenseSeparated(sizes, kept, packed, at);
    DenseExtent(sizes, kept, packed, extent, at);
  }

  /** The dense number of every drawn container. */
  method Renumber(sizes: seq<Size>) returns (dense: seq<Option<nat>>)
    ensures |dense| == |sizes|
    ensures forall i {:trigger dense[i]} :: 0 <= i < |sizes| ==> dense[i] == if sizes[i].Empty() then None else Some(Before(sizes, i))
  {
    dense := seq(|sizes|, _ => None);
    var nextIx: nat := 0;
    for ix := 0 to |sizes|
      invariant |dense| == |sizes| && nextIx == Before(sizes, ix)
      invariant forall i {:trigger dense[i]} :: 0 <= i < |sizes| ==>
        dense[i] == if i < ix && !sizes[i].Empty() then Some(Before(sizes, i)) else None
    {
      if sizes[ix].w > 0.0 || sizes[ix].h > 0.0 {
        dense := dense[ix := Some(nextIx)];
        nextIx := nextIx + 1;
      }
    }
  }

  /** Edge for edge the relation between drawn containers, each of these by its place among them. */
  method Remap(sizes: seq<Size>, parents: Relation) returns (out: Relation)
    requires |parents| == |sizes| && InRange(parents)
    ensures var kept := Kept(sizes, |sizes|);
            && |out| == |kept| && InRange(out)
            && forall k, j :: 0 <= k < |kept| && 0 <= j < |kept| ==>
                 (out[k] == Some(j) <==> parents[kept[k]] == Some(kept[j]))
  {
    var dense := Renumber(sizes);
    out := [];
    for ix := 0 to |sizes|
      invariant RemappedSoFar(sizes, parents, out, ix)
    {
      if dense[ix].None? {
        continue;
      }
      var up := parents[ix];
      out := out + [if up.Some? then dense[up.value] else None];
    }
    RenumberedIsRemap(sizes, parents, out);
  }

  ghost predicate RemappedSoFar(sizes: seq<Size>, parents: Relation, out: Relation, n: nat)
    requires n <= |sizes| == |parents|
  {
    var kept := Kept(sizes, n);
    |out| == |kept| && forall k :: 0 <= k < |out| ==> out[k] == Renumbered(sizes, parents[kept[k]])
  }

  ghost function Renumbered(sizes: seq<Size>, up: Option<nat>): Option<nat> {
    if up.Some? && up.value < |sizes| && !sizes[up.value].Empty() then Some(Before(sizes, up.value)) else None
  }

  lemma {:induction false} RenumberedIsRemap(sizes: seq<Size>, parents: Relation, out: Relation)
    requires |parents| == |sizes| && InRange(parents)
    requires RemappedSoFar(sizes, parents, out, |sizes|)
    ensures InRange(out)
    ensures var kept := Kept(sizes, |sizes|);
            forall k, j :: 0 <= k < |kept| && 0 <= j < |kept| ==>
              (out[k] == Some(j) <==> parents[kept[k]] == Some(kept[j]))
  {
    hide Before, Kept;
    var kept := Kept(sizes, |sizes|);
    forall k | 0 <= k < |kept|
      ensures out[k].Some? ==> out[k].value < |kept| && parents[kept[k]] == Some(kept[out[k].value])
    {
      var up := parents[kept[k]];
      if out[k].Some? {
        KeptPosition(sizes, up.value);
      }
    }
    forall k, j | 0 <= k < |kept| && 0 <= j < |kept| && parents[kept[k]] == Some(kept[j])
      ensures out[k] == Some(j)
    {
      assert kept[j] in kept;
      KeptPosition(sizes, kept[j]);
    }
  }

  // ---- the packers by name ----

  datatype Packer = Flow | Packed | Forest | ViewShelf | ViewBest | IslandWise

  /** What stands in for the source's square root and its judgement of a packing. */
  datatype Judge = Judge(sqrt: real -> real, score: (Size, real, real) -> real)

  /** The drawn containers stand as the best of four best-fit packings of them. */
  ghost predicate BestBack(at: seq<Point>, extent: Size, sizes: seq<Size>, target: real, commit: bool, judge: Judge) {
    var dense := Islands.Pick(sizes, Kept(sizes, |sizes|));
    var content := Islands.Area(dense);
    exists packed: seq<Point> ::
      && SetBack(sizes, Kept(sizes, |sizes|), packed, at)
      && BestOfFour(Packing(packed, extent), dense, TASK_GAP, Islands.Side(judge.sqrt, content, target), commit,
                    Islands.Mark(judge.score, content, target))
  }

  method PackKept(sizes: seq<Size>, target: real, commit: bool, judge: Judge) returns (at: seq<Point>, extent: Size)
    requires AllNatural(sizes)
    ensures Placement(at, extent, sizes)
    ensures BestBack(at, extent, sizes, target, commit, judge)
  {
    hide Kept, BestOfFour, SetBack, Placement;
    var kept := Kept(sizes, |sizes|);
    var dense := Islands.Pick(sizes, kept);
    var content := Islands.Area(dense);
    var best := PackBest(dense, TASK_GAP, Islands.Side(judge.sqrt, content, target), commit, Islands.Mark(judge.score, content, target));
    at := WithoutEmpties(sizes, kept, best.at);
    extent := best.extent;
    assert Packing(best.at, extent) == best;
    DensePlacement(sizes, kept, best.at, extent, at);
  }

  // ---- the forest, set back ----

  /** The parent relation as far as it is between drawn containers. */
  function Among(sizes: seq<Size>, parents: Relation): (r: Relation)
    requires |parents| == |sizes|
    ensures |r| == |sizes| && InRange(r)
  {
    seq(|sizes|, i requires 0 <= i < |sizes| =>
      if !sizes[i].Empty() && parents[i].Some? && parents[i].value < |sizes| && !sizes[parents[i].value].Empty() then parents[i] else None)
  }

  /** A forest over the containers, and the strip each of them is given. */
  datatype Hung = Hung(up: Relation, left: seq<real>, span: seq<real>)

  /** The forest is the relation among the drawn containers, cut as Uncut says. */
  ghost predicate CutAmong(up: Relation, sizes: seq<Size>, parents: Relation)
    requires |up| == |parents| == |sizes|
  {
    InRange(up) && forall i :: 0 <= i < |up| ==> up[i] == Uncut(Among(sizes, parents), i)
  }

  ghost predicate FirstUnder(up: Relation, p: nat, c: nat) {
    c < |up| && up[c] == Some(p) && forall i :: 0 <= i < c ==> up[i] != Some(p)
  }

  ghost predicate LastUnder(up: Relation, p: nat, c: nat) {
    c < |up| && up[c] == Some(p) && forall i :: c < i < |up| ==> up[i] != Some(p)
  }

  function Middle(at: Point, size: Size): real {
    at.x + size.w / 2.0
  }

  /** Every container is in the middle of its strip, which holds it, a gap under the one it hangs under; and that
      one is in the middle of the strips of all that hang under it. */
  ghost predicate Centred(at: seq<Point>, sizes: seq<Size>, h: Hung) {
    && |at| == |sizes| == |h.up| == |h.left| == |h.span| && InRange(h.up)
    && (forall c: nat :: c < |at| && h.up[c].Some? ==>
          && h.span[c] >= sizes[c].w && Middle(at[c], sizes[c]) == h.left[c] + h.span[c] / 2.0
          && at[h.up[c].value].y + sizes[h.up[c].value].h + TASK_GAP <= at[c].y)
    && (forall p: nat, a: nat, b: nat :: p < |at| && FirstUnder(h.up, p, a) && LastUnder(h.up, p, b) ==>
          Middle(at[p], sizes[p]) == (h.left[a] + (h.left[b] + h.span[b])) / 2.0)
  }

  ghost predicate HangsCentred(at: seq<Point>, sizes: seq<Size>, parents: Relation)
    requires |parents| == |sizes|
  {
    exists h: Hung :: Centred(at, sizes, h) && CutAmong(h.up, sizes, parents)
  }

  /** The container that a dense number stands for. */
  function Original(kept: seq<nat>, k: Option<nat>): Option<nat> {
    if k.Some? && k.value < |kept| then Some(kept[k.value]) else None
  }

  /** `dense` is the parent relation among the drawn containers, which `kept` lists, renumbered. */
  ghost predicate Renumbers(sizes: seq<Size>, kept: seq<nat>, parents: Relation, dense: Relation) {
    && |parents| == |sizes| && |dense| == |kept| && InRange(dense) && Rising(kept)
    && (forall i :: i in kept <==> 0 <= i < |sizes| && !sizes[i].Empty())
    && (forall a :: 0 <= a < |kept| ==> kept[a] < |sizes|)
    && (forall a, b :: 0 <= a < |kept| && 0 <= b < |kept| ==> (dense[a] == Some(b) <==> parents[kept[a]] == Some(kept[b])))
  }

  /** What the renumbered forest says of the containers themselves. */
  ghost predicate IsSetBack(kept: seq<nat>, dense: Relation, up: Relation) {
    && |dense| == |kept|
    && (forall k :: 0 <= k < |kept| ==> kept[k] < |up| && up[kept[k]] == Original(kept, dense[k]))
    && (forall i :: 0 <= i < |up| && i !in kept ==> up[i].None?)
  }

  ghost function SetRelation(sizes: seq<Size>, kept: seq<nat>, dense: Relation): (up: Relation)
    requires |dense| == |kept|
    ensures |up| == |sizes|
    ensures forall i :: 0 <= i < |sizes| ==> up[i] == if i in kept then Original(kept, dense[Place(kept, i)]) else None
  {
    seq(|sizes|, i requires 0 <= i < |sizes| => if i in kept then Original(kept, dense[Place(kept, i)]) else None)
  }

  ghost function SetReals(sizes: seq<Size>, kept: seq<nat>, dense: seq<real>): (r: seq<real>)
    requires |dense| == |kept|
    ensures |r| == |sizes| && forall i :: 0 <= i < |sizes| && i in kept ==> r[i] == dense[Place(kept, i)]
  {
    seq(|sizes|, i requires 0 <= i < |sizes| => if i in kept then dense[Place(kept, i)] else 0.0)
  }

  function Place(kept: seq<nat>, i: nat): (k: nat)
    requires i in kept
    ensures k < |kept| && kept[k] == i
  {
    if kept[0] == i then 0 else Place(kept[1..], i) + 1
  }

  ghost predicate Rising(kept: seq<nat>) {
    forall a, b :: 0 <= a < b < |kept| ==> kept[a] < kept[b]
  }

  lemma {:induction false} PlaceOf(kept: seq<nat>, k: nat)
    requires Rising(kept) && k < |kept|
    ensures kept[k] in kept && Place(kept, kept[k]) == k
  {
    var p := Place(kept, kept[k]);
    assert !(p < k) && !(k < p);
  }

  lemma SetRelationIsSetBack(sizes: seq<Size>, kept: seq<nat>, dense: Relation)
    requires |dense| == |kept| && Rising(kept) && forall k :: 0 <= k < |kept| ==> kept[k] < |sizes|
    ensures IsSetBack(kept, dense, SetRelation(sizes, kept, dense))
  {
    forall k | 0 <= k < |kept|
      ensures SetRelation(sizes, kept, dense)[kept[k]] == Original(kept, dense[k])
    {
      PlaceOf(kept, k);
    }
  }

  /** Set back, the renumbered relation is the one among the drawn containers. */
  lemma AmongIsSetBack(sizes: seq<Size>, kept: seq<nat>, parents: Relation, dense: Relation)
    requires Renumbers(sizes, kept, parents, dense)
    ensures IsSetBack(kept, dense, Among(sizes, parents))
  {
    var among := Among(sizes, parents);
    forall k | 0 <= k < |kept|
      ensures among[kept[k]] == Original(kept, dense[k])
    {
      assert kept[k] in kept;
      if dense[k].Some? {
        assert kept[dense[k].value] in kept;
      } else {
        NoDenseParent(sizes, kept, parents, dense, k);
      }
    }
  }

  lemma NoDenseParent(sizes: seq<Size>, kept: seq<nat>, parents: Relation, dense: Relation, k: nat)
    requires Renumbers(sizes, kept, parents, dense) && k < |kept| && dense[k].None?
    ensures Among(sizes, parents)[kept[k]].None?
  {
    forall i | i in kept
      ensures parents[kept[k]] != Some(i)
    {
      assert dense[k] != Some(Place(kept, i));
    }
  }

  /** A way up among the containers is the way up of their numbers, step for step. */
  lemma {:induction false} SameWay(kept: seq<nat>, dense: Relation, up: Relation, k: nat, d: nat)
    requires IsSetBack(kept, dense, up) && InRange(dense) && InRange(up) && k < |kept|
    ensures Reaches(up, kept[k], d) <==> Reaches(dense, k, d)
    ensures forall j :: 0 <= j < |kept| && Comes(dense, k, d, j) ==> Comes(up, kept[k], d, kept[j])
    ensures forall i: nat :: Comes(up, kept[k], d, i) ==> exists j: nat :: j < |kept| && kept[j] == i && Comes(dense, k, d, j)
    decreases d
  {
    assert up[kept[k]] == Original(kept, dense[k]);
    if d > 0 && dense[k].Some? {
      SameWay(kept, dense, up, dense[k].value, d - 1);
    } else if d == 0 {
      assert Comes(dense, k, 0, k);
    }
  }

  lemma SameGround(kept: seq<nat>, dense: Relation, up: Relation, k: nat)
    requires IsSetBack(kept, dense, up) && InRange(dense) && InRange(up) && k < |kept|
    ensures Grounded(up, kept[k]) <==> Grounded(dense, k)
  {
    forall d: nat
      ensures Reaches(up, kept[k], d) <==> Reaches(dense, k, d)
    {
      SameWay(kept, dense, up, k, d);
    }
  }

  /** The numbers keep the order of the containers, so the same nodes come first on their ways up. */
  lemma SameLeast(kept: seq<nat>, dense: Relation, up: Relation, k: nat)
    requires IsSetBack(kept, dense, up) && InRange(dense) && InRange(up) && k < |kept| && Rising(kept)
    ensures LeastOnWay(up, kept[k]) <==> LeastOnWay(dense, k)
  {
    if LeastOnWay(dense, k) {
      forall d: nat, i: nat | Comes(up, kept[k], d, i)
        ensures kept[k] <= i
      {
        SameWay(kept, dense, up, k, d);
        var j: nat :| j < |kept| && kept[j] == i && Comes(dense, k, d, j);
      }
    }
    if LeastOnWay(up, kept[k]) {
      forall d: nat, j: nat | Comes(dense, k, d, j)
        ensures k <= j
      {
        InWay(dense, k, d, j);
        SameWay(kept, dense, up, k, d);
        assert kept[k] <= kept[j];
      }
    }
  }

  lemma {:induction false} InWay(parent: Relation, k: nat, d: nat, j: nat)
    requires InRange(parent) && k < |parent| && Comes(parent, k, d, j)
    ensures j < |parent|
    decreases d
  {
    if d > 0 {
      InWay(parent, parent[k].value, d - 1, j);
    }
  }

  lemma EdgesAreCut(sizes: seq<Size>, kept: seq<nat>, parents: Relation, dense: Relation, forest: Relation, up: Relation)
    requires Renumbers(sizes, kept, parents, dense) && |up| == |sizes| && |forest| == |kept| && InRange(forest)
    requires forall k :: 0 <= k < |kept| ==> forest[k] == Uncut(dense, k)
    requires IsSetBack(kept, forest, up)
    ensures CutAmong(up, sizes, parents)
  {
    var among := Among(sizes, parents);
    AmongIsSetBack(sizes, kept, parents, dense);
    forall i | 0 <= i < |up|
      ensures up[i] == Uncut(among, i)
    {
      if i in kept {
        var k := Place(kept, i);
        SameGround(kept, dense, among, k);
        SameLeast(kept, dense, among, k);
        assert up[kept[k]] == Original(kept, forest[k]);
      } else {
        assert among[i].None? && Reaches(among, i, 0);
      }
    }
  }

  /** The children of `q` in the renumbered forest, and their ends, are those of the container it stands for. */
  lemma {:induction false} EndsUnder(kept: seq<nat>, forest: Relation, up: Relation, kids: seq<nat>, q: nat, a: nat, b: nat)
    requires Rising(kept) && InRange(forest) && IsSetBack(kept, forest, up) && q < |kept|
    requires Tree.Lists(kids, forest, Some(q), |forest|)
    requires FirstUnder(up, kept[q], a) && LastUnder(up, kept[q], b)
    ensures kids != [] && a == kept[kids[0]] && b == kept[kids[|kids| - 1]]
  {
    hide IsSetBack, Tree.Lists, InRange;
    var x := UnderIsKid(kept, forest, up, kids, q, a);
    var y := UnderIsKid(kept, forest, up, kids, q, b);
    KidIsUnder(kept, forest, up, kids, q, 0, x);
    KidIsUnder(kept, forest, up, kids, q, |kids| - 1, y);
  }

  /** A kid of the forest hangs under the same container, and kids keep their order. */
  lemma KidIsUnder(kept: seq<nat>, forest: Relation, up: Relation, kids: seq<nat>, q: nat, i: nat, x: nat)
    requires Rising(kept) && InRange(forest) && IsSetBack(kept, forest, up) && q < |kept|
    requires Tree.Lists(kids, forest, Some(q), |forest|) && i < |kids| && x < |kids|
    ensures kids[i] < |kept| && kept[kids[i]] < |up| && up[kept[kids[i]]] == Some(kept[q]) && kids[x] < |kept|
    ensures i < x ==> kept[kids[i]] < kept[kids[x]]
    ensures x < i ==> kept[kids[x]] < kept[kids[i]]
  {
    assert kids[i] in kids && kids[x] in kids;
  }

  lemma SamePlace(kept: seq<nat>, a: nat, b: nat)
    requires Rising(kept) && a < |kept| && b < |kept| && kept[a] == kept[b]
    ensures a == b
  {
    assert !(a < b) && !(b < a);
  }

  lemma UnderIsKid(kept: seq<nat>, forest: Relation, up: Relation, kids: seq<nat>, q: nat, c: nat) returns (x: nat)
    requires Rising(kept) && InRange(forest) && IsSetBack(kept, forest, up) && q < |kept|
    requires Tree.Lists(kids, forest, Some(q), |forest|)
    requires c < |up| && up[c] == Some(kept[q])
    ensures x < |kids| && kids[x] < |kept| && c == kept[kids[x]]
  {
    hide Place;
    assert c in kept;
    var k := Place(kept, c);
    assert up[kept[k]] == Original(kept, forest[k]);
    SamePlace(kept, forest[k].value, q);
    assert k in kids;
    x :| 0 <= x < |kids| && kids[x] == k;
  }

  /** The packed forest, its strips and its edges, set back. */
  ghost predicate ForestBack(sizes: seq<Size>, kept: seq<nat>, packed: seq<Point>, at: seq<Point>, g: Tree.Grove, left: seq<real>, h: Hung) {
    && SetBack(sizes, kept, packed, at) && Rising(kept) && g.sizes == Islands.Pick(sizes, kept) && g.gap == TASK_GAP
    && Tree.Ready(g) && |left| == |packed| && IsSetBack(kept, g.parent, h.up)
    && |h.up| == |h.left| == |h.span| == |sizes| && InRange(h.up)
    && (forall k :: 0 <= k < |kept| ==> h.left[kept[k]] == left[k] && h.span[kept[k]] == g.span[k])
    && (forall q :: 0 <= q < |packed| ==> Tree.CentredOverChildren(g, left, packed, q))
  }

  /** The child's node in the forest, and its parent's. */
  lemma ItsNode(sizes: seq<Size>, kept: seq<nat>, packed: seq<Point>, at: seq<Point>, g: Tree.Grove, left: seq<real>, h: Hung, c: nat)
    returns (k: nat, q: nat)
    requires ForestBack(sizes, kept, packed, at, g, left, h) && c < |at| && h.up[c].Some?
    ensures k < |kept| == |g.parent| && kept[k] == c && q < |kept| && g.parent[k] == Some(q) && kept[q] == h.up[c].value
    ensures k in g.children[q] && Tree.Lists(g.children[q], g.parent, Some(q), |g.parent|)
    ensures Tree.CentredOverChildren(g, left, packed, q)
    ensures at[c] == packed[k] && sizes[c] == g.sizes[k] && g.span[k] >= g.sizes[k].w
    ensures at[kept[q]] == packed[q] && sizes[kept[q]] == g.sizes[q]
  {
    hide Tree.Rows, Tree.Depths, Tree.SpanIs, Parents.Forest, Tree.CentredOverChildren;
    assert c in kept;
    k := Place(kept, c);
    q := g.parent[k].value;
  }

  /** Set back, the forest's centring holds of the containers. */
  lemma {:induction false} SetBackCentred(sizes: seq<Size>, kept: seq<nat>, packed: seq<Point>, at: seq<Point>, g: Tree.Grove, left: seq<real>, h: Hung)
    requires ForestBack(sizes, kept, packed, at, g, left, h)
    ensures Centred(at, sizes, h)
  {
    forall c: nat | c < |at| && h.up[c].Some?
      ensures h.span[c] >= sizes[c].w && Middle(at[c], sizes[c]) == h.left[c] + h.span[c] / 2.0
      ensures at[h.up[c].value].y + sizes[h.up[c].value].h + TASK_GAP <= at[c].y
    {
      ChildCentred(sizes, kept, packed, at, g, left, h, c);
    }
    forall p: nat, a: nat, b: nat | p < |at| && FirstUnder(h.up, p, a) && LastUnder(h.up, p, b)
      ensures Middle(at[p], sizes[p]) == (h.left[a] + (h.left[b] + h.span[b])) / 2.0
    {
      ParentCentred(sizes, kept, packed, at, g, left, h, p, a, b);
    }
  }

  lemma {:induction false} ChildCentred(sizes: seq<Size>, kept: seq<nat>, packed: seq<Point>, at: seq<Point>, g: Tree.Grove, left: seq<real>, h: Hung, c: nat)
    requires ForestBack(sizes, kept, packed, at, g, left, h)
    requires c < |at| && h.up[c].Some?
    ensures h.span[c] >= sizes[c].w && Middle(at[c], sizes[c]) == h.left[c] + h.span[c] / 2.0
    ensures at[h.up[c].value].y + sizes[h.up[c].value].h + TASK_GAP <= at[c].y
  {
    var k, q := ItsNode(sizes, kept, packed, at, g, left, h, c);
    hide ForestBack;
    var x :| 0 <= x < |g.children[q]| && g.children[q][x] == k;
    ForestNumbers(sizes, kept, packed, at, g, left, h, k);
  }

  lemma BackParts(sizes: seq<Size>, kept: seq<nat>, packed: seq<Point>, at: seq<Point>, g: Tree.Grove, left: seq<real>, h: Hung)
    requires ForestBack(sizes, kept, packed, at, g, left, h)
    ensures Rising(kept) && InRange(g.parent) && IsSetBack(kept, g.parent, h.up) && |g.children| == |g.parent| == |kept|
    ensures |h.left| == |h.span| == |at| == |sizes| == |h.up| && |left| == |packed| == |g.sizes| == |g.span| == |kept|
    ensures forall p :: 0 <= p < |g.children| ==> Tree.AllBelow(g.children[p], |g.parent|)
  {
    hide Tree.Rows, Tree.Depths, Tree.SpanIs, Tree.CentredOverChildren, Rising;
    forall p | 0 <= p < |g.children|
      ensures Tree.AllBelow(g.children[p], |g.parent|)
    {
      assert Tree.Lists(g.children[p], g.parent, Some(p), |g.parent|);
    }
  }

  lemma ForestNumbers(sizes: seq<Size>, kept: seq<nat>, packed: seq<Point>, at: seq<Point>, g: Tree.Grove, left: seq<real>, h: Hung, k: nat)
    requires ForestBack(sizes, kept, packed, at, g, left, h) && k < |kept|
    ensures h.left[kept[k]] == left[k] && h.span[kept[k]] == g.span[k] && g.gap == TASK_GAP && |left| == |packed| == |g.sizes|
  {
  }

  lemma {:induction false} ParentCentred(sizes: seq<Size>, kept: seq<nat>, packed: seq<Point>, at: seq<Point>, g: Tree.Grove, left: seq<real>, h: Hung,
                                         p: nat, a: nat, b: nat)
    requires ForestBack(sizes, kept, packed, at, g, left, h)
    requires p < |at| && FirstUnder(h.up, p, a) && LastUnder(h.up, p, b)
    ensures Middle(at[p], sizes[p]) == (h.left[a] + (h.left[b] + h.span[b])) / 2.0
  {
    hide ForestBack;
    BackParts(sizes, kept, packed, at, g, left, h);
    var k, q := ItsNode(sizes, kept, packed, at, g, left, h, a);
    var kids := g.children[q];
    EndsUnder(kept, g.parent, h.up, kids, q, a, b);
    ForestNumbers(sizes, kept, packed, at, g, left, h, kids[0]);
    ForestNumbers(sizes, kept, packed, at, g, left, h, kids[|kids| - 1]);
  }

  lemma {:induction false} RemapRenumbers(sizes: seq<Size>, parents: Relation, up: Relation)
    requires |parents| == |sizes| && |up| == |Kept(sizes, |sizes|)| && InRange(up)
    requires var kept := Kept(sizes, |sizes|);
             forall k, j :: 0 <= k < |kept| && 0 <= j < |kept| ==> (up[k] == Some(j) <==> parents[kept[k]] == Some(kept[j]))
    ensures Renumbers(sizes, Kept(sizes, |sizes|), parents, up)
  {
  }

  /** The drawn containers stand as a tidy tree of their own relation, cut as Uncut says. */
  ghost predicate TidyAmong(at: seq<Point>, sizes: seq<Size>, parents: Relation, g: Tree.Grove, roots: seq<nat>, left: seq<real>, packed: seq<Point>) {
    var kept := Kept(sizes, |sizes|);
    && SetBack(sizes, kept, packed, at) && g.sizes == Islands.Pick(sizes, kept) && g.gap == TASK_GAP
    && Tree.TidyTree(g, roots, left, packed)
    && exists dense: Relation :: Renumbers(sizes, kept, parents, dense) && |g.parent| == |dense|
                                 && forall k :: 0 <= k < |dense| ==> g.parent[k] == Uncut(dense, k)
  }

  method PackForest(sizes: seq<Size>, parents: Relation)
    returns (at: seq<Point>, extent: Size, ghost g: Tree.Grove, ghost roots: seq<nat>, ghost left: seq<real>, ghost packed: seq<Point>)
    requires AllNatural(sizes) && |parents| == |sizes| && InRange(parents)
    ensures Placement(at, extent, sizes) && HangsCentred(at, sizes, parents)
    ensures TidyAmong(at, sizes, parents, g, roots, left, packed)
  {
    hide Kept, Tree.CentredOverChildren, Placement, Uncut, Renumbers, HangsCentred, Parents.Forest, Tree.Rows, Tree.Depths, Tree.SpanIs;
    var kept := Kept(sizes, |sizes|);
    var up := Remap(sizes, parents);
    RemapRenumbers(sizes, parents, up);
    var dense, e;
    dense, e, g, roots, left := Tree.PackTree(Islands.Pick(sizes, kept), up, TASK_GAP);
    packed := dense;
    at := WithoutEmpties(sizes, kept, dense);
    extent := e;
    DensePlacement(sizes, kept, packed, extent, at);
    ForestHangs(sizes, kept, parents, up, packed, at, g, roots, left);
  }

  lemma ForestHangs(sizes: seq<Size>, kept: seq<nat>, parents: Relation, up: Relation, packed: seq<Point>, at: seq<Point>,
                    g: Tree.Grove, roots: seq<nat>, left: seq<real>)
    requires Renumbers(sizes, kept, parents, up) && SetBack(sizes, kept, packed, at)
    requires g.sizes == Islands.Pick(sizes, kept) && g.gap == TASK_GAP && Tree.TidyTree(g, roots, left, packed)
    requires forall q :: 0 <= q < |packed| ==> Tree.CentredOverChildren(g, left, packed, q)
    requires |g.parent| == |up| && forall k :: 0 <= k < |up| ==> g.parent[k] == Uncut(up, k)
    ensures HangsCentred(at, sizes, parents)
  {
    hide Tree.CentredOverChildren, Uncut, Tree.Rows, Tree.Depths, Tree.SpanIs, Centred, CutAmong, Tree.SideBySide, Tree.DrawnAt;
    var h := Hung(SetRelation(sizes, kept, g.parent), SetReals(sizes, kept, left), SetReals(sizes, kept, g.span));
    forall k | 0 <= k < |kept|
      ensures h.left[kept[k]] == left[k] && h.span[kept[k]] == g.span[k]
    {
      PlaceOf(kept, k);
    }
    SetRelationIsSetBack(sizes, kept, g.parent);
    EdgesAreCut(sizes, kept, parents, up, g.parent, h.up);
    CutInRange(h.up, sizes, parents);
    SetBackCentred(sizes, kept, packed, at, g, left, h);
  }

  lemma CutInRange(up: Relation, sizes: seq<Size>, parents: Relation)
    requires |up| == |parents| == |sizes| && CutAmong(up, sizes, parents)
    ensures InRange(up)
  {
  }

  /** An edge between drawn containers is an edge between the containers themselves. */
  lemma RemapLinks(sizes: seq<Size>, kept: seq<nat>, parents: Relation, up: Relation, a: nat, b: nat)
    requires |parents| == |sizes| && |up| == |kept| && (forall k :: 0 <= k < |kept| ==> kept[k] < |sizes|)
    requires forall k, j :: 0 <= k < |kept| && 0 <= j < |kept| ==> (up[k] == Some(j) <==> parents[kept[k]] == Some(kept[j]))
    requires a < |kept| && b < |kept| && Families.Linked(up, |kept|, a, b)
    ensures Families.Linked(parents, |sizes|, kept[a], kept[b])
  {
    var p :| Families.Walk(up, |kept|, p) && p[0] == a && p[|p| - 1] == b;
    var q := Islands.Pick(kept, p);
    forall k | 0 <= k < |q| - 1
      ensures Families.Step(parents, |sizes|, q, k)
    {
      assert Families.Step(up, |kept|, p, k);
    }
    assert Families.Walk(parents, |sizes|, q) && q[0] == kept[a] && q[|q| - 1] == kept[b];
  }

  /** Drawn containers that nothing links, however remotely, end up an island gap apart. */
  ghost predicate IslandsOfTheirOwn(at: seq<Point>, sizes: seq<Size>, parents: Relation)
    requires |at| == |sizes|
  {
    forall i, j :: 0 <= i < j < |at| && !sizes[i].Empty() && !sizes[j].Empty() && !Families.Linked(parents, |sizes|, i, j) ==>
      Apart(Box(at[i], sizes[i]), Box(at[j], sizes[j]), ISLAND_GAP)
  }

  lemma DenseIslands(sizes: seq<Size>, kept: seq<nat>, parents: Relation, up: Relation, packed: seq<Point>, at: seq<Point>)
    requires SetBack(sizes, kept, packed, at) && |parents| == |sizes| && |up| == |kept|
    requires forall k, j :: 0 <= k < |kept| && 0 <= j < |kept| ==> (up[k] == Some(j) <==> parents[kept[k]] == Some(kept[j]))
    requires forall i, j :: 0 <= i < j < |packed| ==>
      Apart(Box(packed[i], sizes[kept[i]]), Box(packed[j], sizes[kept[j]]), Islands.GapBetween(up, |kept|, i, j))
    ensures IslandsOfTheirOwn(at, sizes, parents)
  {
    hide Families.Linked, Apart;
    forall i, j | 0 <= i < j < |at| && !sizes[i].Empty() && !sizes[j].Empty() && !Families.Linked(parents, |sizes|, i, j)
      ensures Apart(Box(at[i], sizes[i]), Box(at[j], sizes[j]), ISLAND_GAP)
    {
      var a := DenseIndex(sizes, kept, packed, at, i);
      var b := DenseIndex(sizes, kept, packed, at, j);
      if Families.Linked(up, |kept|, a, b) {
        RemapLinks(sizes, kept, parents, up, a, b);
      }
      if Families.Linked(up, |kept|, b, a) {
        RemapLinks(sizes, kept, parents, up, b, a);
        Families.LinkedBack(parents, |sizes|, j, i);
      }
      ApartSymmetric(Box(at[i], sizes[i]), Box(at[j], sizes[j]), ISLAND_GAP);
    }
  }

  /** The drawn containers stand as the islands of their own relation were packed. */
  ghost predicate IslandsBack(at: seq<Point>, sizes: seq<Size>, parents: Relation, target: real, judge: Judge) {
    var kept := Kept(sizes, |sizes|);
    exists packed: seq<Point>, dense: Relation ::
      && SetBack(sizes, kept, packed, at) && Renumbers(sizes, kept, parents, dense)
      && Islands.IslandWise(packed, Islands.Pick(sizes, kept), dense, target, judge.sqrt, judge.score)
  }

  method PackIslandWise(sizes: seq<Size>, parents: Relation, target: real, judge: Judge) returns (at: seq<Point>, extent: Size)
    requires AllNatural(sizes) && |parents| == |sizes| && InRange(parents)
    ensures Placement(at, extent, sizes) && IslandsOfTheirOwn(at, sizes, parents)
    ensures IslandsBack(at, sizes, parents, target, judge)
  {
    hide Kept, Families.Linked, Islands.IslandWise, Renumbers, SetBack, Placement, IslandsOfTheirOwn;
    var kept := Kept(sizes, |sizes|);
    var dense := Islands.Pick(sizes, kept);
    var up := Remap(sizes, parents);
    RemapRenumbers(sizes, parents, up);
    var packed, e := Islands.PackIslands(dense, up, target, judge.sqrt, judge.score);
    forall i, j | 0 <= i < j < |packed|
      ensures Apart(Box(packed[i], dense[i]), Box(packed[j], dense[j]), TASK_GAP)
    {
      assert Apart(Box(packed[i], dense[i]), Box(packed[j], dense[j]), Islands.GapBetween(up, |dense|, i, j));
    }
    at := WithoutEmpties(sizes, kept, packed);
    extent := e;
    DensePlacement(sizes, kept, packed, extent, at);
    DenseIslands(sizes, kept, parents, up, packed, at);
  }

  /** How wide the first `n` boxes are side by side. */
  function RunTo(sizes: seq<Size>, n: nat): real
    requires n <= |sizes|
  {
    if n == 0 then -TASK_GAP else RunTo(sizes, n - 1) + sizes[n - 1].w + TASK_GAP
  }

  /** The widths worth a shelf: the widest box, a guess from the area, and every width at which one more box
      fits beside the others; none of them less than the widest box. */
  ghost predicate WorthAShelf(widths: seq<real>, kept: seq<Size>, target: real, judge: Judge) {
    && |widths| == |kept| + 2
    && widths[0] == Widest(kept)
    && widths[1] == Max(Islands.Side(judge.sqrt, Islands.Area(kept), target) * SHELF_SLACK, Widest(kept))
    && (forall k :: 2 <= k < |widths| ==> widths[k] == Max(RunTo(kept, k - 1), Widest(kept)))
  }

  method ShelfWidths(kept: seq<Size>, target: real, judge: Judge) returns (widths: seq<real>)
    ensures WorthAShelf(widths, kept, target, judge)
  {
    var widest := Widest(kept);
    widths := [widest, Max(Islands.Side(judge.sqrt, Islands.Area(kept), target) * SHELF_SLACK, widest)];
    var run := -TASK_GAP;
    for k := 0 to |kept|
      invariant |widths| == k + 2 && run == RunTo(kept, k)
      invariant widths[0] == widest
      invariant widths[1] == Max(Islands.Side(judge.sqrt, Islands.Area(kept), target) * SHELF_SLACK, widest)
      invariant forall j :: 2 <= j < |widths| ==> widths[j] == Max(RunTo(kept, j - 1), widest)
    {
      run := run + kept[k].w + TASK_GAP;
      widths := widths + [Max(run, widest)];
    }
  }

  /** The shelves tried, narrowest first: one for each width worth it, or a fixed one when nothing is drawn. */
  ghost predicate Shelves(tried: seq<Packing>, sizes: seq<Size>, target: real, judge: Judge) {
    exists worth: seq<real>, widths: seq<real> ::
      multiset(widths) == multiset(worth) && AllWorth(worth, Islands.Pick(sizes, Kept(sizes, |sizes|)), target, judge) && Tried(tried, sizes, widths)
  }

  ghost predicate AllWorth(worth: seq<real>, kept: seq<Size>, target: real, judge: Judge) {
    if kept == [] then worth == [LAYOUT_WIDTH - LAYOUT_MARGIN] else WorthAShelf(worth, kept, target, judge)
  }

  ghost predicate Tried(tried: seq<Packing>, sizes: seq<Size>, widths: seq<real>) {
    && |tried| == |widths|
    && (forall i, j :: 0 <= i < j < |widths| ==> widths[i] <= widths[j])
    && (forall k :: 0 <= k < |tried| ==> ShelfOf(tried[k], sizes, widths[k]))
  }

  /** The first of the shelves tried that scores least. */
  ghost predicate LeastOf(at: seq<Point>, extent: Size, tried: seq<Packing>, mark: Size -> real) {
    exists k :: 0 <= k < |tried| && tried[k] == Packing(at, extent)
                && (forall i :: 0 <= i < |tried| ==> mark(extent) <= mark(tried[i].extent))
                && (forall i :: 0 <= i < k ==> mark(extent) < mark(tried[i].extent))
  }

  method PackViewShelf(sizes: seq<Size>, target: real, judge: Judge) returns (at: seq<Point>, extent: Size, ghost tried: seq<Packing>)
    requires AllNatural(sizes)
    ensures Placement(at, extent, sizes)
    ensures LeastOf(at, extent, tried, Islands.Mark(judge.score, Islands.Area(Islands.Pick(sizes, Kept(sizes, |sizes|))), target))
    ensures Shelves(tried, sizes, target, judge)
  {
    hide Kept, Placement, LeastOf, Shelf.OnShelves, WorthAShelf, ShelfOf, DrawnSeparated, ExactExtent, Drawn;
    var kept := Islands.Pick(sizes, Kept(sizes, |sizes|));
    var mark := Islands.Mark(judge.score, Islands.Area(kept), target);
    if kept == [] {
      at, extent := Shelf.PackShelf(sizes, LAYOUT_WIDTH - LAYOUT_MARGIN, TASK_GAP);
      ShelfIsPlacement(at, extent, sizes);
      ItIsShelf(at, extent, sizes, LAYOUT_WIDTH - LAYOUT_MARGIN);
      tried := [Packing(at, extent)];
      FirstIsLeast(at, extent, mark);
      var only := [LAYOUT_WIDTH - LAYOUT_MARGIN];
      assert AllWorth(only, kept, target, judge) && Tried(tried, sizes, only) && multiset(only) == multiset(only);
      return;
    }
    var worth := ShelfWidths(kept, target, judge);
    SomeWidth(worth, kept, target, judge);
    var widths := SortBy((w: real) => w, worth);
    at, extent, tried := TryShelves(sizes, widths, mark);
    assert AllWorth(worth, kept, target, judge) && Tried(tried, sizes, widths);
  }

  /** A shelf of each width, of which the first that scores least is kept. */
  method TryShelves(sizes: seq<Size>, widths: seq<real>, mark: Size -> real) returns (at: seq<Point>, extent: Size, ghost tried: seq<Packing>)
    requires AllNatural(sizes) && widths != []
    ensures |tried| == |widths| && LeastOf(at, extent, tried, mark) && Placement(at, extent, sizes)
    ensures forall k :: 0 <= k < |tried| ==> ShelfOf(tried[k], sizes, widths[k])
  {
    hide Placement, LeastOf, Shelf.OnShelves, ShelfOf, DrawnSeparated, ExactExtent, Drawn;
    at, extent, tried := [], Size(0.0, 0.0), [];
    for k := 0 to |widths|
      invariant |tried| == k
      invariant k > 0 ==> LeastOf(at, extent, tried, mark) && Placement(at, extent, sizes)
      invariant forall j :: 0 <= j < k ==> ShelfOf(tried[j], sizes, widths[j])
    {
      var next, e := Shelf.PackShelf(sizes, widths[k], TASK_GAP);
      ShelfIsPlacement(next, e, sizes);
      ItIsShelf(next, e, sizes, widths[k]);
      if k == 0 {
        FirstIsLeast(next, e, mark);
      } else {
        NextIsLeast(at, extent, tried, next, e, mark);
      }
      tried := tried + [Packing(next, e)];
      if k == 0 || mark(e) < mark(extent) {
        at, extent := next, e;
      }
    }
  }

  /** The drawn boxes are on shelves this wide, and make a good placement. */
  ghost predicate ShelfOf(p: Packing, sizes: seq<Size>, width: real) {
    Shelf.OnShelves(p.at, sizes, width, TASK_GAP) && Placement(p.at, p.extent, sizes)
  }

  lemma ItIsShelf(at: seq<Point>, extent: Size, sizes: seq<Size>, width: real)
    requires Shelf.OnShelves(at, sizes, width, TASK_GAP) && Placement(at, extent, sizes)
    ensures ShelfOf(Packing(at, extent), sizes, width)
  {
  }

  lemma SomeWidth(widths: seq<real>, kept: seq<Size>, target: real, judge: Judge)
    requires WorthAShelf(widths, kept, target, judge)
    ensures widths != []
  {
  }

  lemma ShelfIsPlacement(at: seq<Point>, extent: Size, sizes: seq<Size>)
    requires |at| == |sizes| && DrawnSeparated(at, sizes, TASK_GAP) && ExactExtent(at, sizes, extent, Drawn(sizes))
    ensures Placement(at, extent, sizes)
  {
  }

  lemma FirstIsLeast(at: seq<Point>, extent: Size, mark: Size -> real)
    ensures LeastOf(at, extent, [Packing(at, extent)], mark)
    ensures LeastOf(at, extent, [] + [Packing(at, extent)], mark)
  {
    var tried := [Packing(at, extent)];
    assert tried[0] == Packing(at, extent) && [] + tried == tried;
  }

  lemma NextIsLeast(at: seq<Point>, extent: Size, tried: seq<Packing>, next: seq<Point>, e: Size, mark: Size -> real)
    requires LeastOf(at, extent, tried, mark)
    ensures if mark(e) < mark(extent) then LeastOf(next, e, tried + [Packing(next, e)], mark)
            else LeastOf(at, extent, tried + [Packing(next, e)], mark)
  {
    var more := tried + [Packing(next, e)];
    assert more[|tried|] == Packing(next, e);
    var k :| 0 <= k < |tried| && tried[k] == Packing(at, extent)
             && (forall i :: 0 <= i < |tried| ==> mark(extent) <= mark(tried[i].extent))
             && (forall i :: 0 <= i < k ==> mark(extent) < mark(tried[i].extent));
    assert more[k] == Packing(at, extent);
  }

  /** What each packer answers. */
  ghost predicate PackedBy(packer: Packer, at: seq<Point>, extent: Size, sizes: seq<Size>, parents: Relation, target: real, judge: Judge)
    requires |at| == |sizes| == |parents|
  {
    match packer
    case Flow => Shelf.OnShelves(at, sizes, LAYOUT_WIDTH - LAYOUT_MARGIN, TASK_GAP)
    case Packed => BestBack(at, extent, sizes, 1.0, false, judge)
    case Forest => HangsCentred(at, sizes, parents)
                   && exists g: Tree.Grove, roots: seq<nat>, left: seq<real>, packed: seq<Point> :: TidyAmong(at, sizes, parents, g, roots, left, packed)
    case ViewShelf =>
      exists tried: seq<Packing> ::
        Shelves(tried, sizes, target, judge)
        && LeastOf(at, extent, tried, Islands.Mark(judge.score, Islands.Area(Islands.Pick(sizes, Kept(sizes, |sizes|))), target))
    case ViewBest => BestBack(at, extent, sizes, target, true, judge)
    case IslandWise => IslandsOfTheirOwn(at, sizes, parents) && IslandsBack(at, sizes, parents, target, judge)
  }

  method Pack(packer: Packer, sizes: seq<Size>, parents: Relation, target: real, judge: Judge) returns (at: seq<Point>, extent: Size)
    requires AllNatural(sizes) && |parents| == |sizes| && InRange(parents)
    ensures Placement(at, extent, sizes)
    ensures PackedBy(packer, at, extent, sizes, parents, target, judge)
  {
    hide BestBack, HangsCentred, TidyAmong, Shelves, LeastOf, IslandsBack, IslandsOfTheirOwn, Kept, Shelf.OnShelves;
    match packer
    case Flow =>
      at, extent := Shelf.PackShelf(sizes, LAYOUT_WIDTH - LAYOUT_MARGIN, TASK_GAP);
    case Packed =>
      at, extent := PackKept(sizes, 1.0, false, judge);
    case Forest =>
      ghost var g, roots, left, packed;
      at, extent, g, roots, left, packed := PackForest(sizes, parents);
    case ViewShelf =>
      ghost var tried;
      at, extent, tried := PackViewShelf(sizes, target, judge);
    case ViewBest =>
      at, extent := PackKept(sizes, target, true, judge);
    case IslandWise =>
      at, extent := PackIslandWise(sizes, parents, target, judge);
  }
}
