/** The best-fit skyline packer: a fence of heights over the x axis, raised under each box. */
module Skyline {
  import opened Geometry
  import opened Options
  import opened Sorting

  /** The fence stands at `top` from `x` to the next node, the last one without end. */
  datatype Node = Node(x: real, top: real)

  type Fence = seq<Node>

  ghost predicate Rising(sky: Fence) {
    forall i, j :: 0 <= i < j < |sky| ==> sky[i].x < sky[j].x
  }

  /** A skyline: it starts at the left wall, runs rightwards, and every node is a real step. */
  ghost predicate Valid(sky: Fence) {
    && sky != [] && sky[0].x == 0.0
    && Rising(sky)
    && (forall i :: 0 <= i < |sky| ==> sky[i].top >= 0.0)
    && (forall i :: 0 < i < |sky| ==> sky[i - 1].top != sky[i].top)
  }

  function LeftEdge(n: Node): real {
    n.x
  }

  /** How high the fence stands over `p`. */
  ghost function HeightOver(sky: Fence, p: real): real {
    if sky == [] then 0.0
    else if sky[|sky| - 1].x <= p then sky[|sky| - 1].top
    else HeightOver(sky[..|sky| - 1], p)
  }

  /** `n` is the last of `nodes` at or left of `p`, in whatever order they are listed. */
  ghost predicate Governs(nodes: Fence, n: Node, p: real) {
    && n in nodes && n.x <= p
    && (forall m :: m in nodes && m.x <= p ==> m.x <= n.x)
  }

  lemma {:induction false} GovernsGivesHeight(sky: Fence, n: Node, p: real)
    requires Rising(sky) && Governs(sky, n, p)
    ensures HeightOver(sky, p) == n.top
  {
    var k := |sky| - 1;
    if sky[k].x <= p {
      assert sky[k] in sky;
    } else {
      assert sky == sky[..k] + [sky[k]];
      GovernsGivesHeight(sky[..k], n, p);
    }
  }

  lemma {:induction false} SomeNodeGoverns(sky: Fence, p: real) returns (k: nat)
    requires sky != [] && Rising(sky) && sky[0].x <= p
    ensures k < |sky| && Governs(sky, sky[k], p)
    ensures HeightOver(sky, p) == sky[k].top
    ensures k + 1 < |sky| ==> p < sky[k + 1].x
  {
    k := |sky| - 1;
    while p < sky[k].x
      invariant k < |sky|
      decreases k
      invariant forall j :: k < j < |sky| ==> p < sky[j].x
    {
      k := k - 1;
    }
    GovernsGivesHeight(sky, sky[k], p);
  }

  method HeightAt(sky: Fence, x: real) returns (h: real)
    ensures h == HeightOver(sky, x)
  {
    var k := |sky|;
    assert sky[..k] == sky;
    while k > 0
      invariant 0 <= k <= |sky|
      invariant HeightOver(sky, x) == HeightOver(sky[..k], x)
    {
      assert sky[..k][..k - 1] == sky[..k - 1];
      if sky[k - 1].x <= x {
        return sky[k - 1].top;
      }
      k := k - 1;
    }
    return 0.0;
  }

  /** `y` is the lowest a box over `[x, x + w)` can sit: the greatest height under it. */
  ghost predicate IsLedge(sky: Fence, x: real, w: real, y: real) {
    && (forall p :: x <= p < x + w ==> HeightOver(sky, p) <= y)
    && (exists p :: x <= p < x + w && HeightOver(sky, p) == y)
  }

  /** Whether the stretch of node `k` meets `[x, x + w)`. */
  predicate Under(sky: Fence, k: nat, x: real, w: real)
    requires k < |sky|
  {
    (k + 1 < |sky| ==> x < sky[k + 1].x) && sky[k].x < x + w
  }

  lemma UnderIsMet(sky: Fence, k: nat, x: real, w: real) returns (p: real)
    requires Valid(sky) && x >= 0.0 && w > 0.0 && k < |sky| && Under(sky, k, x, w)
    ensures x <= p < x + w && HeightOver(sky, p) == sky[k].top
  {
    p := Max(x, sky[k].x);
    GovernsGivesHeight(sky, sky[k], p);
  }

  method Ledge(sky: Fence, x: real, w: real) returns (y: real)
    requires Valid(sky) && x >= 0.0 && w > 0.0
    ensures y >= 0.0 && IsLedge(sky, x, w, y)
  {
    hide Under, IsLedge, Valid;
    y := 0.0;
    for ix := 0 to |sky|
      invariant y >= 0.0
      invariant forall k :: 0 <= k < ix && Under(sky, k, x, w) ==> sky[k].top <= y
      invariant y == 0.0 || exists k :: 0 <= k < ix && Under(sky, k, x, w) && sky[k].top == y
    {
      if Under(sky, ix, x, w) {
        y := Max(y, sky[ix].top);
      }
    }
    LedgeFound(sky, x, w, y);
  }

  /** The top of the highest node under the stretch is its ledge. */
  lemma LedgeFound(sky: Fence, x: real, w: real, y: real)
    requires Valid(sky) && x >= 0.0 && w > 0.0 && y >= 0.0
    requires forall k :: 0 <= k < |sky| && Under(sky, k, x, w) ==> sky[k].top <= y
    requires y == 0.0 || exists k :: 0 <= k < |sky| && Under(sky, k, x, w) && sky[k].top == y
    ensures IsLedge(sky, x, w, y)
  {
    forall p | x <= p < x + w
      ensures 0.0 <= HeightOver(sky, p) <= y
    {
      var k := SomeNodeGoverns(sky, p);
      assert Under(sky, k, x, w);
    }
    if y == 0.0 {
      assert HeightOver(sky, x) == y;
    } else {
      var k :| 0 <= k < |sky| && Under(sky, k, x, w) && sky[k].top == y;
      var p := UnderIsMet(sky, k, x, w);
    }
  }

  /** The nodes strictly left of `x` or strictly right of `right`. */
  function Beside(sky: Fence, x: real, right: real): (kept: Fence)
    ensures forall n :: n in kept <==> n in sky && (n.x < x || n.x > right)
    ensures Distinct(sky) ==> Distinct(kept)
  {
    if sky == [] then [] else
    var kept := Beside(sky[..|sky| - 1], x, right);
    var n := sky[|sky| - 1];
    assert sky == sky[..|sky| - 1] + [n];
    if n.x < x || n.x > right then kept + [n] else kept
  }

  /** Raising puts exactly `[x, x + w)` at `top` and leaves the fence as it was everywhere else. */
  method RaiseFence(sky: Fence, x: real, w: real, top: real) returns (out: Fence)
    requires Valid(sky) && x >= 0.0 && w > 0.0 && top >= 0.0
    ensures Valid(out)
    ensures forall p :: p >= 0.0 ==>
      HeightOver(out, p) == if x <= p < x + w then top else HeightOver(sky, p)
  {
    hide HeightOver, Beside;
    var right := x + w;
    var beyond := HeightAt(sky, right);
    var kept := Beside(sky, x, right) + [Node(x, top), Node(right, beyond)];
    var sorted := SortBy(LeftEdge, kept);
    RaisedDistinct(sky, x, w, top, kept);
    SortedIsRaised(sky, x, w, top, kept, sorted);
    out := DropRepeats(sorted);
  }

  /** The nodes of a raised fence: the untouched ones and the two new edges. */
  ghost predicate Raised(sky: Fence, x: real, w: real, top: real, nodes: Fence) {
    forall n :: n in nodes <==>
      || n == Node(x, top)
      || n == Node(x + w, HeightOver(sky, x + w))
      || (n in sky && (n.x < x || n.x > x + w))
  }

  /** The node that governs `p` in a raised fence. */
  lemma RaisedHeight(sky: Fence, x: real, w: real, top: real, nodes: Fence, p: real) returns (n: Node)
    requires Valid(sky) && x >= 0.0 && w > 0.0 && Raised(sky, x, w, top, nodes) && p >= 0.0
    ensures Governs(nodes, n, p)
    ensures n.top == if x <= p < x + w then top else HeightOver(sky, p)
  {
    var m := SomeNodeGoverns(sky, p);
    n := sky[m];
    if x <= p < x + w {
      n := Node(x, top);
    } else if x + w <= p && sky[m].x <= x + w {
      GovernsGivesHeight(sky, sky[m], x + w);
      n := Node(x + w, HeightOver(sky, x + w));
    }
  }

  lemma {:induction false} RaisedDistinct(sky: Fence, x: real, w: real, top: real, kept: Fence)
    requires Valid(sky) && w > 0.0
    requires kept == Beside(sky, x, x + w) + [Node(x, top), Node(x + w, HeightOver(sky, x + w))]
    ensures Raised(sky, x, w, top, kept) && Distinct(kept)
  {
    assert Distinct(sky);
  }

  lemma RaisedRises(sky: Fence, x: real, w: real, top: real, sorted: Fence)
    requires Valid(sky) && x >= 0.0 && w > 0.0 && top >= 0.0
    requires Raised(sky, x, w, top, sorted) && Distinct(sorted) && SortedBy(LeftEdge, sorted)
    ensures Rising(sorted)
  {
    forall i, j | 0 <= i < j < |sorted|
      ensures sorted[i].x < sorted[j].x
    {
      assert LeftEdge(sorted[i]) <= LeftEdge(sorted[j]);
      assert sorted[i] in sorted && sorted[j] in sorted;
    }
  }

  lemma RaisedStands(sky: Fence, x: real, w: real, top: real, sorted: Fence)
    requires Valid(sky) && x >= 0.0 && w > 0.0 && top >= 0.0
    requires Raised(sky, x, w, top, sorted) && Rising(sorted)
    ensures sorted != [] && sorted[0].x == 0.0
    ensures forall i :: 0 <= i < |sorted| ==> sorted[i].top >= 0.0
  {
    var k := SomeNodeGoverns(sky, x + w);
    var first := RaisedHeight(sky, x, w, top, sorted, 0.0);
    assert sorted[0] in sorted;
  }

  lemma {:induction false} RaisedHeights(sky: Fence, x: real, w: real, top: real, sorted: Fence)
    requires Valid(sky) && x >= 0.0 && w > 0.0
    requires Raised(sky, x, w, top, sorted) && Rising(sorted)
    ensures forall p :: p >= 0.0 ==>
      HeightOver(sorted, p) == if x <= p < x + w then top else HeightOver(sky, p)
  {
    forall p | p >= 0.0
      ensures HeightOver(sorted, p) == if x <= p < x + w then top else HeightOver(sky, p)
    {
      var n := RaisedHeight(sky, x, w, top, sorted, p);
      GovernsGivesHeight(sorted, n, p);
    }
  }

  lemma {:induction false} SortedIsRaised(sky: Fence, x: real, w: real, top: real, kept: Fence, sorted: Fence)
    requires Valid(sky) && x >= 0.0 && w > 0.0 && top >= 0.0
    requires Raised(sky, x, w, top, kept) && Distinct(kept)
    requires SortedBy(LeftEdge, sorted) && multiset(sorted) == multiset(kept)
    ensures Rising(sorted) && sorted != [] && sorted[0].x == 0.0
    ensures forall i :: 0 <= i < |sorted| ==> sorted[i].top >= 0.0
    ensures forall p :: p >= 0.0 ==>
      HeightOver(sorted, p) == if x <= p < x + w then top else HeightOver(sky, p)
  {
    assert Raised(sky, x, w, top, sorted) by {
      forall n
        ensures n in sorted <==> n in multiset(kept)
      {
      }
    }
    ReorderedDistinct(kept, sorted);
    RaisedRises(sky, x, w, top, sorted);
    RaisedStands(sky, x, w, top, sorted);
    RaisedHeights(sky, x, w, top, sorted);
  }

  /** A node that changes nothing is left out of the fence. */
  method DropRepeats(kept: Fence) returns (out: Fence)
    requires kept != [] && kept[0].x == 0.0 && Rising(kept)
    requires forall i :: 0 <= i < |kept| ==> kept[i].top >= 0.0
    ensures Valid(out)
    ensures forall p :: HeightOver(out, p) == HeightOver(kept, p)
  {
    out := [];
    for i := 0 to |kept|
      invariant i == 0 ==> out == []
      invariant i > 0 ==> Valid(out) && out[|out| - 1].x <= kept[i - 1].x && out[|out| - 1].top == kept[i - 1].top
      invariant forall p :: HeightOver(out, p) == HeightOver(kept[..i], p)
    {
      var node := kept[i];
      assert kept[..i + 1][..i] == kept[..i];
      if out != [] && (node.x <= out[|out| - 1].x || node.top == out[|out| - 1].top) {
        continue;
      }
      assert (out + [node])[..|out|] == out;
      out := out + [node];
    }
    assert kept[..|kept|] == kept;
  }

  // ---- choosing a slot ----

  /** A free place for a box, and how large the bounding box so far grows by taking it. */
  datatype Slot = Slot(grown: real, x: real, y: real)

  /** The area of the bounding box once a box inflated to `w` by `h` stands at `(x, y)`; `commit` counts the
      whole width of the container. */
  function Grown(extent: Size, width: real, gap: real, commit: bool, w: real, h: real, x: real, y: real): real {
    (if commit then width else Max(extent.w, x + w - gap)) * Max(extent.h, y + h - gap)
  }

  /** The greedy order: least growth, then lowest, then leftmost. */
  predicate Better(a: Slot, b: Slot) {
    a.grown < b.grown || (a.grown == b.grown && (a.y < b.y || (a.y == b.y && a.x < b.x)))
  }

  /** `s` is the slot at node `k` of the fence: on the ledge there, and as large as the bounding box is with a
      box of `w - gap` by `h - gap` in it, or as large as the container is down to its bottom. */
  ghost predicate SlotAt(sky: Fence, k: nat, extent: Size, width: real, gap: real, commit: bool, w: real, h: real, s: Slot)
    requires k < |sky|
  {
    && s.x == sky[k].x && s.x + w <= width + gap
    && s.y >= 0.0 && IsLedge(sky, s.x, w, s.y)
    && s.grown == (if commit then width else Max(extent.w, s.x + (w - gap))) * Max(extent.h, s.y + (h - gap))
  }

  /** `a` is at least as good: no larger, where that is the same no higher, and then no further right. */
  predicate AsGood(a: Slot, b: Slot) {
    a.grown <= b.grown && (a.grown == b.grown ==> a.y <= b.y && (a.y == b.y ==> a.x <= b.x))
  }

  /** The box is at the best slot of the fence; one too wide for the container is at the wall, on top of all. */
  ghost predicate BestSeat(sky: Fence, extent: Size, width: real, gap: real, commit: bool, w: real, h: real, at: Point) {
    if w <= width + gap then
      exists best: Slot :: best.x == at.x && best.y == at.y
        && (exists k :: 0 <= k < |sky| && SlotAt(sky, k, extent, width, gap, commit, w, h, best))
        && (forall k, s :: 0 <= k < |sky| && SlotAt(sky, k, extent, width, gap, commit, w, h, s) ==> AsGood(best, s))
    else
      at.x == 0.0 && (forall k :: 0 <= k < |sky| ==> sky[k].top <= at.y) && (exists k :: 0 <= k < |sky| && sky[k].top == at.y)
  }

  /** `best` is as good as the slot of any of the first `n` nodes, and one of them; None when none leaves room. */
  ghost predicate BestOf(sky: Fence, n: nat, extent: Size, width: real, gap: real, commit: bool, w: real, h: real, best: Option<Slot>)
    requires n <= |sky|
  {
    && (best.None? <==> forall k :: 0 <= k < n ==> sky[k].x + w > width + gap)
    && (best.Some? ==>
          && (exists k :: 0 <= k < n && SlotAt(sky, k, extent, width, gap, commit, w, h, best.value))
          && (forall k, s :: 0 <= k < n && SlotAt(sky, k, extent, width, gap, commit, w, h, s) ==> AsGood(best.value, s)))
  }

  /** The best slot of the whole fence, if the box fits between the walls anywhere. */
  method PickSlot(sky: Fence, extent: Size, width: real, gap: real, commit: bool, w: real, h: real)
    returns (best: Option<Slot>)
    requires Valid(sky) && w > 0.0
    ensures BestOf(sky, |sky|, extent, width, gap, commit, w, h, best)
  {
    hide BestOf, IsLedge, Valid;
    best := None;
    NoSlots(sky, extent, width, gap, commit, w, h);
    for node := 0 to |sky|
      invariant BestOf(sky, node, extent, width, gap, commit, w, h, best)
    {
      var x := sky[node].x;
      NodesRight(sky, node);
      if x + w > width + gap {
        NoRoomThere(sky, node, extent, width, gap, commit, w, h, best);
        continue;
      }
      var y := Ledge(sky, x, w);
      var slot := Slot(Grown(extent, width, gap, commit, w, h, x, y), x, y);
      NextSlot(sky, node, extent, width, gap, commit, w, h, best, slot);
      if best.None? || Better(slot, best.value) {
        best := Some(slot);
      }
    }
  }

  lemma NodesRight(sky: Fence, k: nat)
    requires Valid(sky) && k < |sky|
    ensures sky[k].x >= 0.0
  {
    assert sky[0].x == 0.0;
  }

  lemma NoSlots(sky: Fence, extent: Size, width: real, gap: real, commit: bool, w: real, h: real)
    ensures BestOf(sky, 0, extent, width, gap, commit, w, h, None)
  {
  }

  lemma NoRoomThere(sky: Fence, n: nat, extent: Size, width: real, gap: real, commit: bool, w: real, h: real, best: Option<Slot>)
    requires n < |sky| && BestOf(sky, n, extent, width, gap, commit, w, h, best) && sky[n].x + w > width + gap
    ensures BestOf(sky, n + 1, extent, width, gap, commit, w, h, best)
  {
    hide IsLedge;
  }

  lemma NextSlot(sky: Fence, n: nat, extent: Size, width: real, gap: real, commit: bool, w: real, h: real, best: Option<Slot>, slot: Slot)
    requires n < |sky| && BestOf(sky, n, extent, width, gap, commit, w, h, best)
    requires SlotAt(sky, n, extent, width, gap, commit, w, h, slot)
    ensures BestOf(sky, n + 1, extent, width, gap, commit, w, h,
                   if best.None? || Better(slot, best.value) then Some(slot) else best)
  {
    hide SlotAt, AsGood;
    OnlySlot(sky, n, extent, width, gap, commit, w, h, slot);
    OtherSlots(sky, n, extent, width, gap, commit, w, h, best, slot);
    var now := if best.None? || Better(slot, best.value) then slot else best.value;
    KeptIsAsGood(best, slot);
    forall k, s | 0 <= k < n + 1 && SlotAt(sky, k, extent, width, gap, commit, w, h, s)
      ensures AsGood(now, s)
    {
      if k < n {
        AsGoodThrough(now, best.value, s);
      }
    }
    if now != slot {
      var k :| 0 <= k < n && SlotAt(sky, k, extent, width, gap, commit, w, h, now);
    }
  }

  lemma OnlySlot(sky: Fence, n: nat, extent: Size, width: real, gap: real, commit: bool, w: real, h: real, slot: Slot)
    requires n < |sky| && SlotAt(sky, n, extent, width, gap, commit, w, h, slot)
    ensures forall s :: SlotAt(sky, n, extent, width, gap, commit, w, h, s) ==> s == slot
  {
    hide IsLedge;
    forall s | SlotAt(sky, n, extent, width, gap, commit, w, h, s)
      ensures s == slot
    {
      LedgeUnique(sky, slot.x, w, slot.y, s.y);
    }
  }

  lemma KeptIsAsGood(best: Option<Slot>, slot: Slot)
    ensures var now := if best.None? || Better(slot, best.value) then slot else best.value;
            AsGood(now, slot) && (best.Some? ==> AsGood(now, best.value))
  {
  }

  lemma AsGoodThrough(a: Slot, b: Slot, c: Slot)
    requires AsGood(a, b) && AsGood(b, c)
    ensures AsGood(a, c)
  {
  }

  lemma OtherSlots(sky: Fence, n: nat, extent: Size, width: real, gap: real, commit: bool, w: real, h: real, best: Option<Slot>, slot: Slot)
    requires n < |sky| && BestOf(sky, n, extent, width, gap, commit, w, h, best) && SlotAt(sky, n, extent, width, gap, commit, w, h, slot)
    ensures sky[n].x + w <= width + gap
    ensures best.None? ==> forall k, s :: 0 <= k < n ==> !SlotAt(sky, k, extent, width, gap, commit, w, h, s)
  {
    hide IsLedge;
  }

  lemma LedgeUnique(sky: Fence, x: real, w: real, y: real, y': real)
    requires IsLedge(sky, x, w, y) && IsLedge(sky, x, w, y')
    ensures y == y'
  {
  }

  // ---- the packer ----

  /** Whether box `i`, grown by the gap on its right, stands over `p`. */
  ghost predicate Covers(at: seq<Point>, sizes: seq<Size>, gap: real, i: nat, p: real)
    requires i < |at| == |sizes|
  {
    at[i].x <= p < at[i].x + sizes[i].w + gap
  }

  /** The top of box `i`, gap included. */
  ghost function Roof(at: seq<Point>, sizes: seq<Size>, gap: real, i: nat): real
    requires i < |at| == |sizes|
  {
    at[i].y + sizes[i].h + gap
  }

  /** The fence is exactly the upper outline of the boxes placed so far. */
  ghost predicate Outline(sky: Fence, at: seq<Point>, sizes: seq<Size>, gap: real, done: seq<nat>)
    requires |at| == |sizes| && forall i :: i in done ==> i < |at|
  {
    forall p {:trigger HeightOver(sky, p)} :: p >= 0.0 ==>
      && (forall i :: i in done && Covers(at, sizes, gap, i, p) ==> Roof(at, sizes, gap, i) <= HeightOver(sky, p))
      && (HeightOver(sky, p) == 0.0
          || exists i :: i in done && Covers(at, sizes, gap, i, p) && Roof(at, sizes, gap, i) == HeightOver(sky, p))
  }

  /** Box `i` lies on the floor or right on top of a box it stands over. */
  ghost predicate Supported(at: seq<Point>, sizes: seq<Size>, gap: real, i: nat, below: seq<nat>)
    requires i < |at| == |sizes| && forall j :: j in below ==> j < |at|
  {
    || at[i].y == 0.0
    || exists j, p :: j in below && Covers(at, sizes, gap, j, p) && Covers(at, sizes, gap, i, p) && Roof(at, sizes, gap, j) == at[i].y
  }

  /** Every box of `done` is right of the wall, above the floor, and clear of the others. */
  ghost predicate Settled(at: seq<Point>, sizes: seq<Size>, gap: real, done: seq<nat>)
    requires |at| == |sizes| && forall i :: i in done ==> i < |at|
  {
    && (forall i :: i in done ==> at[i].x >= 0.0 && at[i].y >= 0.0)
    && (forall i, j :: i in done && j in done && i != j ==> Apart(Box(at[i], sizes[i]), Box(at[j], sizes[j]), gap))
  }

  /** The new box clears every earlier one: a box sharing its stretch of floor is under the fence. */
  lemma {:induction false} NewBoxIsClear(sky: Fence, at: seq<Point>, sizes: seq<Size>, gap: real, done: seq<nat>, i: nat, j: nat)
    requires |at| == |sizes| && AllNatural(sizes) && gap > 0.0
    requires i < |at| && forall k :: k in done ==> k < |at|
    requires Outline(sky, at, sizes, gap, done) && j in done
    requires at[i].x >= 0.0 && at[j].x >= 0.0
    requires forall p :: Covers(at, sizes, gap, i, p) ==> HeightOver(sky, p) <= at[i].y
    ensures Apart(Box(at[i], sizes[i]), Box(at[j], sizes[j]), gap)
    ensures Apart(Box(at[j], sizes[j]), Box(at[i], sizes[i]), gap)
  {
    var p := Max(at[i].x, at[j].x);
    if Covers(at, sizes, gap, i, p) && Covers(at, sizes, gap, j, p) {
      assert Roof(at, sizes, gap, j) <= HeightOver(sky, p) <= at[i].y;
    }
  }

  /** Raising the fence under the new box keeps it the outline of all boxes placed. */
  lemma {:induction false} OutlineKept(sky: Fence, sky': Fence, at: seq<Point>, sizes: seq<Size>, gap: real, done: seq<nat>, done': seq<nat>, i: nat)
    requires |at| == |sizes| && AllNatural(sizes) && gap > 0.0
    requires i < |at| && forall k :: k in done ==> k < |at|
    requires forall k :: k in done' <==> k in done || k == i
    requires Outline(sky, at, sizes, gap, done) && i !in done
    requires at[i].x >= 0.0 && at[i].y >= 0.0
    requires forall p :: Covers(at, sizes, gap, i, p) ==> HeightOver(sky, p) <= at[i].y
    requires forall p :: p >= 0.0 ==>
      HeightOver(sky', p) == if Covers(at, sizes, gap, i, p) then Roof(at, sizes, gap, i) else HeightOver(sky, p)
    ensures Outline(sky', at, sizes, gap, done')
  {
  }

  /** The greatest height of the whole fence, where a box too wide for the container goes. */
  method Summit(sky: Fence) returns (y: real)
    requires Valid(sky)
    ensures y >= 0.0 && (forall k :: 0 <= k < |sky| ==> sky[k].top <= y) && (exists k :: 0 <= k < |sky| && sky[k].top == y)
    ensures forall p :: p >= 0.0 ==> HeightOver(sky, p) <= y
  {
    y := 0.0;
    for k := 0 to |sky|
      invariant y >= 0.0 && (k == 0 ==> y == 0.0)
      invariant forall j :: 0 <= j < k ==> sky[j].top <= y
      invariant k > 0 ==> exists j :: 0 <= j < k && sky[j].top == y
    {
      y := Max(y, sky[k].top);
    }
    forall p | p >= 0.0
      ensures HeightOver(sky, p) <= y
    {
      var k := SomeNodeGoverns(sky, p);
    }
  }

  /** Where the next box goes: its best slot, else on top of everything. */
  method Seat(sky: Fence, extent: Size, width: real, gap: real, commit: bool, w: real, h: real)
    returns (x: real, y: real)
    requires Valid(sky) && w > 0.0
    ensures x >= 0.0 && y >= 0.0
    ensures forall p :: x <= p < x + w ==> HeightOver(sky, p) <= y
    ensures w <= width + gap ==> x + w <= width + gap && IsLedge(sky, x, w, y)
    ensures BestSeat(sky, extent, width, gap, commit, w, h, Point(x, y))
  {
    var slot := PickSlot(sky, extent, width, gap, commit, w, h);
    if slot.None? {
      assert sky[0].x + w > width + gap;
      x := 0.0;
      y := Summit(sky);
    } else {
      x, y := slot.value.x, slot.value.y;
    }
  }

  /** The bounding box of the boxes `done`. */
  function ExtentOf(at: seq<Point>, sizes: seq<Size>, done: seq<nat>): Size
    requires |at| == |sizes| && forall k :: 0 <= k < |done| ==> done[k] < |at|
  {
    if done == [] then Size(0.0, 0.0)
    else
      var rest, i := ExtentOf(at, sizes, done[..|done| - 1]), done[|done| - 1];
      Size(Max(rest.w, at[i].x + sizes[i].w), Max(rest.h, at[i].y + sizes[i].h))
  }

  /** The `n`th box of the order has the best seat on the outline of those before it. */
  ghost predicate InTurn(at: seq<Point>, sizes: seq<Size>, width: real, gap: real, commit: bool, order: seq<nat>, n: nat)
    requires |at| == |sizes| && n < |order| && forall k :: 0 <= k < |order| ==> order[k] < |at|
  {
    exists sky: Fence :: Valid(sky) && Outline(sky, at, sizes, gap, order[..n])
      && BestSeat(sky, ExtentOf(at, sizes, order[..n]), width, gap, commit, sizes[order[n]].w + gap, sizes[order[n]].h + gap, at[order[n]])
  }

  /** Every index once: the longer side first, and those of one length as they are listed. */
  ghost predicate LongestFirst(order: seq<nat>, sizes: seq<Size>) {
    && Permutation(order, |sizes|)
    && (forall a, b :: 0 <= a < b < |order| && order[a] < |sizes| && order[b] < |sizes| ==>
          var s, t := sizes[order[a]], sizes[order[b]];
          Max(s.w, s.h) > Max(t.w, t.h) || (Max(s.w, s.h) == Max(t.w, t.h) && order[a] < order[b]))
  }

  /** The best-fit packing of a container `width` wide. */
  ghost predicate BestFit(at: seq<Point>, sizes: seq<Size>, width: real, gap: real, commit: bool, order: seq<nat>) {
    && |at| == |sizes| && LongestFirst(order, sizes)
    && (forall k :: 0 <= k < |order| ==> order[k] < |at|)
    && (forall n :: 0 <= n < |order| ==> InTurn(at, sizes, width, gap, commit, order, n))
  }

  lemma {:induction false} ExtentStays(at: seq<Point>, at': seq<Point>, sizes: seq<Size>, done: seq<nat>)
    requires |at| == |at'| == |sizes| && (forall k :: 0 <= k < |done| ==> done[k] < |at| && at'[done[k]] == at[done[k]])
    ensures ExtentOf(at', sizes, done) == ExtentOf(at, sizes, done)
  {
    if done != [] {
      ExtentStays(at, at', sizes, done[..|done| - 1]);
    }
  }

  lemma {:induction false} ExtentNext(at: seq<Point>, sizes: seq<Size>, done: seq<nat>, i: nat)
    requires |at| == |sizes| && i < |at| && forall k :: 0 <= k < |done| ==> done[k] < |at|
    ensures var e := ExtentOf(at, sizes, done);
            ExtentOf(at, sizes, done + [i]) == Size(Max(e.w, at[i].x + sizes[i].w), Max(e.h, at[i].y + sizes[i].h))
  {
    assert (done + [i])[..|done|] == done;
  }

  /** A box that is not placed yet makes no difference to the outline of those that are. */
  lemma OutlineStays(sky: Fence, at: seq<Point>, at': seq<Point>, sizes: seq<Size>, gap: real, done: seq<nat>)
    requires |at| == |at'| == |sizes| && (forall i :: i in done ==> i < |at| && at'[i] == at[i])
    requires Outline(sky, at, sizes, gap, done)
    ensures Outline(sky, at', sizes, gap, done)
  {
    forall p | p >= 0.0
      ensures HeightOver(sky, p) == 0.0
        || exists i :: i in done && Covers(at', sizes, gap, i, p) && Roof(at', sizes, gap, i) == HeightOver(sky, p)
    {
      if HeightOver(sky, p) != 0.0 {
        var i :| i in done && Covers(at, sizes, gap, i, p) && Roof(at, sizes, gap, i) == HeightOver(sky, p);
        assert Covers(at', sizes, gap, i, p);
      }
    }
  }

  lemma InTurnStays(at: seq<Point>, at': seq<Point>, sizes: seq<Size>, width: real, gap: real, commit: bool, order: seq<nat>, n: nat)
    requires |at| == |at'| == |sizes| && n < |order| && (forall k :: 0 <= k < |order| ==> order[k] < |at|)
    requires forall k :: 0 <= k <= n ==> at'[order[k]] == at[order[k]]
    requires InTurn(at, sizes, width, gap, commit, order, n)
    ensures InTurn(at', sizes, width, gap, commit, order, n)
  {
    hide BestSeat, Outline, Valid;
    var sky: Fence :| Valid(sky) && Outline(sky, at, sizes, gap, order[..n])
      && BestSeat(sky, ExtentOf(at, sizes, order[..n]), width, gap, commit, sizes[order[n]].w + gap, sizes[order[n]].h + gap, at[order[n]]);
    OutlineStays(sky, at, at', sizes, gap, order[..n]);
    ExtentStays(at, at', sizes, order[..n]);
  }

  /** Everything known of the boxes `done` besides the fence over them. */
  ghost predicate Packed(at: seq<Point>, sizes: seq<Size>, width: real, gap: real, extent: Size, done: seq<nat>) {
    && |at| == |sizes| && (forall i :: i in done ==> i < |at|)
    && Settled(at, sizes, gap, done)
    && extent.Natural()
    && (forall i :: i in done ==> at[i].x + sizes[i].w <= extent.w && at[i].y + sizes[i].h <= extent.h)
    && (extent.w == 0.0 || exists i :: i in done && extent.w == at[i].x + sizes[i].w)
    && (extent.h == 0.0 || exists i :: i in done && extent.h == at[i].y + sizes[i].h)
    && (AllFit(sizes, width) ==>
          forall i :: i in done ==> at[i].x + sizes[i].w <= width && Supported(at, sizes, gap, i, done))
  }

  ghost predicate AllFit(sizes: seq<Size>, width: real) {
    forall i :: 0 <= i < |sizes| ==> sizes[i].w <= width
  }

  /** Moving a box that is not placed yet changes nothing for those that are. */
  lemma UnplacedIsFree(sky: Fence, at: seq<Point>, at': seq<Point>, sizes: seq<Size>, width: real, gap: real, extent: Size, done: seq<nat>)
    requires Packed(at, sizes, width, gap, extent, done) && Outline(sky, at, sizes, gap, done)
    requires |at'| == |at| && forall i :: i in done ==> at'[i] == at[i]
    ensures Packed(at', sizes, width, gap, extent, done) && Outline(sky, at', sizes, gap, done)
  {
    hide Outline;
    OutlineStays(sky, at, at', sizes, gap, done);
    forall i | AllFit(sizes, width) && i in done
      ensures Supported(at', sizes, gap, i, done)
    {
      if at[i].y != 0.0 {
        var j, p :| j in done && Covers(at, sizes, gap, j, p) && Covers(at, sizes, gap, i, p) && Roof(at, sizes, gap, j) == at[i].y;
        assert Covers(at', sizes, gap, j, p) && Covers(at', sizes, gap, i, p);
      }
    }
  }

  /** A box on the ledge over the outline rests on the box whose roof that ledge is. */
  lemma LedgeSupports(sky: Fence, at: seq<Point>, sizes: seq<Size>, gap: real, done: seq<nat>, i: nat)
    requires |at| == |sizes| && i < |at| && forall k :: k in done ==> k < |at|
    requires Outline(sky, at, sizes, gap, done) && at[i].x >= 0.0
    requires IsLedge(sky, at[i].x, sizes[i].w + gap, at[i].y)
    ensures Supported(at, sizes, gap, i, done)
  {
    var p :| at[i].x <= p < at[i].x + (sizes[i].w + gap) && HeightOver(sky, p) == at[i].y;
    assert Covers(at, sizes, gap, i, p);
  }

  lemma MoreSupport(at: seq<Point>, sizes: seq<Size>, gap: real, j: nat, done: seq<nat>, i: nat)
    requires |at| == |sizes| && j < |sizes| && (forall k :: k in done ==> k < |sizes|)
    requires Supported(at, sizes, gap, j, done) && i < |sizes|
    ensures Supported(at, sizes, gap, j, done + [i])
  {
    if at[j].y != 0.0 {
      var k, p :| k in done && Covers(at, sizes, gap, k, p) && Covers(at, sizes, gap, j, p) && Roof(at, sizes, gap, k) == at[j].y;
      assert k in done + [i];
    }
  }

  /** One more box keeps the packing in order. */
  lemma {:induction false} PackedStep(sky: Fence, at: seq<Point>, sizes: seq<Size>, width: real, gap: real, extent: Size, done: seq<nat>, i: nat)
    requires AllNatural(sizes) && gap > 0.0 && i < |sizes| && i !in done
    requires Packed(at, sizes, width, gap, extent, done) && Outline(sky, at, sizes, gap, done)
    requires at[i].x >= 0.0 && at[i].y >= 0.0
    requires forall p :: Covers(at, sizes, gap, i, p) ==> HeightOver(sky, p) <= at[i].y
    requires AllFit(sizes, width) ==> at[i].x + sizes[i].w <= width && Supported(at, sizes, gap, i, done)
    ensures Packed(at, sizes, width, gap, Size(Max(extent.w, at[i].x + sizes[i].w), Max(extent.h, at[i].y + sizes[i].h)), done + [i])
  {
    hide Apart, Roof, HeightOver, Supported;
    forall j | j in done
      ensures Apart(Box(at[i], sizes[i]), Box(at[j], sizes[j]), gap)
      ensures Apart(Box(at[j], sizes[j]), Box(at[i], sizes[i]), gap)
    {
      NewBoxIsClear(sky, at, sizes, gap, done, i, j);
    }
    forall j | AllFit(sizes, width) && j in done + [i]
      ensures Supported(at, sizes, gap, j, done + [i])
    {
      MoreSupport(at, sizes, gap, j, done, i);
    }
    var more := Size(Max(extent.w, at[i].x + sizes[i].w), Max(extent.h, at[i].y + sizes[i].h));
    assert i in done + [i];
    assert more.w == 0.0 || exists j :: j in done + [i] && more.w == at[j].x + sizes[j].w;
    assert more.h == 0.0 || exists j :: j in done + [i] && more.h == at[j].y + sizes[j].h;
  }

  function Longest(s: Size): real {
    Max(s.w, s.h)
  }

  /** Seating a box on the outline keeps everything known of the packing. */
  lemma {:induction false} BoxSeated(sky: Fence, at: seq<Point>, sizes: seq<Size>, width: real, gap: real, extent: Size,
                  done: seq<nat>, ix: nat)
    requires AllNatural(sizes) && gap > 0.0 && ix < |sizes| && ix !in done
    requires Packed(at, sizes, width, gap, extent, done) && Outline(sky, at, sizes, gap, done)
    requires at[ix].x >= 0.0 && at[ix].y >= 0.0
    requires forall p :: Covers(at, sizes, gap, ix, p) ==> HeightOver(sky, p) <= at[ix].y
    requires sizes[ix].w <= width ==>
      at[ix].x + sizes[ix].w <= width && IsLedge(sky, at[ix].x, sizes[ix].w + gap, at[ix].y)
    ensures Packed(at, sizes, width, gap, Size(Max(extent.w, at[ix].x + sizes[ix].w), Max(extent.h, at[ix].y + sizes[ix].h)), done + [ix])
  {
    hide Settled, Supported, HeightOver;
    if AllFit(sizes, width) {
      LedgeSupports(sky, at, sizes, gap, done, ix);
    }
    PackedStep(sky, at, sizes, width, gap, extent, done, ix);
  }

  /** One step of the packer: seat box `ix`, and raise the fence over it. */
  method PlaceBox(sky: Fence, at: seq<Point>, extent: Size, sizes: seq<Size>, width: real, gap: real, commit: bool,
                  ix: nat, ghost done: seq<nat>)
    returns (sky': Fence, at': seq<Point>, extent': Size)
    requires AllNatural(sizes) && gap > 0.0 && ix < |sizes| && ix !in done
    requires Packed(at, sizes, width, gap, extent, done)
    requires Valid(sky) && Outline(sky, at, sizes, gap, done)
    ensures Valid(sky') && |at'| == |sizes| && Packed(at', sizes, width, gap, extent', done + [ix])
    ensures Outline(sky', at', sizes, gap, done + [ix])
    ensures extent' == Size(Max(extent.w, at'[ix].x + sizes[ix].w), Max(extent.h, at'[ix].y + sizes[ix].h))
    ensures BestSeat(sky, extent, width, gap, commit, sizes[ix].w + gap, sizes[ix].h + gap, at'[ix])
    ensures forall i :: 0 <= i < |at| && i != ix ==> at'[i] == at[i]
  {
    hide Settled, BestSeat;
    var w, h := sizes[ix].w + gap, sizes[ix].h + gap;
    var x, y := Seat(sky, extent, width, gap, commit, w, h);
    sky' := RaiseFence(sky, x, w, y + h);
    at' := at[ix := Point(x, y)];
    extent' := Size(Max(extent.w, x + w - gap), Max(extent.h, y + h - gap));
    UnplacedIsFree(sky, at, at', sizes, width, gap, extent, done);
    BoxSeated(sky, at', sizes, width, gap, extent, done, ix);
    OutlineKept(sky, sky', at', sizes, gap, done, done + [ix], ix);
  }

  /** The first `n` boxes of the order have been placed, each in its turn. */
  ghost predicate PlacedUpTo(sky: Fence, at: seq<Point>, extent: Size, sizes: seq<Size>, width: real, gap: real, commit: bool, order: seq<nat>, n: nat) {
    && n <= |order| && |at| == |sizes| && Permutation(order, |sizes|) && Valid(sky)
    && Packed(at, sizes, width, gap, extent, order[..n])
    && Outline(sky, at, sizes, gap, order[..n])
    && (forall k :: 0 <= k < |order| ==> order[k] < |at|)
    && extent == ExtentOf(at, sizes, order[..n])
    && (forall m :: 0 <= m < n ==> InTurn(at, sizes, width, gap, commit, order, m))
  }

  method PlaceNext(sky: Fence, at: seq<Point>, extent: Size, sizes: seq<Size>, width: real, gap: real, commit: bool, order: seq<nat>, n: nat)
    returns (sky': Fence, at': seq<Point>, extent': Size)
    requires gap > 0.0 && AllNatural(sizes)
    requires PlacedUpTo(sky, at, extent, sizes, width, gap, commit, order, n) && n < |order|
    ensures PlacedUpTo(sky', at', extent', sizes, width, gap, commit, order, n + 1)
  {
    hide Packed, Outline, Valid, BestSeat, InTurn, ExtentOf, Permutation;
    NextIsUnplaced(order, |sizes|, n);
    sky', at', extent' := PlaceBox(sky, at, extent, sizes, width, gap, commit, order[n], order[..n]);
    NextInTurn(sky, at, at', sizes, width, gap, commit, order, n);
  }

  lemma NextIsUnplaced(order: seq<nat>, count: nat, n: nat)
    requires Permutation(order, count) && n < |order|
    ensures Distinct(order) && order[n] !in order[..n] && order[..n + 1] == order[..n] + [order[n]]
  {
  }

  lemma NothingPlaced(at: seq<Point>, sizes: seq<Size>, width: real, gap: real, commit: bool, order: seq<nat>)
    requires |at| == |sizes| && Permutation(order, |sizes|)
    ensures PlacedUpTo([Node(0.0, 0.0)], at, Size(0.0, 0.0), sizes, width, gap, commit, order, 0)
  {
    hide Packed, Outline, Valid, ExtentOf;
    assert order[..0] == [];
    assert forall k :: 0 <= k < |order| ==> order[k] in order;
    NothingPacked([Node(0.0, 0.0)], at, sizes, width, gap);
  }

  /** Every box is placed, the longest first, each at the best seat there is; no two are closer than `gap`;
      the extent is the exact bounding box; and when every box fits the container, none passes its wall and
      none floats. */
  method PackSkyline(sizes: seq<Size>, width: real, gap: real, commit: bool) returns (at: seq<Point>, extent: Size, ghost order: seq<nat>)
    requires gap > 0.0 && AllNatural(sizes)
    ensures BestFit(at, sizes, width, gap, commit, order)
    ensures |at| == |sizes|
    ensures Separated(at, sizes, gap)
    ensures ExactExtent(at, sizes, extent, Indices(sizes))
    ensures AllFit(sizes, width) ==> forall i :: 0 <= i < |sizes| ==>
      at[i].x + sizes[i].w <= width && Supported(at, sizes, gap, i, Range(|sizes|))
  {
    hide PlacedUpTo, LongestFirst, AllFit, Supported, Separated, ExactExtent, Permutation, BestFit;
    var line := SortBy(ByLength(sizes), Range(|sizes|));
    LongestAreFirst(sizes);
    OrderIsPermutation(line, sizes);
    order := line;
    var sky := [Node(0.0, 0.0)];
    at := seq(|sizes|, _ => Point(0.0, 0.0));
    extent := Size(0.0, 0.0);
    NothingPlaced(at, sizes, width, gap, commit, line);
    for n := 0 to |line|
      invariant PlacedUpTo(sky, at, extent, sizes, width, gap, commit, line, n)
    {
      sky, at, extent := PlaceNext(sky, at, extent, sizes, width, gap, commit, line, n);
    }
    AllInTurn(sky, at, extent, sizes, width, gap, commit, line);
    AllPlaced(at, sizes, width, gap, extent, line);
  }

  lemma AllInTurn(sky: Fence, at: seq<Point>, extent: Size, sizes: seq<Size>, width: real, gap: real, commit: bool, order: seq<nat>)
    requires LongestFirst(order, sizes) && PlacedUpTo(sky, at, extent, sizes, width, gap, commit, order, |order|)
    ensures |at| == |sizes| && BestFit(at, sizes, width, gap, commit, order) && Packed(at, sizes, width, gap, extent, order)
  {
    hide Packed, Outline, Valid, InTurn, ExtentOf, LongestFirst, Permutation;
    assert order[..|order|] == order;
  }

  function ByLength(sizes: seq<Size>): nat -> real {
    (ix: nat) => if ix < |sizes| then -Longest(sizes[ix]) else 0.0
  }

  lemma LongestAreFirst(sizes: seq<Size>)
    ensures LongestFirst(SortBy(ByLength(sizes), Range(|sizes|)), sizes)
  {
    SortedRangeThen(ByLength(sizes), |sizes|);
  }

  lemma OrderIsPermutation(order: seq<nat>, sizes: seq<Size>)
    requires LongestFirst(order, sizes)
    ensures Permutation(order, |sizes|)
  {
  }

  lemma {:induction false} NothingPacked(sky: Fence, at: seq<Point>, sizes: seq<Size>, width: real, gap: real)
    requires sky == [Node(0.0, 0.0)] && |at| == |sizes|
    ensures Valid(sky) && Packed(at, sizes, width, gap, Size(0.0, 0.0), []) && Outline(sky, at, sizes, gap, [])
    ensures ExtentOf(at, sizes, []) == Size(0.0, 0.0)
  {
  }

  /** The box just placed was in turn, and those before it still are. */
  lemma {:induction false} NextInTurn(sky: Fence, was: seq<Point>, at: seq<Point>, sizes: seq<Size>, width: real, gap: real, commit: bool, order: seq<nat>, n: nat)
    requires |was| == |at| == |sizes| && n < |order| && Distinct(order) && forall k :: 0 <= k < |order| ==> order[k] < |at|
    requires forall i :: 0 <= i < |at| && i != order[n] ==> at[i] == was[i]
    requires Valid(sky) && Outline(sky, was, sizes, gap, order[..n])
    requires BestSeat(sky, ExtentOf(was, sizes, order[..n]), width, gap, commit, sizes[order[n]].w + gap, sizes[order[n]].h + gap, at[order[n]])
    requires forall m :: 0 <= m < n ==> InTurn(was, sizes, width, gap, commit, order, m)
    ensures forall m :: 0 <= m <= n ==> InTurn(at, sizes, width, gap, commit, order, m)
    ensures var e := ExtentOf(was, sizes, order[..n]);
            ExtentOf(at, sizes, order[..n + 1]) == Size(Max(e.w, at[order[n]].x + sizes[order[n]].w), Max(e.h, at[order[n]].y + sizes[order[n]].h))
  {
    hide InTurn, BestSeat, Outline, Valid;
    forall k | 0 <= k < n
      ensures at[order[k]] == was[order[k]]
    {
    }
    OutlineStays(sky, was, at, sizes, gap, order[..n]);
    ExtentStays(was, at, sizes, order[..n]);
    assert order[..n + 1] == order[..n] + [order[n]];
    ExtentNext(at, sizes, order[..n], order[n]);
    ThisInTurn(sky, at, sizes, width, gap, commit, order, n);
    forall m | 0 <= m < n
      ensures InTurn(at, sizes, width, gap, commit, order, m)
    {
      InTurnStays(was, at, sizes, width, gap, commit, order, m);
    }
  }

  lemma {:induction false} ThisInTurn(sky: Fence, at: seq<Point>, sizes: seq<Size>, width: real, gap: real, commit: bool, order: seq<nat>, n: nat)
    requires |at| == |sizes| && n < |order| && forall k :: 0 <= k < |order| ==> order[k] < |at|
    requires Valid(sky) && Outline(sky, at, sizes, gap, order[..n])
    requires BestSeat(sky, ExtentOf(at, sizes, order[..n]), width, gap, commit, sizes[order[n]].w + gap, sizes[order[n]].h + gap, at[order[n]])
    ensures InTurn(at, sizes, width, gap, commit, order, n)
  {
    hide BestSeat, Outline, Valid;
  }

  lemma AllPlaced(at: seq<Point>, sizes: seq<Size>, width: real, gap: real, extent: Size, order: seq<nat>)
    requires Permutation(order, |sizes|) && Packed(at, sizes, width, gap, extent, order)
    ensures Separated(at, sizes, gap)
    ensures ExactExtent(at, sizes, extent, Indices(sizes))
    ensures AllFit(sizes, width) ==> forall i :: 0 <= i < |sizes| ==>
      at[i].x + sizes[i].w <= width && Supported(at, sizes, gap, i, Range(|sizes|))
  {
    forall i | AllFit(sizes, width) && 0 <= i < |sizes|
      ensures Supported(at, sizes, gap, i, Range(|sizes|))
    {
      assert i in order;
      if at[i].y != 0.0 {
        var j, p :| j in order && Covers(at, sizes, gap, j, p) && Covers(at, sizes, gap, i, p) && Roof(at, sizes, gap, j) == at[i].y;
        assert Range(|sizes|)[j] == j;
      }
    }
  }

  // ---- trying several containers ----

  function Widest(sizes: seq<Size>): (w: real)
    ensures w >= 0.0 && AllFit(sizes, w)
  {
    if sizes == [] then 0.0 else Max(Widest(sizes[..|sizes| - 1]), sizes[|sizes| - 1].w)
  }

  /** What every container tried by PackBest is good for. */
  ghost predicate GoodPacking(p: Packing, sizes: seq<Size>, gap: real) {
    && |p.at| == |sizes|
    && Separated(p.at, sizes, gap)
    && ExactExtent(p.at, sizes, p.extent, Indices(sizes))
    && (forall i :: 0 <= i < |sizes| ==> Supported(p.at, sizes, gap, i, Range(|sizes|)))
  }

  /** `best` is the first of the packings tried that no other scores less than. */
  ghost predicate FirstLeast(best: Packing, tried: seq<Packing>, score: Size -> real) {
    exists k :: 0 <= k < |tried| && tried[k] == best
                && (forall i :: 0 <= i < |tried| ==> score(best.extent) <= score(tried[i].extent))
                && (forall i :: 0 <= i < k ==> score(best.extent) < score(tried[i].extent))
  }

  lemma FirstTried(p: Packing, score: Size -> real)
    ensures FirstLeast(p, [] + [p], score)
  {
    assert ([] + [p])[0] == p;
  }

  lemma NextTried(best: Packing, tried: seq<Packing>, next: Packing, score: Size -> real)
    requires FirstLeast(best, tried, score)
    ensures FirstLeast(if score(next.extent) < score(best.extent) then next else best, tried + [next], score)
  {
    var more := tried + [next];
    assert more[|tried|] == next;
    var k :| 0 <= k < |tried| && tried[k] == best
             && (forall i :: 0 <= i < |tried| ==> score(best.extent) <= score(tried[i].extent))
             && (forall i :: 0 <= i < k ==> score(best.extent) < score(tried[i].extent));
    assert more[k] == best;
  }

  /** A best-fit packing of a container `width` wide, and no box too wide for that. */
  ghost predicate Fitted(p: Packing, sizes: seq<Size>, width: real, gap: real, commit: bool) {
    GoodPacking(p, sizes, gap) && p.extent.w <= Max(width, 0.0) && exists order: seq<nat> :: BestFit(p.at, sizes, width, gap, commit, order)
  }

  /** `best` is the first of four best-fit packings that scores least. Their containers are 0.7, 1.0, 1.4 and
      1.9 times `side` wide, and each at least as wide as the widest box. */
  ghost predicate BestOfFour(best: Packing, sizes: seq<Size>, gap: real, side: real, commit: bool, score: Size -> real) {
    exists tried: seq<Packing> :: |tried| == 4 && FirstLeast(best, tried, score)
      && Fitted(tried[0], sizes, Max(side * 0.7, Widest(sizes)), gap, commit)
      && Fitted(tried[1], sizes, Max(side * 1.0, Widest(sizes)), gap, commit)
      && Fitted(tried[2], sizes, Max(side * 1.4, Widest(sizes)), gap, commit)
      && Fitted(tried[3], sizes, Max(side * 1.9, Widest(sizes)), gap, commit)
  }

  lemma BestIsFitted(best: Packing, sizes: seq<Size>, gap: real, side: real, commit: bool, score: Size -> real)
    requires BestOfFour(best, sizes, gap, side, commit, score)
    ensures GoodPacking(best, sizes, gap)
  {
    hide GoodPacking, BestFit, Widest;
  }

  /** The first of four widths hung off `side` that scores least. The containers tried are at least as wide as
      the widest box, so the packer's fall-back branch is never taken. */
  method PackBest(sizes: seq<Size>, gap: real, side: real, commit: bool, score: Size -> real) returns (best: Packing)
    requires gap > 0.0 && AllNatural(sizes)
    ensures GoodPacking(best, sizes, gap)
    ensures BestOfFour(best, sizes, gap, side, commit, score)
  {
    hide Widest, GoodPacking, BestFit, FirstLeast, Fitted;
    var ratios := [0.7, 1.0, 1.4, 1.9];
    best := Packing([], Size(0.0, 0.0));
    ghost var tried: seq<Packing>, widths: seq<real> := [], [];
    for n := 0 to |ratios|
      invariant |tried| == n
      invariant n > 0 ==> FirstLeast(best, tried, score)
      invariant |widths| == n && forall m :: 0 <= m < n ==> widths[m] == Max(side * ratios[m], Widest(sizes))
      invariant forall m :: 0 <= m < n ==> Fitted(tried[m], sizes, widths[m], gap, commit)
    {
      var width := Max(side * ratios[n], Widest(sizes));
      var at, extent, order := PackSkyline(sizes, width, gap, commit);
      var packed := Packing(at, extent);
      FitsIn(packed, sizes, width, gap, commit, order);
      if n == 0 {
        FirstTried(packed, score);
      } else {
        NextTried(best, tried, packed, score);
      }
      tried, widths := tried + [packed], widths + [width];
      if n == 0 || score(extent) < score(best.extent) {
        best := packed;
      }
    }
    assert widths[0] == Max(side * 0.7, Widest(sizes)) && widths[1] == Max(side * 1.0, Widest(sizes));
    assert widths[2] == Max(side * 1.4, Widest(sizes)) && widths[3] == Max(side * 1.9, Widest(sizes));
    assert BestOfFour(best, sizes, gap, side, commit, score);
    BestIsFitted(best, sizes, gap, side, commit, score);
  }

  lemma {:induction false} FitsIn(p: Packing, sizes: seq<Size>, width: real, gap: real, commit: bool, order: seq<nat>)
    requires |p.at| == |sizes| && width >= Widest(sizes) && BestFit(p.at, sizes, width, gap, commit, order)
    requires Separated(p.at, sizes, gap) && ExactExtent(p.at, sizes, p.extent, Indices(sizes))
    requires AllFit(sizes, width) ==> forall i :: 0 <= i < |sizes| ==>
      p.at[i].x + sizes[i].w <= width && Supported(p.at, sizes, gap, i, Range(|sizes|))
    ensures Fitted(p, sizes, width, gap, commit)
  {
    hide BestFit, Supported, Separated;
    assert AllFit(sizes, width);
    if p.extent.w != 0.0 {
      var i :| i in Indices(sizes) && p.extent.w == p.at[i].x + sizes[i].w;
      assert p.at[i].x + sizes[i].w <= width;
    }
  }
}
