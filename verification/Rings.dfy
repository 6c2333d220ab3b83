/** A card and the ring of its delegates: the rectangle reserved for them is the rectangle they are drawn on. */
module Rings {
  import opened Constants
  import opened Geometry
  import opened Options

  /** The least rectangle that holds both. */
  function Join(a: Rect, b: Rect): Rect {
    var x0, y0 := Min(a.x, b.x), Min(a.y, b.y);
    Rect(x0, y0, Max(a.x + a.w, b.x + b.w) - x0, Max(a.y + a.h, b.y + b.h) - y0)
  }

  function Union(boxes: seq<Rect>): Rect {
    if boxes == [] then Rect(0.0, 0.0, 0.0, 0.0)
    else if |boxes| == 1 then boxes[0]
    else Join(Union(boxes[..|boxes| - 1]), boxes[|boxes| - 1])
  }

  lemma {:induction false} UnionHolds(boxes: seq<Rect>, k: nat)
    requires k < |boxes|
    ensures Inside(boxes[k], Union(boxes))
  {
    if |boxes| > 1 && k < |boxes| - 1 {
      UnionHolds(boxes[..|boxes| - 1], k);
    }
  }

  lemma {:induction false} UnionIsLeast(boxes: seq<Rect>, outer: Rect)
    requires boxes != [] && forall k :: 0 <= k < |boxes| ==> Inside(boxes[k], outer)
    ensures Inside(Union(boxes), outer)
  {
    if |boxes| > 1 {
      UnionIsLeast(boxes[..|boxes| - 1], outer);
    }
  }

  /** Moving every box moves their union with them. */
  lemma {:induction false} UnionShifts(boxes: seq<Rect>, moved: seq<Rect>, d: Point)
    requires |moved| == |boxes| > 0
    requires forall k :: 0 <= k < |boxes| ==> moved[k] == Shift(boxes[k], d)
    ensures Union(moved) == Shift(Union(boxes), d)
  {
    if |boxes| > 1 {
      UnionShifts(boxes[..|boxes| - 1], moved[..|boxes| - 1], d);
    }
  }

  const CARD := Rect(0.0, 0.0, CARD_WIDTH, CARD_HEIGHT)

  function CardAt(at: Point): Rect {
    Box(at, Size(CARD_WIDTH, CARD_HEIGHT))
  }

  function DelegateAt(at: Point): Rect {
    Box(at, Size(SUB_WIDTH, SUB_HEIGHT))
  }

  function Delegates(subs: seq<Point>): (r: seq<Rect>)
    ensures |r| == |subs| && forall k :: 0 <= k < |r| ==> r[k] == DelegateAt(subs[k])
  {
    seq(|subs|, k requires 0 <= k < |subs| => DelegateAt(subs[k]))
  }

  /** `held`, wider by `RING_PAD` on those sides where it is beyond the card. */
  function RingPad(held: Rect, card: Rect): Rect {
    var left := if held.x < card.x then RING_PAD else 0.0;
    var top := if held.y < card.y then RING_PAD else 0.0;
    var right := if held.x + held.w > card.x + card.w then RING_PAD else 0.0;
    var bottom := if held.y + held.h > card.y + card.h then RING_PAD else 0.0;
    Rect(held.x - left, held.y - top, held.w + left + right, held.h + top + bottom)
  }

  /** The rectangle reserved for a card with delegates at `slots`, when the card is at the origin. */
  function RingBox(slots: seq<Point>): Rect {
    if slots == [] then CARD
    else Union([CARD, RingPad(Union([CARD] + Delegates(slots)), CARD)])
  }

  /** The smallest rectangle round card and delegates, padded on all sides; None without delegates. */
  method Fence(at: Point, subs: seq<Point>) returns (ring: Option<Rect>)
    ensures ring == FenceOf(at, subs)
  {
    if subs == [] {
      return None;
    }
    var x0, y0, x1, y1 := at.x, at.y, at.x + CARD_WIDTH, at.y + CARD_HEIGHT;
    for k := 0 to |subs|
      invariant Rect(x0, y0, x1 - x0, y1 - y0) == Union([CardAt(at)] + Delegates(subs[..k]))
    {
      ghost var more := [CardAt(at)] + Delegates(subs[..k + 1]);
      assert more[..k + 1] == [CardAt(at)] + Delegates(subs[..k]) && more[k + 1] == DelegateAt(subs[k]);
      x0, y0 := Min(x0, subs[k].x), Min(y0, subs[k].y);
      x1, y1 := Max(x1, subs[k].x + SUB_WIDTH), Max(y1, subs[k].y + SUB_HEIGHT);
    }
    assert subs[..|subs|] == subs;
    ring := Some(Rect(x0 - RING_PAD, y0 - RING_PAD, (x1 - x0) + RING_PAD * 2.0, (y1 - y0) + RING_PAD * 2.0));
  }

  /** The fence is the bare union of card and delegates, padded all round. */
  ghost function FenceOf(at: Point, subs: seq<Point>): Option<Rect> {
    if subs == [] then None
    else
      var u := Union([CardAt(at)] + Delegates(subs));
      Some(Rect(u.x - RING_PAD, u.y - RING_PAD, u.w + RING_PAD * 2.0, u.h + RING_PAD * 2.0))
  }

  /** The rectangle that a card with this fence is drawn to occupy. */
  function ContentRect(at: Point, ring: Option<Rect>): Rect {
    var rect := CardAt(at);
    if ring.None? then rect
    else
      var r := ring.value;
      var held := Rect(r.x + RING_PAD, r.y + RING_PAD, r.w - RING_PAD * 2.0, r.h - RING_PAD * 2.0);
      Union([rect, RingPad(held, rect)])
  }

  function SlotsAt(slots: seq<Point>, at: Point): (subs: seq<Point>)
    ensures |subs| == |slots| && forall k :: 0 <= k < |subs| ==> subs[k] == Point(at.x + slots[k].x, at.y + slots[k].y)
  {
    seq(|slots|, k requires 0 <= k < |slots| => Point(at.x + slots[k].x, at.y + slots[k].y))
  }

  lemma PadShifts(held: Rect, d: Point)
    ensures RingPad(Shift(held, d), CardAt(d)) == Shift(RingPad(held, CARD), d)
  {
  }

  /** Moving a card moves the union of it and its delegates as far. */
  lemma BareShifts(slots: seq<Point>, at: Point)
    ensures Union([CardAt(at)] + Delegates(SlotsAt(slots, at))) == Shift(Union([CARD] + Delegates(slots)), at)
  {
    UnionShifts([CARD] + Delegates(slots), [CardAt(at)] + Delegates(SlotsAt(slots, at)), at);
  }

  lemma PaddedShifts(held: Rect, at: Point)
    ensures Union([CardAt(at), RingPad(Shift(held, at), CardAt(at))]) == Shift(Union([CARD, RingPad(held, CARD)]), at)
  {
    PadShifts(held, at);
    UnionShifts([CARD, RingPad(held, CARD)], [CardAt(at), RingPad(Shift(held, at), CardAt(at))], at);
  }

  lemma InsetUndoesFence(u: Rect)
    ensures Rect((u.x - RING_PAD) + RING_PAD, (u.y - RING_PAD) + RING_PAD,
                 (u.w + RING_PAD * 2.0) - RING_PAD * 2.0, (u.h + RING_PAD * 2.0) - RING_PAD * 2.0) == u
  {
  }

  /** The rectangle reserved, moved to the card, is the one the card is drawn to occupy, for any ring. */
  lemma ReservedIsDrawn(slots: seq<Point>, at: Point)
    ensures ContentRect(at, FenceOf(at, SlotsAt(slots, at))) == Shift(RingBox(slots), at)
  {
    if slots != [] {
      var held := Union([CARD] + Delegates(slots));
      BareShifts(slots, at);
      InsetUndoesFence(Shift(held, at));
      PaddedShifts(held, at);
    }
  }

  /** On every side some rectangle reaches as far as the union. */
  lemma {:induction false} UnionReaches(boxes: seq<Rect>) returns (left: nat, top: nat, right: nat, bottom: nat)
    requires boxes != []
    ensures left < |boxes| && boxes[left].x == Union(boxes).x
    ensures top < |boxes| && boxes[top].y == Union(boxes).y
    ensures right < |boxes| && boxes[right].x + boxes[right].w == Union(boxes).x + Union(boxes).w
    ensures bottom < |boxes| && boxes[bottom].y + boxes[bottom].h == Union(boxes).y + Union(boxes).h
  {
    var n := |boxes| - 1;
    left, top, right, bottom := n, n, n, n;
    if n > 0 {
      var rest, last := Union(boxes[..n]), boxes[n];
      var l, t, r, b := UnionReaches(boxes[..n]);
      left := if last.x < rest.x then n else l;
      top := if last.y < rest.y then n else t;
      right := if last.x + last.w > rest.x + rest.w then n else r;
      bottom := if last.y + last.h > rest.y + rest.h then n else b;
    }
  }

  /** The delegates pass the card at `at` on the left, at the top, on the right, at the bottom. */
  ghost predicate PassLeft(subs: seq<Point>, at: Point) {
    exists k :: 0 <= k < |subs| && subs[k].x < at.x
  }

  ghost predicate PassTop(subs: seq<Point>, at: Point) {
    exists k :: 0 <= k < |subs| && subs[k].y < at.y
  }

  ghost predicate PassRight(subs: seq<Point>, at: Point) {
    exists k :: 0 <= k < |subs| && subs[k].x + SUB_WIDTH > at.x + CARD_WIDTH
  }

  ghost predicate PassBottom(subs: seq<Point>, at: Point) {
    exists k :: 0 <= k < |subs| && subs[k].y + SUB_HEIGHT > at.y + CARD_HEIGHT
  }

  /** On each side where a delegate passes the card, what is drawn ends where the fence does; on each other
      side, where the card does. */
  lemma RoomMeetsFence(subs: seq<Point>, at: Point)
    requires subs != []
    ensures var fence, room := FenceOf(at, subs).value, ContentRect(at, FenceOf(at, subs));
            && room.x == (if PassLeft(subs, at) then fence.x else at.x)
            && room.y == (if PassTop(subs, at) then fence.y else at.y)
            && room.x + room.w == (if PassRight(subs, at) then fence.x + fence.w else at.x + CARD_WIDTH)
            && room.y + room.h == (if PassBottom(subs, at) then fence.y + fence.h else at.y + CARD_HEIGHT)
  {
    hide Union, ContentRect, FenceOf, PassLeft, PassTop, PassRight, PassBottom;
    var card := CardAt(at);
    BarePasses(subs, at);
    UnionHolds([card] + Delegates(subs), 0);
    ContentIsJoin(at, subs);
  }

  lemma ContentIsJoin(at: Point, subs: seq<Point>)
    requires subs != []
    ensures var held := Union([CardAt(at)] + Delegates(subs));
            && FenceOf(at, subs) == Some(Rect(held.x - RING_PAD, held.y - RING_PAD, held.w + RING_PAD * 2.0, held.h + RING_PAD * 2.0))
            && ContentRect(at, FenceOf(at, subs)) == Join(CardAt(at), RingPad(held, CardAt(at)))
  {
    hide RingPad, Join;
    InsetUndoesFence(Union([CardAt(at)] + Delegates(subs)));
    UnionOfTwo(CardAt(at), RingPad(Union([CardAt(at)] + Delegates(subs)), CardAt(at)));
  }

  lemma UnionOfTwo(a: Rect, b: Rect)
    ensures Union([a, b]) == Join(a, b)
  {
    assert [a, b][..1] == [a];
  }

  lemma BarePasses(subs: seq<Point>, at: Point)
    ensures var held := Union([CardAt(at)] + Delegates(subs));
            && (held.x < at.x <==> PassLeft(subs, at))
            && (held.y < at.y <==> PassTop(subs, at))
            && (held.x + held.w > at.x + CARD_WIDTH <==> PassRight(subs, at))
            && (held.y + held.h > at.y + CARD_HEIGHT <==> PassBottom(subs, at))
  {
    hide Union;
    var boxes := [CardAt(at)] + Delegates(subs);
    var left, top, right, bottom := UnionReaches(boxes);
    forall k | 0 <= k < |subs|
      ensures boxes[k + 1] == DelegateAt(subs[k]) && Inside(DelegateAt(subs[k]), Union(boxes))
    {
      UnionHolds(boxes, k + 1);
    }
    assert boxes[left].x < at.x ==> subs[left - 1].x < at.x;
    assert boxes[top].y < at.y ==> subs[top - 1].y < at.y;
    assert boxes[right].x + boxes[right].w > at.x + CARD_WIDTH ==> subs[right - 1].x + SUB_WIDTH > at.x + CARD_WIDTH;
    assert boxes[bottom].y + boxes[bottom].h > at.y + CARD_HEIGHT ==> subs[bottom - 1].y + SUB_HEIGHT > at.y + CARD_HEIGHT;
  }

  /** So it is with what is reserved, moved to the card. */
  lemma ReservedMeetsFence(slots: seq<Point>, at: Point)
    requires slots != []
    ensures var subs, room := SlotsAt(slots, at), Shift(RingBox(slots), at);
            var fence := FenceOf(at, subs).value;
            && room.x == (if PassLeft(subs, at) then fence.x else at.x)
            && room.y == (if PassTop(subs, at) then fence.y else at.y)
            && room.x + room.w == (if PassRight(subs, at) then fence.x + fence.w else at.x + CARD_WIDTH)
            && room.y + room.h == (if PassBottom(subs, at) then fence.y + fence.h else at.y + CARD_HEIGHT)
  {
    hide RingBox, FenceOf, ContentRect, PassLeft, PassTop, PassRight, PassBottom;
    ReservedIsDrawn(slots, at);
    RoomMeetsFence(SlotsAt(slots, at), at);
  }

  /** The card and every delegate lie in what is reserved. */
  lemma RingBoxHolds(slots: seq<Point>)
    ensures Inside(CARD, RingBox(slots))
    ensures forall k :: 0 <= k < |slots| ==> Inside(DelegateAt(slots[k]), RingBox(slots))
    ensures RingBox(slots).w >= CARD_WIDTH && RingBox(slots).h >= CARD_HEIGHT
  {
    if slots != [] {
      var boxes := [CARD] + Delegates(slots);
      var padded := RingPad(Union(boxes), CARD);
      UnionHolds([CARD, padded], 0);
      UnionHolds([CARD, padded], 1);
      forall k | 0 <= k < |slots|
        ensures Inside(DelegateAt(slots[k]), RingBox(slots))
      {
        UnionHolds(boxes, k + 1);
      }
    }
  }

  // ---- the grid ring ----

  const GRID_ROWS: nat := 4

  /** As few columns as leave at most GRID_ROWS rows. */
  function GridCols(count: nat): (cols: nat)
    requires count > 0
    ensures cols >= 1 && cols * 4 >= count
    ensures (cols - 1) * 4 < count
  {
    (count + GRID_ROWS - 1) / GRID_ROWS
  }

  /** How wide `n` delegates stand side by side. */
  function GridSpan(n: nat): real {
    n as real * SUB_WIDTH + (n as real - 1.0) * SUB_GAP
  }

  function GridSlot(count: nat, ix: nat): Point
    requires ix < count
  {
    var cols := GridCols(count);
    var row, col := ix / cols, ix % cols;
    var wide := if cols <= count - row * cols then cols else count - row * cols;
    var span := GridSpan(cols);
    var inset := (span - GridSpan(wide)) / 2.0;
    Point((CARD_WIDTH - span) / 2.0 + inset + col as real * (SUB_WIDTH + SUB_GAP),
          CARD_HEIGHT + SUB_DROP + row as real * (SUB_HEIGHT + SUB_GAP))
  }

  method RingGrid(count: int) returns (slots: seq<Point>)
    ensures |slots| == if count <= 0 then 0 else count
    ensures forall i :: 0 <= i < |slots| ==> slots[i] == GridSlot(count, i)
  {
    slots := [];
    if count <= 0 {
      return;
    }
    for ix := 0 to count
      invariant |slots| == ix
      invariant forall i :: 0 <= i < ix ==> slots[i] == GridSlot(count, i)
    {
      slots := slots + [GridSlot(count, ix)];
    }
  }

  /** Two delegates of one row as far left of the card's middle as right of it. */
  predicate Mirrored(a: Point, b: Point) {
    a.y == b.y && a.x + (b.x + SUB_WIDTH) == CARD_WIDTH
  }

  lemma SlotTop(count: nat, ix: nat)
    requires ix < count
    ensures GridSlot(count, ix).y == CARD_HEIGHT + SUB_DROP + (ix / GridCols(count)) as real * (SUB_HEIGHT + SUB_GAP)
  {
  }

  lemma RowEnds(row: nat)
    requires row < GRID_ROWS
    ensures 0.0 <= row as real * (SUB_HEIGHT + SUB_GAP)
    ensures row as real * (SUB_HEIGHT + SUB_GAP) + SUB_HEIGHT <= GRID_ROWS as real * (SUB_HEIGHT + SUB_GAP) - SUB_GAP
  {
    assert row == 0 || row == 1 || row == 2 || row == 3;
  }

  /** The grid starts under the card, and is never more than GRID_ROWS deep. */
  lemma GridRow(count: nat, ix: nat)
    requires ix < count
    ensures var y := GridSlot(count, ix).y;
            && CARD_HEIGHT + SUB_DROP <= y
            && y + SUB_HEIGHT <= CARD_HEIGHT + SUB_DROP + GRID_ROWS as real * (SUB_HEIGHT + SUB_GAP) - SUB_GAP
  {
    hide GridSlot, GridCols;
    SlotTop(count, ix);
    var cols := GridCols(count);
    DivisionRises(ix, cols * GRID_ROWS - 1, cols);
    assert ix / cols <= GRID_ROWS - 1;
    RowEnds(ix / cols);
  }

  /** No two delegates are closer than their gap. */
  lemma GridApart(count: nat, i: nat, j: nat)
    requires i < j < count
    ensures Apart(DelegateAt(GridSlot(count, i)), DelegateAt(GridSlot(count, j)), SUB_GAP)
  {
    var cols := GridCols(count);
    if i / cols == j / cols {
      assert i % cols < j % cols;
      assert (i % cols + 1) as real <= (j % cols) as real;
    } else {
      DivisionRises(i, j, cols);
      assert (i / cols + 1) as real <= (j / cols) as real;
    }
  }

  /** From one delegate to the next: a gap to the right, or, at the end of a row, a gap down. */
  lemma GridSteps(count: nat, ix: nat)
    requires ix + 1 < count
    ensures var a, b := GridSlot(count, ix), GridSlot(count, ix + 1);
            if (ix + 1) % GridCols(count) != 0 then b == Point(a.x + SUB_WIDTH + SUB_GAP, a.y)
            else b.y == a.y + SUB_HEIGHT + SUB_GAP
    ensures GridSlot(count, 0).y == CARD_HEIGHT + SUB_DROP
  {
    hide GridCols;
    var cols := GridCols(count);
    NextInGrid(ix, cols);
    if (ix + 1) % cols != 0 {
      assert ((ix + 1) % cols) as real == (ix % cols) as real + 1.0;
    } else {
      assert ((ix + 1) / cols) as real == (ix / cols) as real + 1.0;
    }
    DivModIs(0, 0, cols);
  }

  lemma NextInGrid(ix: nat, cols: nat)
    requires cols > 0
    ensures if (ix + 1) % cols != 0 then (ix + 1) / cols == ix / cols && (ix + 1) % cols == ix % cols + 1
            else (ix + 1) / cols == ix / cols + 1
  {
    var q, r := ix / cols, ix % cols;
    assert ix == q * cols + r && (q + 1) * cols == q * cols + cols;
    if r + 1 < cols {
      assert ix + 1 == q * cols + (r + 1);
      DivModIs(q, r + 1, cols);
    } else {
      assert ix + 1 == (q + 1) * cols + 0;
      DivModIs(q + 1, 0, cols);
    }
  }

  lemma MultipleSize(k: int, d: nat)
    ensures k >= 1 ==> k * d >= d
    ensures k <= -1 ==> k * d + d <= 0
    decreases if k < 0 then -k else k
  {
    if k > 1 {
      MultipleSize(k - 1, d);
      assert k * d == (k - 1) * d + d;
    } else if k < -1 {
      MultipleSize(k + 1, d);
      assert k * d == (k + 1) * d - d;
    }
  }

  lemma DivisionRises(i: nat, j: nat, d: nat)
    requires i <= j && d > 0
    ensures i / d <= j / d
  {
    var q, p := i / d, j / d;
    assert i == q * d + i % d && j == p * d + j % d;
    MultipleSize(q - p, d);
    assert (q - p) * d == q * d - p * d;
  }

  /** Every row is centred under the card. */
  lemma GridMirror(count: nat, i: nat) returns (j: nat)
    requires i < count
    ensures j < count && Mirrored(GridSlot(count, i), GridSlot(count, j))
  {
    var cols := GridCols(count);
    var row, col := i / cols, i % cols;
    var wide := if cols <= count - row * cols then cols else count - row * cols;
    assert i == row * cols + col;
    j := row * cols + (wide - 1 - col);
    DivModIs(row, wide - 1 - col, cols);
  }

  lemma DivModIs(q: nat, r: nat, d: nat)
    requires r < d
    ensures (q * d + r) / d == q && (q * d + r) % d == r
  {
    var n := q * d + r;
    var p := n / d;
    assert n == p * d + n % d;
    MultipleSize(q - p, d);
    assert (q - p) * d == q * d - p * d;
  }
}
