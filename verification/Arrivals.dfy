/** Where a block goes when it arrives: a free place among what is there already. */
module Arrivals {
  import opened Constants
  import Finish
  import opened Geometry
  import opened Options
  import opened Push
  import Rings
  import opened Sorting

  const FIRST_SIZE := Size(CARD_WIDTH + GROUP_PAD * 2.0, CARD_HEIGHT + GROUP_PAD * 2.0 + GROUP_LABEL)

  /** How far a place is from where the arrival belongs: rows first, and reading order between equals. */
  datatype Cost = Cost(rows: real, columns: real, y: real, x: real)

  predicate Cheaper(a: Cost, b: Cost) {
    || a.rows < b.rows
    || (a.rows == b.rows && (a.columns < b.columns
        || (a.columns == b.columns && (a.y < b.y || (a.y == b.y && a.x < b.x)))))
  }

  function CostAt(anchor: Point, y: real, x: real): Cost {
    Cost(Abs(y - anchor.y), Abs(x - anchor.x), y, x)
  }

  /** Below everything that is there, by a gap. */
  function End(others: seq<Rect>): (end: real)
    requires others != []
    ensures forall o :: o in others ==> o.y + o.h + TASK_GAP <= end
    ensures exists o :: o in others && o.y + o.h + TASK_GAP == end
  {
    var n := |others| - 1;
    var o := others[n];
    assert others == others[..n] + [o];
    if n == 0 then o.y + o.h + TASK_GAP
    else
      var end := End(others[..n]);
      if o.y + o.h + TASK_GAP > end then o.y + o.h + TASK_GAP else end
  }

  /** The bands worth trying: level with something, or below everything. */
  function Bands(others: seq<Rect>, round: real -> real): (ys: seq<real>)
    requires others != []
    ensures forall y :: y in ys <==> y == End(others) || exists o :: o in others && y == round(o.y)
  {
    var level := seq(|others|, i requires 0 <= i < |others| => round(others[i].y));
    assert forall i :: 0 <= i < |others| ==> level[i] in level && level[i] == round(others[i].y);
    level + [End(others)]
  }

  /** The columns worth trying: at the wall, beside something, or under the anchor. */
  function Columns(others: seq<Rect>, anchor: Point): (xs: seq<real>)
    ensures forall x :: x in xs <==> x == LAYOUT_MARGIN || x == anchor.x || exists o :: o in others && x == o.x + o.w + TASK_GAP
  {
    var beside := seq(|others|, i requires 0 <= i < |others| => others[i].x + others[i].w + TASK_GAP);
    assert forall i :: 0 <= i < |others| ==> beside[i] in beside && beside[i] == others[i].x + others[i].w + TASK_GAP;
    [LAYOUT_MARGIN] + beside + [anchor.x]
  }

  predicate ClearOfAll(r: Rect, others: seq<Rect>): (clear: bool)
    ensures clear <==> forall o :: o in others ==> Apart(r, o, TASK_GAP)
  {
    forall o :: o in others ==> !Clash(r, o)
  }

  /** A place on the grid of bands and columns that is free and inside the room. */
  ghost predicate Candidate(y: real, x: real, bands: seq<real>, xs: seq<real>, top: real, room: real, others: seq<Rect>) {
    && y in bands && x in xs && y >= top && x + FIRST_SIZE.w <= room - LAYOUT_MARGIN
    && ClearOfAll(Rect(x, y, FIRST_SIZE.w, FIRST_SIZE.h), others)
  }

  /** `best` is the cheapest of the candidates looked at: those on the first bands, and on the first
      columns of the band after them. */
  ghost predicate BestOf(best: Option<Point>, anchor: Point, bands: seq<real>, xs: seq<real>, b: nat, k: nat,
                         top: real, room: real, others: seq<Rect>)
    requires b <= |bands| && k <= |xs|
  {
    && (best.Some? ==> Candidate(best.value.y, best.value.x, bands, xs, top, room, others))
    && (forall i, j :: 0 <= i < |bands| && 0 <= j < |xs| && (i < b || (i == b && j < k)) && Candidate(bands[i], xs[j], bands, xs, top, room, others) ==>
          best.Some? && !Cheaper(CostAt(anchor, bands[i], xs[j]), CostAt(anchor, best.value.y, best.value.x)))
  }

  lemma CheaperIsOrder(a: Cost, b: Cost, c: Cost)
    ensures Cheaper(a, b) && !Cheaper(c, b) ==> !Cheaper(c, a) || c == a
    ensures Cheaper(a, b) && !Cheaper(c, b) ==> !Cheaper(c, a)
    ensures !Cheaper(a, a)
  {
  }

  /** One place looked at. */
  method Look(best: Option<Point>, anchor: Point, bands: seq<real>, xs: seq<real>, b: nat, k: nat,
              top: real, room: real, others: seq<Rect>)
    returns (best': Option<Point>)
    requires b < |bands| && k < |xs| && bands[b] >= top
    requires BestOf(best, anchor, bands, xs, b, k, top, room, others)
    ensures BestOf(best', anchor, bands, xs, b, k + 1, top, room, others)
  {
    hide Clash, CostAt, Cheaper;
    var y, x := bands[b], xs[k];
    best' := best;
    if x + FIRST_SIZE.w > room - LAYOUT_MARGIN || !ClearOfAll(Rect(x, y, FIRST_SIZE.w, FIRST_SIZE.h), others) {
      return;
    }
    if best.None? || Cheaper(CostAt(anchor, y, x), CostAt(anchor, best.value.y, best.value.x)) {
      best' := Some(Point(x, y));
    }
    forall i, j | 0 <= i < |bands| && 0 <= j < |xs| && (i < b || (i == b && j < k))
      && Candidate(bands[i], xs[j], bands, xs, top, room, others)
      ensures !Cheaper(CostAt(anchor, bands[i], xs[j]), CostAt(anchor, best'.value.y, best'.value.x))
    {
      CheaperIsOrder(CostAt(anchor, y, x), CostAt(anchor, best.value.y, best.value.x), CostAt(anchor, bands[i], xs[j]));
    }
    CheaperIsOrder(CostAt(anchor, y, x), CostAt(anchor, y, x), CostAt(anchor, y, x));
  }

  /** `r` is no further from the anchor than `p`: first up and down, then across; and where both are equally
      far, it is not below it, nor right of it on the same level. */
  ghost predicate NoFurther(anchor: Point, r: Rect, p: Point) {
    var rows, columns := Abs(r.y - anchor.y), Abs(r.x - anchor.x);
    || rows < Abs(p.y - anchor.y)
    || (rows == Abs(p.y - anchor.y)
        && (columns < Abs(p.x - anchor.x)
            || (columns == Abs(p.x - anchor.x) && (r.y < p.y || (r.y == p.y && r.x <= p.x)))))
  }

  lemma NotCheaperIsFurther(anchor: Point, r: Rect, y: real, x: real)
    ensures !Cheaper(CostAt(anchor, y, x), CostAt(anchor, r.y, r.x)) <==> NoFurther(anchor, r, Point(x, y))
  {
  }

  /** A new container's first rectangle among what the session has drawn: the free place of the grid
      nearest the anchor, or, where the grid has none, at the wall below everything. */
  ghost predicate NearestFree(r: Rect, anchor: Point, top: real, room: real, others: seq<Rect>, round: real -> real)
    requires others != []
  {
    var bands, xs := Bands(others, round), Columns(others, anchor);
    if exists y, x :: Candidate(y, x, bands, xs, top, room, others)
    then Candidate(r.y, r.x, bands, xs, top, room, others)
         && forall y, x :: Candidate(y, x, bands, xs, top, room, others) ==> NoFurther(anchor, r, Point(x, y))
    else r.x == LAYOUT_MARGIN && r.y == End(others)
  }

  function Around(origin: Point): Rect {
    Rect(origin.x - GROUP_PAD, origin.y - GROUP_PAD - GROUP_LABEL, FIRST_SIZE.w, FIRST_SIZE.h)
  }

  /** That is where the container is drawn once its first card, without delegates, is at the origin. */
  lemma FirstIsDrawnAround(origin: Point)
    ensures Finish.DrawnRect([Rings.ContentRect(origin, None)]) == Some(Around(origin))
  {
  }

  /** The origin of a new container: clear of everything there by a gap, and as near as the grid allows. */
  method FirstFit(others: seq<Rect>, near: Option<Point>, top: real, room: real, round: real -> real) returns (origin: Point)
    ensures forall o :: o in others ==> Apart(Around(origin), o, TASK_GAP)
    ensures others == [] ==> origin == Point(LAYOUT_MARGIN + GROUP_PAD, top + GROUP_PAD + GROUP_LABEL)
    ensures others != [] ==>
      NearestFree(Around(origin), if near.Some? then near.value else Point(LAYOUT_MARGIN, top), top, room, others, round)
  {
    hide Clash, CostAt, Cheaper, NoFurther;
    if others == [] {
      return Point(LAYOUT_MARGIN + GROUP_PAD, top + GROUP_PAD + GROUP_LABEL);
    }
    var anchor := if near.Some? then near.value else Point(LAYOUT_MARGIN, top);
    var end := End(others);
    var ys := SortBy((y: real) => y, Bands(others, round));
    var xs := SortBy((x: real) => x, Columns(others, anchor));
    var best := Search(ys, xs, anchor, top, room, others);
    var at := if best.Some? then best.value else Point(LAYOUT_MARGIN, end);
    EndIsClear(others);
    SameGrid(ys, Bands(others, round), xs, Columns(others, anchor), top, room, others);
    origin := Point(at.x + GROUP_PAD, at.y + GROUP_PAD + GROUP_LABEL);
    assert Around(origin) == Rect(at.x, at.y, FIRST_SIZE.w, FIRST_SIZE.h);
    forall y, x | Candidate(y, x, ys, xs, top, room, others)
      ensures NoFurther(anchor, Around(origin), Point(x, y))
    {
      NotCheaperIsFurther(anchor, Around(origin), y, x);
    }
  }

  lemma SameGrid(ys: seq<real>, bands: seq<real>, xs: seq<real>, columns: seq<real>, top: real, room: real, others: seq<Rect>)
    requires (forall y :: y in ys <==> y in bands) && (forall x :: x in xs <==> x in columns)
    ensures forall y, x :: Candidate(y, x, ys, xs, top, room, others) <==> Candidate(y, x, bands, columns, top, room, others)
  {
    hide ClearOfAll;
  }

  method Search(bands: seq<real>, xs: seq<real>, anchor: Point, top: real, room: real, others: seq<Rect>) returns (best: Option<Point>)
    ensures best.Some? ==> Candidate(best.value.y, best.value.x, bands, xs, top, room, others)
    ensures forall y, x :: Candidate(y, x, bands, xs, top, room, others) ==>
      best.Some? && !Cheaper(CostAt(anchor, y, x), CostAt(anchor, best.value.y, best.value.x))
  {
    hide Clash, CostAt, Cheaper;
    best := None;
    for b := 0 to |bands|
      invariant BestOf(best, anchor, bands, xs, b, 0, top, room, others)
    {
      if bands[b] < top {
        continue;
      }
      for k := 0 to |xs|
        invariant BestOf(best, anchor, bands, xs, b, k, top, room, others)
      {
        best := Look(best, anchor, bands, xs, b, k, top, room, others);
      }
    }
    forall y, x | Candidate(y, x, bands, xs, top, room, others)
      ensures best.Some? && !Cheaper(CostAt(anchor, y, x), CostAt(anchor, best.value.y, best.value.x))
    {
      var i :| 0 <= i < |bands| && bands[i] == y;
      var j :| 0 <= j < |xs| && xs[j] == x;
      assert Candidate(bands[i], xs[j], bands, xs, top, room, others);
    }
  }

  lemma {:induction false} EndIsClear(others: seq<Rect>)
    requires others != []
    ensures forall x :: ClearOfAll(Rect(x, End(others), FIRST_SIZE.w, FIRST_SIZE.h), others)
  {
  }

  /** With the whole canvas to use and the end of what is there below the band's top, the grid has a place. */
  lemma {:induction false} SomePlace(anchor: Point, top: real, room: real, others: seq<Rect>, round: real -> real)
    requires others != [] && room >= LAYOUT_WIDTH && End(others) >= top
    ensures exists y, x :: Candidate(y, x, Bands(others, round), Columns(others, anchor), top, room, others)
  {
    var bands, xs := Bands(others, round), Columns(others, anchor);
    EndIsClear(others);
    assert bands[|others|] == End(others) && xs[0] == LAYOUT_MARGIN;
    assert Candidate(End(others), LAYOUT_MARGIN, bands, xs, top, room, others);
  }

  // ---- a loose card that arrives ----

  /** No mate is closer to the card than a card gap across and a row gap down. */
  predicate CardClear(x: real, y: real, mates: seq<Rect>): (clear: bool)
    ensures clear <==> forall o :: o in mates ==>
      || x + CARD_WIDTH + CARD_GAP_X <= o.x || o.x + o.w + CARD_GAP_X <= x
      || y + CARD_HEIGHT + CARD_GAP_Y <= o.y || o.y + o.h + CARD_GAP_Y <= y
  {
    forall o :: o in mates ==> !Close(Rect(x, y, CARD_WIDTH, CARD_HEIGHT), o, CARD_GAP_X, CARD_GAP_Y)
  }

  /** Right of every mate. */
  function Beyond(mates: seq<Rect>): (right: real)
    ensures right >= LAYOUT_MARGIN
    ensures forall o :: o in mates ==> o.x + o.w + CARD_GAP_X <= right
  {
    if mates == [] then LAYOUT_MARGIN
    else
      var n := |mates| - 1;
      assert mates == mates[..n] + [mates[n]];
      Max(Beyond(mates[..n]), mates[n].x + mates[n].w + CARD_GAP_X)
  }

  function CardPlace(k: nat): real {
    LAYOUT_MARGIN + k as real * (CARD_WIDTH + CARD_GAP_X)
  }

  /** The first card place along the row, counted from the wall, that is clear of every mate. */
  method LoosePlace(mates: seq<Rect>, y: real) returns (x: real, ghost steps: nat)
    ensures CardClear(x, y, mates)
    ensures x == CardPlace(steps)
    ensures forall k :: 0 <= k < steps ==> !CardClear(CardPlace(k), y, mates)
  {
    x, steps := LAYOUT_MARGIN, 0;
    while !CardClear(x, y, mates)
      invariant x == CardPlace(steps)
      invariant forall k :: 0 <= k < steps ==> !CardClear(CardPlace(k), y, mates)
      decreases Beyond(mates) - x
    {
      assert x < Beyond(mates);
      x, steps := x + (CARD_WIDTH + CARD_GAP_X), steps + 1;
    }
  }
}
