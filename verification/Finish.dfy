/** What is drawn of an arrangement: cards, containers and sessions, each round what is in it. */
module Finish {
  import opened Build
  import opened Constants
  import opened Geometry
  import opened Options
  import opened Rows
  import Rings

  // ---- the cards ----

  /** Where a card is drawn, where its delegates are, and their fence. */
  datatype Drawing = Drawing(at: Point, subs: seq<Point>, ring: Option<Rect>)

  /** Each card is drawn on exactly the footprint it was placed by, with the delegates its ring gives it,
      and all of them lie on that footprint. */
  method DrawCards(agents: seq<Agent>, cards: seq<Placed>, origins: Origins, ring: nat -> seq<Point>, ghost feet: seq<Rect>)
    returns (drawn: seq<Drawing>)
    requires DistinctIds(agents) && forall k :: 0 <= k < |cards| ==> cards[k].agent in agents
    requires Stands(cards, feet, origins, RoomOf(agents, ring))
    ensures |drawn| == |cards|
    ensures forall k :: 0 <= k < |cards| ==> DrawnOn(drawn[k], ring(cards[k].agent.delegates), feet[k])
    ensures forall k :: 0 <= k < |cards| ==> drawn[k].at == Spot(origins, cards[k])
  {
    hide DrawnOn, RoomOf, Spot, Stands, DistinctIds, Rings.FenceOf, Rings.RingBox, Shift;
    OneFootEach(cards, feet, origins, RoomOf(agents, ring));
    drawn := [];
    for k := 0 to |cards|
      invariant |drawn| == k
      invariant forall j :: 0 <= j < k ==> drawn[j].at == Spot(origins, cards[j])
      invariant forall j :: 0 <= j < k ==> DrawnOn(drawn[j], ring(cards[j].agent.delegates), feet[j])
    {
      var at := Spot(origins, cards[k]);
      var slots := ring(cards[k].agent.delegates);
      var subs := Rings.SlotsAt(slots, at);
      var fence := Rings.Fence(at, subs);
      ItsFoot(agents, cards, origins, ring, feet, k);
      DrawnOnFoot(slots, at);
      drawn := drawn + [Drawing(at, subs, fence)];
    }
  }

  lemma ItsFoot(agents: seq<Agent>, cards: seq<Placed>, origins: Origins, ring: nat -> seq<Point>, feet: seq<Rect>, k: nat)
    requires DistinctIds(agents) && k < |cards| && cards[k].agent in agents
    requires Stands(cards, feet, origins, RoomOf(agents, ring))
    ensures |feet| == |cards| && feet[k] == Shift(Rings.RingBox(ring(cards[k].agent.delegates)), Spot(origins, cards[k]))
  {
    hide DistinctIds, Shift, Rings.RingBox, Spot;
    LookupFinds(agents, cards[k].agent);
  }

  /** The card is drawn with the delegates `slots` say, on exactly `foot`. */
  ghost predicate DrawnOn(d: Drawing, slots: seq<Point>, foot: Rect) {
    && d.subs == Rings.SlotsAt(slots, d.at)
    && d.ring == Rings.FenceOf(d.at, d.subs)
    && Rings.ContentRect(d.at, d.ring) == foot
    && Inside(Rings.CardAt(d.at), foot)
    && (forall k :: 0 <= k < |d.subs| ==> Inside(Rings.DelegateAt(d.subs[k]), foot))
  }

  lemma DrawnOnFoot(slots: seq<Point>, at: Point)
    ensures var subs := Rings.SlotsAt(slots, at);
            DrawnOn(Drawing(at, subs, Rings.FenceOf(at, subs)), slots, Shift(Rings.RingBox(slots), at))
  {
    Rings.ReservedIsDrawn(slots, at);
    Rings.RingBoxHolds(slots);
    var subs := Rings.SlotsAt(slots, at);
    forall k | 0 <= k < |subs|
      ensures Inside(Rings.DelegateAt(subs[k]), Shift(Rings.RingBox(slots), at))
    {
      assert Inside(Rings.DelegateAt(slots[k]), Rings.RingBox(slots));
    }
  }

  /** The card is drawn at its offset from where its container starts, a loose one from the corner of the canvas. */
  ghost predicate AtItsPlace(card: Placed, d: Drawing, boxes: seq<TaskBox>) {
    match card.agent.task
    case None => d.at == card.offset
    case Some(id) =>
      exists j :: 0 <= j < |boxes| && boxes[j].id == id && d.at == Point(boxes[j].origin.x + card.offset.x, boxes[j].origin.y + card.offset.y)
  }

  /** Its delegates are where the ring says, and the fence goes round them. */
  ghost predicate WithDelegates(d: Drawing, slots: seq<Point>) {
    d.subs == Rings.SlotsAt(slots, d.at) && d.ring == Rings.FenceOf(d.at, d.subs)
  }

  lemma PlacesAreKept(cards: seq<Placed>, drawn: seq<Drawing>, feet: seq<Rect>, origins: Origins, boxes: seq<TaskBox>, ring: nat -> seq<Point>)
    requires |cards| == |drawn| == |feet|
    requires forall k :: 0 <= k < |cards| ==> DrawnOn(drawn[k], ring(cards[k].agent.delegates), feet[k])
    requires forall k :: 0 <= k < |cards| ==> drawn[k].at == Spot(origins, cards[k]) && Framed(cards[k], feet[k], boxes)
    requires forall j :: 0 <= j < |boxes| ==> boxes[j].id in origins && boxes[j].origin == origins[boxes[j].id]
    ensures forall k :: 0 <= k < |cards| ==> AtItsPlace(cards[k], drawn[k], boxes)
    ensures forall k :: 0 <= k < |cards| ==> WithDelegates(drawn[k], ring(cards[k].agent.delegates))
  {
    forall k | 0 <= k < |cards|
      ensures AtItsPlace(cards[k], drawn[k], boxes) && WithDelegates(drawn[k], ring(cards[k].agent.delegates))
    {
      assert Framed(cards[k], feet[k], boxes) && DrawnOn(drawn[k], ring(cards[k].agent.delegates), feet[k]);
    }
  }

  /** What is inked for a card: its own rectangle, and one for each delegate. */
  ghost predicate Inked(d: Drawing, r: Rect) {
    r == Rings.CardAt(d.at) || exists k :: 0 <= k < |d.subs| && r == Rings.DelegateAt(d.subs[k])
  }

  ghost predicate CardsClear(d: Drawing, e: Drawing) {
    forall r, s :: Inked(d, r) && Inked(e, s) ==> Apart(r, s, CARD_GAP_X)
  }

  lemma DrawnClear(d: Drawing, slots: seq<Point>, foot: Rect, e: Drawing, slots': seq<Point>, foot': Rect)
    requires DrawnOn(d, slots, foot) && DrawnOn(e, slots', foot') && Apart(foot, foot', CARD_GAP_X)
    ensures CardsClear(d, e)
  {
    forall r, s | Inked(d, r) && Inked(e, s)
      ensures Apart(r, s, CARD_GAP_X)
    {
      assert Inside(r, foot) && Inside(s, foot');
      InsideKeepsApart(foot, foot', r, s, CARD_GAP_X, CARD_GAP_X);
    }
  }

  // ---- the containers ----

  /** The footprints of the cards of one container. */
  function FeetIn(cards: seq<Placed>, feet: seq<Rect>, id: string): (r: seq<Rect>)
    requires |cards| == |feet|
    ensures forall f :: f in r <==> exists k :: 0 <= k < |cards| && cards[k].agent.task == Some(id) && feet[k] == f
  {
    if cards == [] then []
    else
      var n := |cards| - 1;
      var rest := FeetIn(cards[..n], feet[..n], id);
      if cards[n].agent.task == Some(id) then rest + [feet[n]] else rest
  }

  /** The rectangle drawn for a container: its cards, padded. */
  function DrawnRect(feet: seq<Rect>): Option<Rect> {
    if feet == [] then None
    else
      var held := Rings.Union(feet);
      Some(Rect(held.x - GROUP_PAD, held.y - GROUP_PAD - GROUP_LABEL, held.w + GROUP_PAD * 2.0, held.h + GROUP_PAD * 2.0 + GROUP_LABEL))
  }

  /** A container is drawn within what the packer reserved for it. */
  lemma {:induction false} DrawnInReserved(cards: seq<Placed>, feet: seq<Rect>, boxes: seq<TaskBox>, j: nat)
    requires |cards| == |feet| && j < |boxes| && BoxesOnce(boxes)
    requires forall k :: 0 <= k < |cards| ==> Framed(cards[k], feet[k], boxes)
    ensures var own := FeetIn(cards, feet, boxes[j].id);
            own != [] ==> !boxes[j].size.Empty() && Inside(DrawnRect(own).value, boxes[j].Outer())
  {
    var own := FeetIn(cards, feet, boxes[j].id);
    forall i | 0 <= i < |own|
      ensures Inside(own[i], boxes[j].Frame()) && !boxes[j].size.Empty()
    {
      assert own[i] in own;
      var k :| 0 <= k < |cards| && cards[k].agent.task == Some(boxes[j].id) && feet[k] == own[i];
      assert Framed(cards[k], feet[k], boxes);
    }
    if own != [] {
      Rings.UnionIsLeast(own, boxes[j].Frame());
    }
  }

  /** Drawn containers, in one session or in two, stay a task gap apart. */
  lemma {:induction false} DrawnContainersApart(cards: seq<Placed>, feet: seq<Rect>, boxes: seq<TaskBox>, i: nat, j: nat)
    requires |cards| == |feet| && i < j < |boxes| && BoxesOnce(boxes) && BoxesApart(boxes)
    requires forall k :: 0 <= k < |cards| ==> Framed(cards[k], feet[k], boxes) && feet[k].w >= 0.0 && feet[k].h >= 0.0
    requires FeetIn(cards, feet, boxes[i].id) != [] && FeetIn(cards, feet, boxes[j].id) != []
    ensures Apart(DrawnRect(FeetIn(cards, feet, boxes[i].id)).value, DrawnRect(FeetIn(cards, feet, boxes[j].id)).value, TASK_GAP)
  {
    DrawnInReserved(cards, feet, boxes, i);
    DrawnInReserved(cards, feet, boxes, j);
    UnionNatural(cards, feet, boxes[i].id);
    UnionNatural(cards, feet, boxes[j].id);
    InsideKeepsApart(boxes[i].Outer(), boxes[j].Outer(), DrawnRect(FeetIn(cards, feet, boxes[i].id)).value,
                     DrawnRect(FeetIn(cards, feet, boxes[j].id)).value, TASK_GAP, TASK_GAP);
  }

  lemma {:induction false} UnionNatural(cards: seq<Placed>, feet: seq<Rect>, id: string)
    requires |cards| == |feet| && FeetIn(cards, feet, id) != []
    requires forall k :: 0 <= k < |cards| ==> feet[k].w >= 0.0 && feet[k].h >= 0.0
    ensures Rings.Union(FeetIn(cards, feet, id)).w >= 0.0 && Rings.Union(FeetIn(cards, feet, id)).h >= 0.0
  {
    var own := FeetIn(cards, feet, id);
    assert own[0] in own;
    Rings.UnionHolds(own, 0);
  }

  /** What each card is drawn to take up, delegates included. */
  function ContentRects(drawn: seq<Drawing>): (rects: seq<Rect>)
    ensures |rects| == |drawn| && forall k :: 0 <= k < |rects| ==> rects[k] == Rings.ContentRect(drawn[k].at, drawn[k].ring)
  {
    seq(|drawn|, k requires 0 <= k < |drawn| => Rings.ContentRect(drawn[k].at, drawn[k].ring))
  }

  /** The rectangles of the cards of each container that has any. */
  method ByContainer(cards: seq<Placed>, rects: seq<Rect>) returns (inside: map<string, seq<Rect>>)
    requires |cards| == |rects|
    ensures forall id :: FeetIn(cards, rects, id) == if id in inside then inside[id] else []
    ensures forall id :: id in inside ==> inside[id] != []
  {
    inside := map[];
    for k := 0 to |cards|
      invariant forall id :: FeetIn(cards[..k], rects[..k], id) == if id in inside then inside[id] else []
      invariant forall id :: id in inside ==> inside[id] != []
    {
      assert cards[..k + 1][..k] == cards[..k] && rects[..k + 1][..k] == rects[..k];
      if cards[k].agent.task.Some? {
        var id := cards[k].agent.task.value;
        inside := inside[id := (if id in inside then inside[id] else []) + [rects[k]]];
      }
    }
    assert cards[..|cards|] == cards && rects[..|rects|] == rects;
  }

  /** Round the cards of each container, where it has any. */
  method DrawBoxes(cards: seq<Placed>, drawn: seq<Drawing>, boxes: seq<TaskBox>) returns (rects: seq<Option<Rect>>)
    requires |cards| == |drawn|
    ensures |rects| == |boxes|
    ensures forall j :: 0 <= j < |boxes| ==> rects[j] == DrawnRect(FeetIn(cards, ContentRects(drawn), boxes[j].id))
  {
    var inside := ByContainer(cards, ContentRects(drawn));
    rects := [];
    for j := 0 to |boxes|
      invariant |rects| == j
      invariant forall i :: 0 <= i < j ==> rects[i] == DrawnRect(FeetIn(cards, ContentRects(drawn), boxes[i].id))
    {
      var id := boxes[j].id;
      rects := rects + [if id in inside then DrawnRect(inside[id]) else None];
    }
  }

  /** Each container that has cards is drawn round all of them, within what was reserved for it and a
      task gap from every other; one that has none is not drawn. */
  ghost predicate BoxesDrawn(cards: seq<Placed>, drawn: seq<Drawing>, boxes: seq<TaskBox>, rects: seq<Option<Rect>>) {
    && |cards| == |drawn| && |rects| == |boxes| && BoxesOnce(boxes)
    && (forall k :: 0 <= k < |cards| && cards[k].agent.task.Some? ==>
          exists j :: 0 <= j < |boxes| && cards[k].agent.task == Some(boxes[j].id) && RoundCard(drawn[k], rects[j]))
    && (forall j :: 0 <= j < |rects| && rects[j].Some? ==>
          && Inside(rects[j].value, boxes[j].Outer())
          && exists k :: 0 <= k < |cards| && cards[k].agent.task == Some(boxes[j].id))
    && (forall i, j :: 0 <= i < j < |rects| && rects[i].Some? && rects[j].Some? ==> Apart(rects[i].value, rects[j].value, TASK_GAP))
  }

  /** What a frame is drawn round: it without its padding and label. */
  function Padless(frame: Rect): Rect {
    Rect(frame.x + GROUP_PAD, frame.y + GROUP_PAD + GROUP_LABEL, frame.w - GROUP_PAD * 2.0, frame.h - GROUP_PAD * 2.0 - GROUP_LABEL)
  }

  /** There is a frame, and all that is inked for the card lies within its padding. */
  ghost predicate RoundCard(d: Drawing, frame: Option<Rect>) {
    frame.Some? && forall r :: Inked(d, r) ==> Inside(r, Padless(frame.value))
  }

  lemma {:induction false} CardIsInBox(cards: seq<Placed>, drawn: seq<Drawing>, slots: seq<Point>, feet: seq<Rect>, k: nat, id: string)
    requires |cards| == |drawn| == |feet| && k < |cards| && cards[k].agent.task == Some(id)
    requires DrawnOn(drawn[k], slots, feet[k])
    ensures RoundCard(drawn[k], DrawnRect(FeetIn(cards, feet, id)))
  {
    var own := FeetIn(cards, feet, id);
    assert feet[k] in own;
    var i :| 0 <= i < |own| && own[i] == feet[k];
    Rings.UnionHolds(own, i);
  }

  lemma {:induction false} BoxesAreDrawn(cards: seq<Placed>, drawn: seq<Drawing>, feet: seq<Rect>, boxes: seq<TaskBox>, rects: seq<Option<Rect>>, ring: nat -> seq<Point>)
    requires |cards| == |drawn| == |feet| && |rects| == |boxes| && BoxesOnce(boxes) && BoxesApart(boxes)
    requires forall k :: 0 <= k < |cards| ==> Framed(cards[k], feet[k], boxes) && feet[k].w >= 0.0 && feet[k].h >= 0.0
    requires forall k :: 0 <= k < |cards| ==> DrawnOn(drawn[k], ring(cards[k].agent.delegates), feet[k])
    requires forall j :: 0 <= j < |boxes| ==> rects[j] == DrawnRect(FeetIn(cards, feet, boxes[j].id))
    ensures BoxesDrawn(cards, drawn, boxes, rects)
  {
    hide DrawnOn, RoundCard, Inside, Apart;
    forall k | 0 <= k < |cards| && cards[k].agent.task.Some?
      ensures exists j :: 0 <= j < |boxes| && cards[k].agent.task == Some(boxes[j].id) && RoundCard(drawn[k], rects[j])
    {
      assert Framed(cards[k], feet[k], boxes);
      var j :| 0 <= j < |boxes| && boxes[j].id == cards[k].agent.task.value;
      CardIsInBox(cards, drawn, ring(cards[k].agent.delegates), feet, k, boxes[j].id);
    }
    forall j | 0 <= j < |rects| && rects[j].Some?
      ensures Inside(rects[j].value, boxes[j].Outer())
      ensures exists k :: 0 <= k < |cards| && cards[k].agent.task == Some(boxes[j].id)
    {
      DrawnInReserved(cards, feet, boxes, j);
      assert FeetIn(cards, feet, boxes[j].id)[0] in FeetIn(cards, feet, boxes[j].id);
    }
    forall i, j | 0 <= i < j < |rects| && rects[i].Some? && rects[j].Some?
      ensures Apart(rects[i].value, rects[j].value, TASK_GAP)
    {
      DrawnContainersApart(cards, feet, boxes, i, j);
    }
  }

  /** A container none of whose hand-offs loops is drawn exactly where it was reserved. */
  lemma {:induction false} DrawnIsReserved(agents: seq<Agent>, cards: seq<Placed>, feet: seq<Rect>, boxes: seq<TaskBox>, j: nat)
    requires |cards| == |feet| && j < |boxes| && BoxesOnce(boxes) && BoxesFilled(agents, cards, feet, boxes)
    requires forall k :: 0 <= k < |cards| ==> Framed(cards[k], feet[k], boxes)
    requires NoLoops(Of(agents, In(boxes[j].id))) && FeetIn(cards, feet, boxes[j].id) != []
    ensures DrawnRect(FeetIn(cards, feet, boxes[j].id)) == Some(boxes[j].Outer())
  {
    hide NoLoops, Of;
    hide Framed, FeetIn, Rings.Union;
    DrawnInReserved(cards, feet, boxes, j);
    assert Fills(agents, cards, feet, In(boxes[j].id), boxes[j].Frame());
    var key, f := In(boxes[j].id), boxes[j].Frame();
    var x :| 0 <= x < |cards| && KeyOf(cards[x].agent) == key && feet[x].x == f.x;
    var y :| 0 <= y < |cards| && KeyOf(cards[y].agent) == key && feet[y].x + feet[y].w == f.x + f.w;
    var z :| 0 <= z < |cards| && KeyOf(cards[z].agent) == key && feet[z].y + feet[z].h == f.y + f.h;
    var t :| 0 <= t < |cards| && KeyOf(cards[t].agent) == key && feet[t].y == f.y;
    HeldIn(cards, feet, boxes[j].id, x);
    HeldIn(cards, feet, boxes[j].id, y);
    HeldIn(cards, feet, boxes[j].id, z);
    HeldIn(cards, feet, boxes[j].id, t);
  }

  lemma {:induction false} HeldIn(cards: seq<Placed>, feet: seq<Rect>, id: string, k: nat)
    requires |cards| == |feet| && k < |cards| && KeyOf(cards[k].agent) == In(id)
    ensures Inside(feet[k], Rings.Union(FeetIn(cards, feet, id)))
  {
    var own := FeetIn(cards, feet, id);
    assert feet[k] in own;
    var i :| 0 <= i < |own| && own[i] == feet[k];
    Rings.UnionHolds(own, i);
  }

  // ---- the sessions ----

  /** What a session's frame goes round: its agents' cards, and its drawn containers. */
  function CardsOf(cards: seq<Placed>, feet: seq<Rect>, session: string): (r: seq<Rect>)
    requires |cards| == |feet|
    ensures forall f :: f in r <==> exists k :: 0 <= k < |cards| && cards[k].agent.session == session && feet[k] == f
  {
    if cards == [] then []
    else
      var n := |cards| - 1;
      var rest := CardsOf(cards[..n], feet[..n], session);
      if cards[n].agent.session == session then rest + [feet[n]] else rest
  }

  function ContainersOf(tasks: seq<Task>, boxes: seq<TaskBox>, rects: seq<Option<Rect>>, session: string): (r: seq<Rect>)
    requires |boxes| == |rects|
    ensures forall f :: f in r <==> exists j :: 0 <= j < |boxes| && Task(boxes[j].id, Some(session)) in tasks && rects[j] == Some(f)
  {
    if boxes == [] then []
    else
      var n := |boxes| - 1;
      var rest := ContainersOf(tasks, boxes[..n], rects[..n], session);
      if rects[n].Some? && Task(boxes[n].id, Some(session)) in tasks then rest + [rects[n].value] else rest
  }

  /** Round all that is in each session, where anything is. */
  method DrawSessions(tasks: seq<Task>, order: seq<string>, cards: seq<Placed>, drawn: seq<Drawing>, boxes: seq<TaskBox>, rects: seq<Option<Rect>>)
    returns (sessions: seq<Option<Rect>>)
    requires |cards| == |drawn| && |boxes| == |rects|
    requires forall k :: 0 <= k < |drawn| ==> Rings.ContentRect(drawn[k].at, drawn[k].ring).w > 0.0
    requires forall j :: 0 <= j < |rects| && rects[j].Some? ==> rects[j].value.w > 0.0
    ensures |sessions| == |order|
    ensures forall n :: 0 <= n < |order| ==>
      sessions[n] == DrawnRect(CardsOf(cards, ContentRects(drawn), order[n]) + ContainersOf(tasks, boxes, rects, order[n]))
  {
    hide DrawnRect, Rings.Union;
    sessions := [];
    for n := 0 to |order|
      invariant |sessions| == n
      invariant forall m :: 0 <= m < n ==>
        sessions[m] == DrawnRect(CardsOf(cards, ContentRects(drawn), order[m]) + ContainersOf(tasks, boxes, rects, order[m]))
    {
      var inside := CardsOf(cards, ContentRects(drawn), order[n]) + ContainersOf(tasks, boxes, rects, order[n]);
      var held := Rings.Union(inside);
      AnythingHeld(tasks, cards, ContentRects(drawn), boxes, rects, order[n]);
      if held.w <= 0.0 && held.h <= 0.0 {
        sessions := sessions + [None];
      } else {
        sessions := sessions + [Some(Rect(held.x - GROUP_PAD, held.y - GROUP_PAD - GROUP_LABEL,
                                          held.w + GROUP_PAD * 2.0, held.h + GROUP_PAD * 2.0 + GROUP_LABEL))];
      }
    }
  }

  /** The union of rectangles that have some width has some width: there is nothing to go round only when
      there are none. */
  lemma {:induction false} AnythingHeld(tasks: seq<Task>, cards: seq<Placed>, feet: seq<Rect>, boxes: seq<TaskBox>, rects: seq<Option<Rect>>, session: string)
    requires |cards| == |feet| && |boxes| == |rects|
    requires forall k :: 0 <= k < |feet| ==> feet[k].w > 0.0
    requires forall j :: 0 <= j < |rects| && rects[j].Some? ==> rects[j].value.w > 0.0
    ensures var inside := CardsOf(cards, feet, session) + ContainersOf(tasks, boxes, rects, session);
            var held := Rings.Union(inside);
            DrawnRect(inside) == if held.w <= 0.0 && held.h <= 0.0 then None
                                 else Some(Rect(held.x - GROUP_PAD, held.y - GROUP_PAD - GROUP_LABEL,
                                                held.w + GROUP_PAD * 2.0, held.h + GROUP_PAD * 2.0 + GROUP_LABEL))
  {
    var a, b := CardsOf(cards, feet, session), ContainersOf(tasks, boxes, rects, session);
    var inside := a + b;
    if inside != [] {
      assert if a != [] then inside[0] in a else inside[0] in b;
      Rings.UnionHolds(inside, 0);
    }
  }

  /** Each session's frame goes round the cards of its agents and its containers; one without either has none. */
  ghost predicate SessionsDrawn(tasks: seq<Task>, order: seq<string>, cards: seq<Placed>, drawn: seq<Drawing>,
                                boxes: seq<TaskBox>, rects: seq<Option<Rect>>, sessions: seq<Option<Rect>>) {
    && |sessions| == |order| && |cards| == |drawn| && |boxes| == |rects|
    && (forall n, k :: 0 <= n < |order| && 0 <= k < |cards| && cards[k].agent.session == order[n] ==> RoundCard(drawn[k], sessions[n]))
    && (forall n, j :: 0 <= n < |order| && 0 <= j < |boxes| && Task(boxes[j].id, Some(order[n])) in tasks && rects[j].Some? ==>
          sessions[n].Some? && Inside(rects[j].value, Padless(sessions[n].value)))
    && (forall n :: 0 <= n < |order| && sessions[n].Some? ==>
          || (exists k :: 0 <= k < |cards| && cards[k].agent.session == order[n])
          || (exists j :: 0 <= j < |boxes| && Task(boxes[j].id, Some(order[n])) in tasks && rects[j].Some?))
  }

  lemma DrawnRound(inside: seq<Rect>, r: Rect)
    requires r in inside
    ensures DrawnRect(inside).Some? && Inside(r, Padless(DrawnRect(inside).value))
  {
    var i :| 0 <= i < |inside| && inside[i] == r;
    Rings.UnionHolds(inside, i);
  }

  lemma {:induction false} SessionsAreDrawn(tasks: seq<Task>, order: seq<string>, cards: seq<Placed>, drawn: seq<Drawing>, feet: seq<Rect>,
                         boxes: seq<TaskBox>, rects: seq<Option<Rect>>, sessions: seq<Option<Rect>>, ring: nat -> seq<Point>)
    requires |cards| == |drawn| == |feet| && |boxes| == |rects| && |sessions| == |order|
    requires forall k :: 0 <= k < |cards| ==> DrawnOn(drawn[k], ring(cards[k].agent.delegates), feet[k])
    requires forall n :: 0 <= n < |order| ==>
      sessions[n] == DrawnRect(CardsOf(cards, feet, order[n]) + ContainersOf(tasks, boxes, rects, order[n]))
    ensures SessionsDrawn(tasks, order, cards, drawn, boxes, rects, sessions)
  {
    hide DrawnOn, RoundCard, Inside, DrawnRect;
    forall n, k | 0 <= n < |order| && 0 <= k < |cards| && cards[k].agent.session == order[n]
      ensures RoundCard(drawn[k], sessions[n])
    {
      var inside := CardsOf(cards, feet, order[n]) + ContainersOf(tasks, boxes, rects, order[n]);
      assert feet[k] in CardsOf(cards, feet, order[n]);
      DrawnRound(inside, feet[k]);
      CardIsRound(drawn[k], ring(cards[k].agent.delegates), feet[k], sessions[n].value);
    }
    forall n, j | 0 <= n < |order| && 0 <= j < |boxes| && Task(boxes[j].id, Some(order[n])) in tasks && rects[j].Some?
      ensures sessions[n].Some? && Inside(rects[j].value, Padless(sessions[n].value))
    {
      var inside := CardsOf(cards, feet, order[n]) + ContainersOf(tasks, boxes, rects, order[n]);
      assert rects[j].value in ContainersOf(tasks, boxes, rects, order[n]);
      DrawnRound(inside, rects[j].value);
    }
    forall n | 0 <= n < |order| && sessions[n].Some?
      ensures (exists k :: 0 <= k < |cards| && cards[k].agent.session == order[n])
              || (exists j :: 0 <= j < |boxes| && Task(boxes[j].id, Some(order[n])) in tasks && rects[j].Some?)
    {
      SomethingDrawn(CardsOf(cards, feet, order[n]), ContainersOf(tasks, boxes, rects, order[n]));
    }
  }

  lemma SomethingDrawn(a: seq<Rect>, b: seq<Rect>)
    requires DrawnRect(a + b).Some?
    ensures (exists r :: r in a) || (exists r :: r in b)
  {
    if a != [] {
      assert a[0] in a;
    } else {
      assert b[0] in b;
    }
  }

  lemma CardIsRound(d: Drawing, slots: seq<Point>, foot: Rect, frame: Rect)
    requires DrawnOn(d, slots, foot) && Inside(foot, Padless(frame))
    ensures RoundCard(d, Some(frame))
  {
  }

  // ---- frames of two sessions in a row ----

  /** `a` reaches into `b` by as much as the two frames are padded more than the sessions are apart. */
  predicate Overlaps(a: Rect, b: Rect) {
    && !Apart(a, b, 0.0)
    && a.y + a.h - b.y >= GROUP_PAD * 2.0 + GROUP_LABEL - TASK_GAP
  }

  lemma {:induction false} FramesOverlap(agents: seq<Agent>, tasks: seq<Task>, order: seq<string>, tops: seq<real>, cards: seq<Placed>, feet: seq<Rect>,
                      boxes: seq<TaskBox>, rects: seq<Option<Rect>>, n: nat)
    requires SessionsStacked(agents, tasks, order, tops, cards, feet, boxes) && BoxesFilled(agents, cards, feet, boxes)
    requires |cards| == |feet| && |boxes| == |rects| && n + 1 < |order|
    requires forall j :: 0 <= j < |boxes| ==> rects[j] == DrawnRect(FeetIn(cards, feet, boxes[j].id))
    requires BoxesOnce(boxes) && forall k :: 0 <= k < |cards| ==> Framed(cards[k], feet[k], boxes) && feet[k].w > 0.0 && feet[k].h > 0.0
    requires Of(agents, Loose(order[n])) != [] && Of(agents, Loose(order[n + 1])) != [] && NoLoops(Of(agents, Loose(order[n + 1])))
    ensures var a, b := DrawnRect(CardsOf(cards, feet, order[n]) + ContainersOf(tasks, boxes, rects, order[n])),
                        DrawnRect(CardsOf(cards, feet, order[n + 1]) + ContainersOf(tasks, boxes, rects, order[n + 1]));
            a.Some? && b.Some? && Overlaps(a.value, b.value)
  {
    hide NoLoops, Of, DrawnRect, SessionsStacked, BoxesFilled;
    assert Reaches(agents, tasks, order[n], tops[n], tops[n + 1], cards, feet, boxes)
      && Reaches(agents, tasks, order[n + 1], tops[n + 1], tops[n + 2], cards, feet, boxes) by {
      BothReach(agents, tasks, order, tops, cards, feet, boxes, n);
    }
    var insideA := CardsOf(cards, feet, order[n]) + ContainersOf(tasks, boxes, rects, order[n]);
    var insideB := CardsOf(cards, feet, order[n + 1]) + ContainersOf(tasks, boxes, rects, order[n + 1]);
    var left := LeftCard(agents, tasks, order[n], tops[n], tops[n + 1], cards, feet, boxes);
    var below := LowestThing(agents, tasks, order[n], tops[n], tops[n + 1], cards, feet, boxes, rects);
    var left' := LeftCard(agents, tasks, order[n + 1], tops[n + 1], tops[n + 2], cards, feet, boxes);
    var first := TopCard(agents, tasks, order[n + 1], tops[n + 1], tops[n + 2], cards, feet, boxes);
    DrawnRound(insideA, left);
    DrawnRound(insideA, below);
    DrawnRound(insideB, left');
    DrawnRound(insideB, first);
    FramesMeet(DrawnRect(insideA).value, DrawnRect(insideB).value, left, below, left', first, tops[n + 1]);
  }

  lemma {:induction false} BothReach(agents: seq<Agent>, tasks: seq<Task>, order: seq<string>, tops: seq<real>, cards: seq<Placed>, feet: seq<Rect>, boxes: seq<TaskBox>, n: nat)
    requires SessionsStacked(agents, tasks, order, tops, cards, feet, boxes) && n + 1 < |order|
    requires Of(agents, Loose(order[n])) != [] && Of(agents, Loose(order[n + 1])) != []
    ensures |tops| == |order| + 1
    ensures Reaches(agents, tasks, order[n], tops[n], tops[n + 1], cards, feet, boxes)
    ensures Reaches(agents, tasks, order[n + 1], tops[n + 1], tops[n + 2], cards, feet, boxes)
  {
    hide Of, Reaches;
  }

  lemma FramesMeet(a: Rect, b: Rect, left: Rect, below: Rect, left': Rect, first: Rect, y: real)
    requires Inside(left, Padless(a)) && Inside(below, Padless(a)) && Inside(left', Padless(b)) && Inside(first, Padless(b))
    requires left.x == LAYOUT_MARGIN == left'.x && left.w > 0.0 && left'.w > 0.0 && first.h > 0.0 && below.h > 0.0
    requires below.y + below.h + TASK_GAP == y && first.y == y
    ensures Overlaps(a, b)
  {
  }

  lemma LeftCard(agents: seq<Agent>, tasks: seq<Task>, session: string, top: real, y: real, cards: seq<Placed>, feet: seq<Rect>, boxes: seq<TaskBox>)
    returns (foot: Rect)
    requires |cards| == |feet| && Reaches(agents, tasks, session, top, y, cards, feet, boxes)
    ensures foot in CardsOf(cards, feet, session) && foot in feet && foot.x == LAYOUT_MARGIN
  {
    hide NoLoops, Of;
    var width: real, height: real :|
      && Fills(agents, cards, feet, Loose(session), Rect(LAYOUT_MARGIN, top, width, height))
      && (top + height + TASK_GAP == y || LowestOf(tasks, session, boxes, y));
    var k :| 0 <= k < |cards| && KeyOf(cards[k].agent) == Loose(session) && feet[k].x == LAYOUT_MARGIN;
    foot := feet[k];
  }

  lemma TopCard(agents: seq<Agent>, tasks: seq<Task>, session: string, top: real, y: real, cards: seq<Placed>, feet: seq<Rect>, boxes: seq<TaskBox>)
    returns (foot: Rect)
    requires |cards| == |feet| && Reaches(agents, tasks, session, top, y, cards, feet, boxes) && NoLoops(Of(agents, Loose(session)))
    ensures foot in CardsOf(cards, feet, session) && foot in feet && foot.y == top
  {
    hide NoLoops, Of;
    var width: real, height: real :|
      && Fills(agents, cards, feet, Loose(session), Rect(LAYOUT_MARGIN, top, width, height))
      && (top + height + TASK_GAP == y || LowestOf(tasks, session, boxes, y));
    var k :| 0 <= k < |cards| && KeyOf(cards[k].agent) == Loose(session) && feet[k].y == top;
    foot := feet[k];
  }

  /** A loose card, or a drawn container, that reaches all the way down. */
  lemma LowestThing(agents: seq<Agent>, tasks: seq<Task>, session: string, top: real, y: real, cards: seq<Placed>, feet: seq<Rect>,
                    boxes: seq<TaskBox>, rects: seq<Option<Rect>>) returns (r: Rect)
    requires |cards| == |feet| && |boxes| == |rects|
    requires Reaches(agents, tasks, session, top, y, cards, feet, boxes) && BoxesFilled(agents, cards, feet, boxes)
    requires forall j :: 0 <= j < |boxes| ==> rects[j] == DrawnRect(FeetIn(cards, feet, boxes[j].id))
    requires BoxesOnce(boxes) && forall k :: 0 <= k < |cards| ==> Framed(cards[k], feet[k], boxes) && feet[k].w > 0.0 && feet[k].h > 0.0
    ensures r in CardsOf(cards, feet, session) || r in ContainersOf(tasks, boxes, rects, session)
    ensures r.y + r.h + TASK_GAP == y && r.h > 0.0
  {
    hide NoLoops, Of, DrawnRect, BoxesOnce, Framed, FeetIn;
    var width: real, height: real :|
      && Fills(agents, cards, feet, Loose(session), Rect(LAYOUT_MARGIN, top, width, height))
      && (top + height + TASK_GAP == y || LowestOf(tasks, session, boxes, y));
    if top + height + TASK_GAP == y {
      var k :| 0 <= k < |cards| && KeyOf(cards[k].agent) == Loose(session) && feet[k].y + feet[k].h == top + height;
      r := feet[k];
    } else {
      var j :| 0 <= j < |boxes| && !boxes[j].size.Empty() && Task(boxes[j].id, Some(session)) in tasks
               && boxes[j].Outer().y + boxes[j].Outer().h + TASK_GAP == y;
      assert Fills(agents, cards, feet, In(boxes[j].id), boxes[j].Frame());
      r := BoxReachesDown(agents, cards, feet, boxes, j);
      assert rects[j] == Some(r);
    }
  }

  lemma BoxReachesDown(agents: seq<Agent>, cards: seq<Placed>, feet: seq<Rect>, boxes: seq<TaskBox>, j: nat) returns (r: Rect)
    requires |cards| == |feet| && j < |boxes| && BoxesOnce(boxes)
    requires Fills(agents, cards, feet, In(boxes[j].id), boxes[j].Frame())
    requires forall k :: 0 <= k < |cards| ==> Framed(cards[k], feet[k], boxes) && feet[k].w > 0.0 && feet[k].h > 0.0
    ensures DrawnRect(FeetIn(cards, feet, boxes[j].id)) == Some(r)
    ensures r.h > 0.0 && r.y + r.h == boxes[j].Outer().y + boxes[j].Outer().h
  {
    hide NoLoops, Of, Framed;
    var box := boxes[j];
    var k :| 0 <= k < |cards| && KeyOf(cards[k].agent) == In(box.id) && feet[k].y + feet[k].h == box.Frame().y + box.Frame().h;
    HeldIn(cards, feet, box.id, k);
    assert feet[k] in FeetIn(cards, feet, box.id);
    DrawnInReserved(cards, feet, boxes, j);
    r := DrawnRect(FeetIn(cards, feet, box.id)).value;
  }

  // ---- the whole arrangement ----

  /** A loose card and its delegates keep a task gap from every drawn container. */
  ghost predicate LooseApart(cards: seq<Placed>, drawn: seq<Drawing>, rects: seq<Option<Rect>>) {
    |cards| == |drawn| && forall k, j, r :: 0 <= k < |cards| && cards[k].agent.task.None? && 0 <= j < |rects| && rects[j].Some? && Inked(drawn[k], r) ==>
      Apart(r, rects[j].value, TASK_GAP)
  }

  lemma {:induction false} LooseIsApart(cards: seq<Placed>, drawn: seq<Drawing>, feet: seq<Rect>, boxes: seq<TaskBox>, rects: seq<Option<Rect>>, ring: nat -> seq<Point>)
    requires |cards| == |drawn| == |feet| && |rects| == |boxes| && BoxesOnce(boxes) && LooseClear(cards, feet, boxes)
    requires forall k :: 0 <= k < |cards| ==> Framed(cards[k], feet[k], boxes) && feet[k].w > 0.0 && feet[k].h > 0.0
    requires forall k :: 0 <= k < |cards| ==> DrawnOn(drawn[k], ring(cards[k].agent.delegates), feet[k])
    requires forall j :: 0 <= j < |boxes| ==> rects[j] == DrawnRect(FeetIn(cards, feet, boxes[j].id))
    ensures LooseApart(cards, drawn, rects)
  {
    hide Framed, Apart;
    forall k, j, r | 0 <= k < |cards| && cards[k].agent.task.None? && 0 <= j < |rects| && rects[j].Some? && Inked(drawn[k], r)
      ensures Apart(r, rects[j].value, TASK_GAP)
    {
      DrawnInReserved(cards, feet, boxes, j);
      UnionNatural(cards, feet, boxes[j].id);
      assert Inside(r, feet[k]) && Apart(feet[k], boxes[j].Outer(), TASK_GAP);
      InsideKeepsApart(feet[k], boxes[j].Outer(), r, rects[j].value, TASK_GAP, TASK_GAP);
    }
  }

  /** The frames of two sessions in a row overlap when both have a loose card, in the second one on its
      first row. */
  ghost predicate NeighboursOverlap(agents: seq<Agent>, order: seq<string>, sessions: seq<Option<Rect>>) {
    |sessions| == |order| && forall n: nat :: n + 1 < |order| && LooseInBoth(agents, order[n], order[n + 1]) ==>
      sessions[n].Some? && sessions[n + 1].Some? && Overlaps(sessions[n].value, sessions[n + 1].value)
  }

  ghost predicate LooseInBoth(agents: seq<Agent>, above: string, below: string) {
    Of(agents, Loose(above)) != [] && Of(agents, Loose(below)) != [] && NoLoops(Of(agents, Loose(below)))
  }

  /** A container none of whose hand-offs loops is drawn exactly as it was reserved. */
  ghost predicate DrawnAsReserved(agents: seq<Agent>, boxes: seq<TaskBox>, rects: seq<Option<Rect>>) {
    |rects| == |boxes| && forall j :: 0 <= j < |boxes| && rects[j].Some? && NoLoops(Of(agents, In(boxes[j].id))) ==>
      rects[j].value == boxes[j].Outer()
  }

  /** The sessions are built as the arrangement says, one under the other. */
  ghost predicate Arranged(agents: seq<Agent>, tasks: seq<Task>, order: seq<string>, cards: seq<Placed>, boxes: seq<TaskBox>, algo: Algo, target: real) {
    exists tops: seq<real> :: BuiltAs(agents, tasks, order, cards, boxes, tops, algo, target)
  }

  /** From the definitions to the picture. Each drawn card is there once, and none is closer to another,
      delegates included, than a card gap. Every container is drawn round its cards, where it was reserved,
      clear of all others and of the loose cards; every session round what is in it. Yet the frames of two
      sessions in a row overlap. */
  method LayoutAuto(agents: seq<Agent>, tasks: seq<Task>, algo: Algo, target: real)
    returns (cards: seq<Placed>, drawn: seq<Drawing>, boxes: seq<TaskBox>, rects: seq<Option<Rect>>, order: seq<string>, sessions: seq<Option<Rect>>)
    requires DistinctIds(agents) && DistinctTasks(tasks) && Sound(algo, agents, tasks)
    ensures |drawn| == |cards|
    ensures forall a :: a in agents ==> multiset(CardIds(cards))[a.id] == if IsDrawn(a, tasks) then 1 else 0
    ensures forall k :: 0 <= k < |cards| ==> cards[k].agent in agents
    ensures forall i, j :: 0 <= i < j < |drawn| ==> CardsClear(drawn[i], drawn[j])
    ensures BoxesDrawn(cards, drawn, boxes, rects) && LooseApart(cards, drawn, rects) && DrawnAsReserved(agents, boxes, rects)
    ensures Sessions(order, agents, tasks) && SessionsDrawn(tasks, order, cards, drawn, boxes, rects, sessions)
    ensures NeighboursOverlap(agents, order, sessions)
    ensures forall k :: 0 <= k < |cards| ==> AtItsPlace(cards[k], drawn[k], boxes) && WithDelegates(drawn[k], algo.ring(cards[k].agent.delegates))
    ensures AsFirstNamed(order, Named(agents, tasks)) && Arranged(agents, tasks, order, cards, boxes, algo, target)
  {
    hide BuiltAs, AsFirstNamed, Framed, AtItsPlace, WithDelegates, BoxesDrawn, CardsClear, DrawnOn, SessionsDrawn, LooseApart, DrawnAsReserved, NeighboursOverlap, Sessions,
      SessionsStacked, BoxesFilled, LooseClear, DrawnRect;
    var origins;
    ghost var feet, tops;
    cards, origins, boxes, order, feet, tops := Build.Build(agents, tasks, algo, target);
    drawn := DrawCards(agents, cards, origins, algo.ring, feet);
    PlacesAreKept(cards, drawn, feet, origins, boxes, algo.ring);
    rects := DrawBoxes(cards, drawn, boxes);
    FeetAreDrawn(agents, cards, drawn, origins, feet, algo.ring);
    BoxesAreDrawn(cards, drawn, feet, boxes, rects, algo.ring);
    LooseIsApart(cards, drawn, feet, boxes, rects, algo.ring);
    ReservedAsDrawn(agents, cards, feet, boxes, rects);
    BoxesHaveWidth(cards, feet, boxes, rects);
    sessions := DrawSessions(tasks, order, cards, drawn, boxes, rects);
    SessionsAreDrawn(tasks, order, cards, drawn, feet, boxes, rects, sessions, algo.ring);
    NeighboursDoOverlap(agents, tasks, order, tops, cards, feet, boxes, rects, sessions);
    forall i, j | 0 <= i < j < |drawn|
      ensures CardsClear(drawn[i], drawn[j])
    {
      DrawnClear(drawn[i], algo.ring(cards[i].agent.delegates), feet[i], drawn[j], algo.ring(cards[j].agent.delegates), feet[j]);
    }
  }

  lemma {:induction false} ReservedAsDrawn(agents: seq<Agent>, cards: seq<Placed>, feet: seq<Rect>, boxes: seq<TaskBox>, rects: seq<Option<Rect>>)
    requires |cards| == |feet| && |boxes| == |rects| && BoxesOnce(boxes) && BoxesFilled(agents, cards, feet, boxes)
    requires forall k :: 0 <= k < |cards| ==> Framed(cards[k], feet[k], boxes)
    requires forall j :: 0 <= j < |boxes| ==> rects[j] == DrawnRect(FeetIn(cards, feet, boxes[j].id))
    ensures DrawnAsReserved(agents, boxes, rects)
  {
    hide NoLoops, Of, BoxesFilled, Framed;
    forall j | 0 <= j < |boxes| && rects[j].Some? && NoLoops(Of(agents, In(boxes[j].id)))
      ensures rects[j].value == boxes[j].Outer()
    {
      DrawnIsReserved(agents, cards, feet, boxes, j);
    }
  }

  lemma {:induction false} BoxesHaveWidth(cards: seq<Placed>, feet: seq<Rect>, boxes: seq<TaskBox>, rects: seq<Option<Rect>>)
    requires |cards| == |feet| && |boxes| == |rects|
    requires forall j :: 0 <= j < |boxes| ==> rects[j] == DrawnRect(FeetIn(cards, feet, boxes[j].id))
    requires forall k :: 0 <= k < |feet| ==> feet[k].w > 0.0 && feet[k].h > 0.0
    ensures forall j :: 0 <= j < |rects| && rects[j].Some? ==> rects[j].value.w > 0.0
  {
    forall j | 0 <= j < |rects| && rects[j].Some?
      ensures rects[j].value.w > 0.0
    {
      UnionNatural(cards, feet, boxes[j].id);
    }
  }

  lemma {:induction false} NeighboursDoOverlap(agents: seq<Agent>, tasks: seq<Task>, order: seq<string>, tops: seq<real>, cards: seq<Placed>, feet: seq<Rect>,
                            boxes: seq<TaskBox>, rects: seq<Option<Rect>>, sessions: seq<Option<Rect>>)
    requires SessionsStacked(agents, tasks, order, tops, cards, feet, boxes) && BoxesFilled(agents, cards, feet, boxes)
    requires |cards| == |feet| && |boxes| == |rects| && |sessions| == |order|
    requires forall j :: 0 <= j < |boxes| ==> rects[j] == DrawnRect(FeetIn(cards, feet, boxes[j].id))
    requires BoxesOnce(boxes) && forall k :: 0 <= k < |cards| ==> Framed(cards[k], feet[k], boxes) && feet[k].w > 0.0 && feet[k].h > 0.0
    requires forall n :: 0 <= n < |order| ==>
      sessions[n] == DrawnRect(CardsOf(cards, feet, order[n]) + ContainersOf(tasks, boxes, rects, order[n]))
    ensures NeighboursOverlap(agents, order, sessions)
  {
    hide SessionsStacked, BoxesFilled, DrawnRect, NoLoops, Of, Overlaps;
    forall n: nat | n + 1 < |order| && LooseInBoth(agents, order[n], order[n + 1])
      ensures sessions[n].Some? && sessions[n + 1].Some? && Overlaps(sessions[n].value, sessions[n + 1].value)
    {
      FramesOverlap(agents, tasks, order, tops, cards, feet, boxes, rects, n);
    }
  }

  lemma FeetAreDrawn(agents: seq<Agent>, cards: seq<Placed>, drawn: seq<Drawing>, origins: Origins, feet: seq<Rect>, ring: nat -> seq<Point>)
    requires Stands(cards, feet, origins, RoomOf(agents, ring)) && |drawn| == |cards|
    requires forall k :: 0 <= k < |cards| ==> DrawnOn(drawn[k], ring(cards[k].agent.delegates), feet[k])
    ensures ContentRects(drawn) == feet
    ensures forall k :: 0 <= k < |feet| ==> feet[k].w > 0.0 && feet[k].h > 0.0
  {
    RoomsAreRoomy(agents, ring);
    forall k | 0 <= k < |feet|
      ensures ContentRects(drawn)[k] == feet[k] && feet[k].w > 0.0 && feet[k].h > 0.0
    {
      assert DrawnOn(drawn[k], ring(cards[k].agent.delegates), feet[k]);
      assert Foot(origins, RoomOf(agents, ring), cards[k]) == feet[k];
    }
  }

  /** The least input that shows it: one loose card in each of two sessions. */
  method TwoLooseCards(a: Agent, b: Agent, algo: Algo, target: real) returns (sessions: seq<Option<Rect>>)
    requires a.id != b.id && a.session != b.session && a.task.None? && b.task.None? && a.parent.None? && b.parent.None?
    requires SoundFold(algo.inside) && SoundFold(algo.loose)
    ensures |sessions| == 2 && sessions[0].Some? && sessions[1].Some? && Overlaps(sessions[0].value, sessions[1].value)
  {
    hide BoxesDrawn, LooseApart, DrawnAsReserved, SessionsDrawn, CardsClear, Overlaps, Of, NoLoops, AtItsPlace, WithDelegates, AsFirstNamed, Arranged;
    var agents := [a, b];
    NoParentNoLoop(agents, KeyOf(a));
    NoParentNoLoop(agents, KeyOf(b));
    assert Sound(algo, agents, []);
    var cards, drawn, boxes, rects, order;
    cards, drawn, boxes, rects, order, sessions := LayoutAuto(agents, [], algo, target);
    TwoInOrder(order, a, b);
    assert a in Of(agents, Loose(a.session)) && b in Of(agents, Loose(b.session));
    assert LooseInBoth(agents, order[0], order[0 + 1]);
  }

  lemma {:induction false} NoParentNoLoop(agents: seq<Agent>, key: Key)
    requires forall a :: a in agents ==> a.parent.None?
    ensures NoLoops(Of(agents, key))
  {
    var members := Of(agents, key);
    forall parents, k | AreHandOffs(parents, members) && 0 <= k < |members|
      ensures !Loops(parents, members[k].id)
    {
      assert members[k] in members && Knows(parents, members, members[k]);
      assert Chain(parents, members[k].id, 0);
    }
  }

  lemma TwoInOrder(order: seq<string>, a: Agent, b: Agent)
    requires a.session != b.session && Sessions(order, [a, b], [])
    ensures order == [a.session, b.session] || order == [b.session, a.session]
  {
    assert a in [a, b] && b in [a, b];
    forall s
      ensures s in order <==> s == a.session || s == b.session
    {
    }
    assert Elements(order) == {a.session, b.session};
    OnceEach(order);
  }

  function Elements(order: seq<string>): set<string> {
    set s | s in order
  }

  /** A list in which nothing is twice is as long as the set of what is in it. */
  lemma {:induction false} OnceEach(order: seq<string>)
    requires forall i, j :: 0 <= i < j < |order| ==> order[i] != order[j]
    ensures |Elements(order)| == |order|
  {
    if order != [] {
      var n := |order| - 1;
      OnceEach(order[..n]);
      assert Elements(order) == Elements(order[..n]) + {order[n]};
    }
  }
}
