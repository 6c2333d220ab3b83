/** The whole arrangement: every session from scratch, its loose cards over its packed containers. */
module Build {
  import opened Constants
  import opened Geometry
  import opened Options
  import opened Rows
  import Packers
  import Parents
  import Rings

  datatype Task = Task(id: string, session: Option<string>)

  datatype Algo = Algo(ring: nat -> seq<Point>, inside: Fold, loose: Fold, packer: Packers.Packer, forest: bool, judge: Packers.Judge)

  /** A card and its offset, which counts from the origin of its container, or from the corner of the canvas when it is loose. */
  datatype Placed = Placed(agent: Agent, offset: Point)

  type Origins = map<string, Point>

  function FoldOf(algo: Algo, key: Key): Fold {
    if key.In? then algo.inside else algo.loose
  }

  /** The fold rules answer for every row of every block that is drawn. */
  ghost predicate Sound(algo: Algo, agents: seq<Agent>, tasks: seq<Task>) {
    && SoundFold(algo.inside) && SoundFold(algo.loose)
    && (forall a :: a in agents && IsDrawn(a, tasks) ==> Folds(FoldOf(algo, KeyOf(a)), Of(agents, KeyOf(a))))
  }

  /** That covers the blocks nobody is in. */
  lemma {:induction false} BlockFolds(algo: Algo, agents: seq<Agent>, tasks: seq<Task>, key: Key)
    requires Sound(algo, agents, tasks)
    requires key.In? ==> exists k :: 0 <= k < |tasks| && tasks[k].id == key.task && tasks[k].session.Some?
    ensures Folds(FoldOf(algo, key), Of(agents, key))
  {
    if Of(agents, key) != [] {
      var a := Of(agents, key)[0];
      assert a in Of(agents, key);
      assert IsDrawn(a, tasks);
    }
  }

  function Lookup(agents: seq<Agent>, id: string): (a: Option<Agent>)
    ensures a.Some? ==> a.value in agents && a.value.id == id
    ensures a.None? ==> forall k :: 0 <= k < |agents| ==> agents[k].id != id
  {
    if agents == [] then None
    else if agents[0].id == id then Some(agents[0])
    else Lookup(agents[1..], id)
  }

  lemma {:induction false} LookupFinds(agents: seq<Agent>, a: Agent)
    requires DistinctIds(agents) && a in agents
    ensures Lookup(agents, a.id) == Some(a)
  {
    if agents[0].id != a.id {
      LookupFinds(agents[1..], a);
    } else {
      var k :| 0 <= k < |agents| && agents[k] == a;
      assert k == 0;
    }
  }

  /** The room the card `id` takes with the delegates it has. */
  function Room(agents: seq<Agent>, ring: nat -> seq<Point>, id: string): Rect {
    var a := Lookup(agents, id);
    Rings.RingBox(ring(if a.Some? then a.value.delegates else 0))
  }

  function RoomOf(agents: seq<Agent>, ring: nat -> seq<Point>): Rooms {
    (id: string) => Room(agents, ring, id)
  }

  lemma RoomsAreRoomy(agents: seq<Agent>, ring: nat -> seq<Point>)
    ensures Roomy(RoomOf(agents, ring))
  {
    forall id
      ensures Room(agents, ring, id).w >= CARD_WIDTH && Room(agents, ring, id).h >= CARD_HEIGHT
    {
      var a := Lookup(agents, id);
      Rings.RingBoxHolds(ring(if a.Some? then a.value.delegates else 0));
    }
  }

  // ---- where a card ends up ----

  function OriginOf(origins: Origins, task: Option<string>): Point {
    if task.Some? && task.value in origins then origins[task.value] else Point(0.0, 0.0)
  }

  function Spot(origins: Origins, card: Placed): Point {
    var o := OriginOf(origins, card.agent.task);
    Point(o.x + card.offset.x, o.y + card.offset.y)
  }

  /** The rectangle that the card and its delegates occupy, its room moved to where it stands. */
  function Foot(origins: Origins, room: Rooms, card: Placed): Rect {
    Shift(room(card.agent.id), Spot(origins, card))
  }

  /** Every card of a container knows where the container is, and stands on the footprint listed. */
  ghost predicate Stands(cards: seq<Placed>, feet: seq<Rect>, origins: Origins, room: Rooms) {
    && |feet| == |cards|
    && (forall k :: 0 <= k < |cards| ==>
          && (cards[k].agent.task.Some? ==> cards[k].agent.task.value in origins)
          && Foot(origins, room, cards[k]) == feet[k])
  }

  lemma OneFootEach(cards: seq<Placed>, feet: seq<Rect>, origins: Origins, room: Rooms)
    requires Stands(cards, feet, origins, room)
    ensures |feet| == |cards|
  {
  }

  /** No two footprints are closer than a card gap. */
  ghost predicate Clear(feet: seq<Rect>) {
    forall i, j :: 0 <= i < j < |feet| ==> Apart(feet[i], feet[j], CARD_GAP_X)
  }

  lemma ClearJoin(a: seq<Rect>, b: seq<Rect>)
    requires Clear(a) && Clear(b)
    requires forall i, j :: 0 <= i < |a| && 0 <= j < |b| ==> Apart(a[i], b[j], CARD_GAP_X)
    ensures Clear(a + b)
  {
    forall i, j | 0 <= i < j < |a + b|
      ensures Apart((a + b)[i], (a + b)[j], CARD_GAP_X)
    {
      if i >= |a| {
        assert Apart(b[i - |a|], b[j - |a|], CARD_GAP_X);
      } else if j < |a| {
        assert Apart(a[i], a[j], CARD_GAP_X);
      } else {
        assert Apart(a[i], b[j - |a|], CARD_GAP_X);
      }
    }
  }

  lemma StandsJoin(a: seq<Placed>, fa: seq<Rect>, b: seq<Placed>, fb: seq<Rect>, origins: Origins, room: Rooms)
    requires Stands(a, fa, origins, room) && Stands(b, fb, origins, room)
    ensures Stands(a + b, fa + fb, origins, room)
  {
  }

  /** Origins that only gain containers move no card. */
  lemma StandsStill(cards: seq<Placed>, feet: seq<Rect>, origins: Origins, origins': Origins, room: Rooms)
    requires Stands(cards, feet, origins, room)
    requires forall t :: t in origins ==> t in origins' && origins'[t] == origins[t]
    ensures Stands(cards, feet, origins', room)
  {
    forall k | 0 <= k < |cards|
      ensures Foot(origins', room, cards[k]) == feet[k]
    {
      assert Foot(origins, room, cards[k]) == feet[k];
    }
  }

  // ---- one block of cards ----

  /** The cards of a block, each `shift`ed. */
  method Seats(agents: seq<Agent>, seats: seq<Seat>, shift: Point) returns (cards: seq<Placed>)
    requires forall k :: 0 <= k < |seats| ==> Lookup(agents, seats[k].id).Some?
    ensures |cards| == |seats|
    ensures forall k :: 0 <= k < |cards| ==>
      && Lookup(agents, seats[k].id) == Some(cards[k].agent)
      && cards[k].offset == Point(shift.x + seats[k].at.x, shift.y + seats[k].at.y)
  {
    cards := [];
    for k := 0 to |seats|
      invariant |cards| == k
      invariant forall j :: 0 <= j < k ==>
        && Lookup(agents, seats[j].id) == Some(cards[j].agent)
        && cards[j].offset == Point(shift.x + seats[j].at.x, shift.y + seats[j].at.y)
    {
      cards := cards + [Placed(Lookup(agents, seats[k].id).value, Point(shift.x + seats[k].at.x, shift.y + seats[k].at.y))];
    }
  }

  /** The cards are those of the block, in its order, each `shift`ed. */
  ghost predicate SeatedAs(agents: seq<Agent>, c: Contents, shift: Point, cards: seq<Placed>) {
    && |cards| == |c.cards|
    && (forall k :: 0 <= k < |cards| ==>
          && Lookup(agents, c.cards[k].id) == Some(cards[k].agent)
          && cards[k].offset == Point(shift.x + c.cards[k].at.x, shift.y + c.cards[k].at.y))
  }

  /** The footprints of a block's cards when the block stands at `corner`. */
  ghost function BlockFeet(c: Contents, room: Rooms, corner: Point): (feet: seq<Rect>)
    ensures |feet| == |c.cards|
    ensures forall k :: 0 <= k < |feet| ==> feet[k] == Shift(Taken(room, c.cards[k]), corner)
  {
    seq(|c.cards|, k requires 0 <= k < |c.cards| => Shift(Taken(room, c.cards[k]), corner))
  }

  lemma BlockFeetClear(c: Contents, room: Rooms, corner: Point)
    requires Block(c, room)
    ensures Clear(BlockFeet(c, room, corner))
    ensures forall k :: 0 <= k < |c.cards| ==>
      Inside(BlockFeet(c, room, corner)[k], Rect(corner.x, corner.y, c.width, c.height))
  {
    forall i, j | 0 <= i < j < |c.cards|
      ensures Apart(Shift(Taken(room, c.cards[i]), corner), Shift(Taken(room, c.cards[j]), corner), CARD_GAP_X)
    {
      assert ReadAfter(Taken(room, c.cards[i]), Taken(room, c.cards[j]));
    }
    forall k | 0 <= k < |c.cards|
      ensures Inside(Shift(Taken(room, c.cards[k]), corner), Rect(corner.x, corner.y, c.width, c.height))
    {
      assert Inside(Taken(room, c.cards[k]), Rect(0.0, 0.0, c.width, c.height));
    }
  }

  // ---- which cards belong where ----

  /** A block of the arrangement: the loose cards of a session, or the cards of a container. */
  datatype Key = Loose(session: string) | In(task: string)

  function KeyOf(a: Agent): Key {
    if a.task.Some? then In(a.task.value) else Loose(a.session)
  }

  /** The agents of one block, in order. */
  function Of(agents: seq<Agent>, key: Key): (r: seq<Agent>)
    ensures forall a :: a in r <==> a in agents && KeyOf(a) == key
    ensures |r| <= |agents|
  {
    if agents == [] then []
    else
      var rest := Of(agents[..|agents| - 1], key);
      var last := agents[|agents| - 1];
      if KeyOf(last) == key then rest + [last] else rest
  }

  lemma {:induction false} OfDistinct(agents: seq<Agent>, key: Key)
    requires DistinctIds(agents)
    ensures DistinctIds(Of(agents, key))
  {
    if agents != [] {
      var n := |agents| - 1;
      OfDistinct(agents[..n], key);
      forall k | 0 <= k < |Of(agents[..n], key)|
        ensures Of(agents[..n], key)[k].id != agents[n].id
      {
        assert Of(agents[..n], key)[k] in agents[..n];
      }
    }
  }

  /** The ids of every block listed. */
  ghost function BlockIds(agents: seq<Agent>, keys: seq<Key>): multiset<string> {
    if keys == [] then multiset{}
    else BlockIds(agents, keys[..|keys| - 1]) + multiset(Ids(Of(agents, keys[|keys| - 1])))
  }

  lemma {:induction false} BlockIdsJoin(agents: seq<Agent>, a: seq<Key>, b: seq<Key>)
    ensures BlockIds(agents, a + b) == BlockIds(agents, a) + BlockIds(agents, b)
  {
    if b == [] {
      assert a + b == a;
    } else {
      assert (a + b)[..|a + b| - 1] == a + b[..|b| - 1];
      BlockIdsJoin(agents, a, b[..|b| - 1]);
    }
  }

  lemma {:induction false} CountOf(agents: seq<Agent>, key: Key, a: Agent)
    requires DistinctIds(agents) && a in agents
    ensures multiset(Ids(Of(agents, key)))[a.id] == if KeyOf(a) == key then 1 else 0
  {
    var n := |agents| - 1;
    var rest := agents[..n];
    var last := agents[n];
    assert agents == rest + [last];
    assert KeyOf(last) == key ==> Ids(Of(agents, key)) == Ids(Of(rest, key)) + [last.id];
    if a in rest {
      CountOf(rest, key, a);
    } else {
      CountAbsent(rest, key, a.id);
    }
  }

  lemma {:induction false} CountAbsent(agents: seq<Agent>, key: Key, id: string)
    requires forall k :: 0 <= k < |agents| ==> agents[k].id != id
    ensures multiset(Ids(Of(agents, key)))[id] == 0
  {
    var ids := Ids(Of(agents, key));
    forall k | 0 <= k < |ids|
      ensures ids[k] != id
    {
      assert Of(agents, key)[k] in agents;
    }
  }

  /** When no block is listed twice, each agent of a listed block is counted once, any other never. */
  lemma {:induction false} CountBlocks(agents: seq<Agent>, keys: seq<Key>, a: Agent)
    requires DistinctIds(agents) && a in agents
    requires forall i, j :: 0 <= i < j < |keys| ==> keys[i] != keys[j]
    ensures BlockIds(agents, keys)[a.id] == if KeyOf(a) in keys then 1 else 0
  {
    hide KeyOf, Of, DistinctIds;
    if keys != [] {
      var n := |keys| - 1;
      CountBlocks(agents, keys[..n], a);
      CountOf(agents, keys[n], a);
      assert keys == keys[..n] + [keys[n]];
    }
  }

  function CardIds(cards: seq<Placed>): (ids: seq<string>)
    ensures |ids| == |cards| && forall k :: 0 <= k < |ids| ==> ids[k] == cards[k].agent.id
  {
    seq(|cards|, k requires 0 <= k < |cards| => cards[k].agent.id)
  }

  lemma CardIdsJoin(a: seq<Placed>, b: seq<Placed>)
    ensures multiset(CardIds(a + b)) == multiset(CardIds(a)) + multiset(CardIds(b))
  {
    assert CardIds(a + b) == CardIds(a) + CardIds(b);
  }

  // ---- a block of cards on the canvas ----

  /** `c` seats exactly the agents of `key`, clear of each other and within its bounds. */
  ghost predicate FilledOne(agents: seq<Agent>, key: Key, room: Rooms, c: Contents) {
    && multiset(SeatIds(c.cards)) == multiset(Ids(Of(agents, key)))
    && Block(c, room) && c.width >= 0.0 && c.height >= 0.0
    && (forall k :: 0 <= k < |c.cards| ==> Lookup(agents, c.cards[k].id).Some? && KeyOf(Lookup(agents, c.cards[k].id).value) == key)
    && (c.cards != [] ==> Snug(c, room) && (NoLoops(Of(agents, key)) ==> FromTop(c, room)))
  }

  /** Lays the agents of `key` out, from `corner` on when they are loose. */
  method BlockOf(agents: seq<Agent>, key: Key, room: Rooms, fold: Fold) returns (c: Contents)
    requires DistinctIds(agents) && Roomy(room) && Folds(fold, Of(agents, key))
    ensures FilledOne(agents, key, room, c) && AsFolded(Of(agents, key), room, fold, c)
  {
    hide Snug, FromTop, NoLoops, Of, Block, Folds, AsFolded;
    OfDistinct(agents, key);
    c := InsideOf(Of(agents, key), room, fold);
    assert |multiset(SeatIds(c.cards))| == |c.cards|;
    assert Of(agents, key) == [] ==> Ids(Of(agents, key)) == [];
    forall k | 0 <= k < |c.cards|
      ensures Lookup(agents, c.cards[k].id).Some? && KeyOf(Lookup(agents, c.cards[k].id).value) == key
    {
      SeatIsMember(agents, key, c, k);
    }
  }

  lemma {:induction false} SeatIsMember(agents: seq<Agent>, key: Key, c: Contents, k: nat)
    requires DistinctIds(agents) && k < |c.cards|
    requires multiset(SeatIds(c.cards)) == multiset(Ids(Of(agents, key)))
    ensures Lookup(agents, c.cards[k].id).Some? && KeyOf(Lookup(agents, c.cards[k].id).value) == key
  {
    var id := c.cards[k].id;
    assert SeatIds(c.cards)[k] == id;
    assert id in multiset(SeatIds(c.cards));
    assert id in Ids(Of(agents, key));
    var j :| 0 <= j < |Of(agents, key)| && Ids(Of(agents, key))[j] == id;
    var a := Of(agents, key)[j];
    assert a in agents && KeyOf(a) == key;
    LookupFinds(agents, a);
  }

  /** The seats of a block, put on the canvas offset by `shift` from an origin, stand where the block
      stands; they list its agents. */
  lemma SeatsStand(agents: seq<Agent>, key: Key, c: Contents, room: Rooms, shift: Point, cards: seq<Placed>, origins: Origins)
    requires |cards| == |c.cards|
    requires forall k :: 0 <= k < |cards| ==>
      && Lookup(agents, c.cards[k].id) == Some(cards[k].agent)
      && cards[k].offset == Point(shift.x + c.cards[k].at.x, shift.y + c.cards[k].at.y)
    requires forall k :: 0 <= k < |cards| ==> KeyOf(cards[k].agent) == key
    requires key.In? ==> key.task in origins
    ensures var o := OriginOf(origins, if key.In? then Some(key.task) else None);
            Stands(cards, BlockFeet(c, room, Point(o.x + shift.x, o.y + shift.y)), origins, room)
    ensures CardIds(cards) == SeatIds(c.cards)
  {
    var o := OriginOf(origins, if key.In? then Some(key.task) else None);
    forall k | 0 <= k < |cards|
      ensures Foot(origins, room, cards[k]) == Shift(Taken(room, c.cards[k]), Point(o.x + shift.x, o.y + shift.y))
    {
      assert KeyOf(cards[k].agent) == key;
    }
  }

  // ---- the room a block takes is used ----

  /** Cards of the block reach the left, the right and the bottom of `f`, and its top when none of the
      block's hand-offs loops. */
  ghost predicate Fills(agents: seq<Agent>, cards: seq<Placed>, feet: seq<Rect>, key: Key, f: Rect) {
    && |cards| == |feet|
    && (exists k :: 0 <= k < |cards| && KeyOf(cards[k].agent) == key && feet[k].x == f.x)
    && (exists k :: 0 <= k < |cards| && KeyOf(cards[k].agent) == key && feet[k].x + feet[k].w == f.x + f.w)
    && (exists k :: 0 <= k < |cards| && KeyOf(cards[k].agent) == key && feet[k].y + feet[k].h == f.y + f.h)
    && (NoLoops(Of(agents, key)) ==> exists k :: 0 <= k < |cards| && KeyOf(cards[k].agent) == key && feet[k].y == f.y)
  }

  lemma FillsMore(agents: seq<Agent>, a: seq<Placed>, fa: seq<Rect>, b: seq<Placed>, fb: seq<Rect>, key: Key, f: Rect)
    requires |a| == |fa| && |b| == |fb|
    ensures Fills(agents, a, fa, key, f) || Fills(agents, b, fb, key, f) ==> Fills(agents, a + b, fa + fb, key, f)
  {
    hide NoLoops, Of, KeyOf;
    var all, feet := a + b, fa + fb;
    assert forall k :: 0 <= k < |a| ==> all[k] == a[k] && feet[k] == fa[k];
    if Fills(agents, b, fb, key, f) {
      forall k | 0 <= k < |b|
        ensures all[|a| + k] == b[k] && feet[|a| + k] == fb[k]
      {
      }
      FillsLater(agents, a, fa, b, fb, key, f);
    }
  }

  lemma FillsLater(agents: seq<Agent>, a: seq<Placed>, fa: seq<Rect>, b: seq<Placed>, fb: seq<Rect>, key: Key, f: Rect)
    requires |a| == |fa| && Fills(agents, b, fb, key, f)
    ensures Fills(agents, a + b, fa + fb, key, f)
  {
    hide NoLoops, Of, KeyOf;
    var n, all, feet := |a|, a + b, fa + fb;
    var x :| 0 <= x < |b| && KeyOf(b[x].agent) == key && fb[x].x == f.x;
    var y :| 0 <= y < |b| && KeyOf(b[y].agent) == key && fb[y].x + fb[y].w == f.x + f.w;
    var z :| 0 <= z < |b| && KeyOf(b[z].agent) == key && fb[z].y + fb[z].h == f.y + f.h;
    assert all[n + x] == b[x] && all[n + y] == b[y] && all[n + z] == b[z];
    assert feet[n + x] == fb[x] && feet[n + y] == fb[y] && feet[n + z] == fb[z];
    if NoLoops(Of(agents, key)) {
      var t :| 0 <= t < |b| && KeyOf(b[t].agent) == key && fb[t].y == f.y;
      assert all[n + t] == b[t] && feet[n + t] == fb[t];
    }
  }

  /** A block set down at `corner` fills the room it was given. */
  lemma BlockFills(agents: seq<Agent>, key: Key, c: Contents, room: Rooms, corner: Point, cards: seq<Placed>)
    requires FilledOne(agents, key, room, c) && c.cards != [] && |cards| == |c.cards|
    requires forall k :: 0 <= k < |cards| ==> KeyOf(cards[k].agent) == key
    ensures Fills(agents, cards, BlockFeet(c, room, corner), key, Rect(corner.x, corner.y, c.width, c.height))
  {
    hide NoLoops, Of, KeyOf, Block, SeatIds, Ids;
    var feet := BlockFeet(c, room, corner);
    var x :| 0 <= x < |c.cards| && Taken(room, c.cards[x]).x == 0.0;
    var y :| 0 <= y < |c.cards| && Taken(room, c.cards[y]).x + Taken(room, c.cards[y]).w == c.width;
    var z :| 0 <= z < |c.cards| && Taken(room, c.cards[z]).y + Taken(room, c.cards[z]).h == c.height;
    assert feet[x].x == corner.x && feet[y].x + feet[y].w == corner.x + c.width && feet[z].y + feet[z].h == corner.y + c.height;
    assert KeyOf(cards[x].agent) == key && KeyOf(cards[y].agent) == key && KeyOf(cards[z].agent) == key;
    if NoLoops(Of(agents, key)) {
      var t :| 0 <= t < |c.cards| && Taken(room, c.cards[t]).y == 0.0;
      assert feet[t].y == corner.y && KeyOf(cards[t].agent) == key;
    }
  }

  // ---- the containers of a session ----

  function SizeOf(c: Contents): Size {
    if c.cards == [] then Size(0.0, 0.0)
    else Size(c.width + GROUP_PAD * 2.0, c.height + GROUP_PAD * 2.0 + GROUP_LABEL)
  }

  /** What the packer reserved for a container placed at `at`, the session's containers starting at `y`. */
  function Reserved(at: Point, size: Size, y: real): Rect {
    Rect(LAYOUT_MARGIN + at.x, y + at.y, size.w, size.h)
  }

  /** Where the frame of that container starts. */
  function FrameAt(at: Point, y: real): Point {
    Point(LAYOUT_MARGIN + at.x + GROUP_PAD, y + at.y + GROUP_PAD + GROUP_LABEL)
  }

  /** The contents of each container of `ids`, and what room they ask for. */
  ghost predicate Filled(agents: seq<Agent>, ids: seq<string>, room: Rooms, contents: seq<Contents>, sizes: seq<Size>) {
    && |contents| == |sizes| == |ids|
    && (forall k :: 0 <= k < |ids| ==> FilledOne(agents, In(ids[k]), room, contents[k]) && sizes[k] == SizeOf(contents[k]))
  }

  lemma FilledIsSized(agents: seq<Agent>, key: Key, room: Rooms, c: Contents)
    requires FilledOne(agents, key, room, c)
    ensures SizeOf(c).Natural()
  {
  }

  method Fill(agents: seq<Agent>, ids: seq<string>, room: Rooms, fold: Fold) returns (contents: seq<Contents>, sizes: seq<Size>)
    requires DistinctIds(agents) && Roomy(room)
    requires forall k :: 0 <= k < |ids| ==> Folds(fold, Of(agents, In(ids[k])))
    ensures Filled(agents, ids, room, contents, sizes)
    ensures AllNatural(sizes)
    ensures forall k :: 0 <= k < |ids| ==> AsFolded(Of(agents, In(ids[k])), room, fold, contents[k])
  {
    hide Of, Folds, FilledOne, Roomy, AsFolded;
    contents, sizes := [], [];
    for n := 0 to |ids|
      invariant |contents| == |sizes| == n
      invariant forall k :: 0 <= k < n ==> FilledOne(agents, In(ids[k]), room, contents[k])
      invariant forall k :: 0 <= k < n ==> sizes[k] == SizeOf(contents[k]) && sizes[k].Natural()
      invariant forall k :: 0 <= k < n ==> AsFolded(Of(agents, In(ids[k])), room, fold, contents[k])
    {
      var c := BlockOf(agents, In(ids[n]), room, fold);
      FilledIsSized(agents, In(ids[n]), room, c);
      contents, sizes := contents + [c], sizes + [SizeOf(c)];
    }
  }

  /** The card on footprint `foot` belongs to container `j` and lies within its frame. */
  ghost predicate Housed(card: Placed, foot: Rect, ids: seq<string>, contents: seq<Contents>, at: seq<Point>, y: real, j: nat)
    requires j < |ids| == |contents| == |at|
  {
    && contents[j].cards != [] && card.agent.task == Some(ids[j])
    && Inside(foot, Rect(FrameAt(at[j], y).x, FrameAt(at[j], y).y, contents[j].width, contents[j].height))
    && foot.w >= 0.0 && foot.h >= 0.0
  }

  ghost predicate HousedIn(card: Placed, foot: Rect, ids: seq<string>, contents: seq<Contents>, at: seq<Point>, y: real, n: nat)
    requires n <= |ids| == |contents| == |at|
  {
    exists j :: 0 <= j < n && Housed(card, foot, ids, contents, at, y, j)
  }

  /** A container's frame, padded, is what was reserved for it; so cards of two containers are as far
      apart as the packer put the containers. */
  lemma HousesApart(foot: Rect, foot': Rect, c: Contents, c': Contents, at: Point, at': Point, y: real)
    requires c.cards != [] && c'.cards != []
    requires c.width >= 0.0 && c.height >= 0.0 && c'.width >= 0.0 && c'.height >= 0.0
    requires Apart(Box(at, SizeOf(c)), Box(at', SizeOf(c')), TASK_GAP)
    requires Inside(foot, Rect(FrameAt(at, y).x, FrameAt(at, y).y, c.width, c.height)) && foot.w >= 0.0 && foot.h >= 0.0
    requires Inside(foot', Rect(FrameAt(at', y).x, FrameAt(at', y).y, c'.width, c'.height)) && foot'.w >= 0.0 && foot'.h >= 0.0
    ensures Apart(foot, foot', TASK_GAP)
    ensures Inside(foot, Reserved(at, SizeOf(c), y))
  {
    InsideKeepsApart(Reserved(at, SizeOf(c), y), Reserved(at', SizeOf(c'), y), foot, foot', TASK_GAP, TASK_GAP);
  }

  /** The keys of the containers. */
  ghost function Containers(ids: seq<string>): (keys: seq<Key>)
    ensures |keys| == |ids| && forall k :: 0 <= k < |keys| ==> keys[k] == In(ids[k])
  {
    seq(|ids|, k requires 0 <= k < |ids| => In(ids[k]))
  }

  /** The frames of the first `n` containers are known, and no others. */
  ghost predicate Framing(ids: seq<string>, at: seq<Point>, y: real, n: nat, origins: Origins)
    requires n <= |ids| == |at|
  {
    && (forall t :: t in origins <==> t in ids[..n])
    && (forall j :: 0 <= j < n ==> ids[j] in origins && origins[ids[j]] == FrameAt(at[j], y))
  }

  lemma FramingNext(ids: seq<string>, at: seq<Point>, y: real, n: nat, origins: Origins)
    requires n < |ids| == |at| && Framing(ids, at, y, n, origins)
    requires forall i, j :: 0 <= i < j < |ids| ==> ids[i] != ids[j]
    ensures ids[n] !in origins
    ensures Framing(ids, at, y, n + 1, origins[ids[n] := FrameAt(at[n], y)])
  {
    assert ids[..n + 1] == ids[..n] + [ids[n]];
  }

  /** Everything known once the first `n` containers are on the canvas. */
  ghost predicate HousedSoFar(agents: seq<Agent>, ids: seq<string>, room: Rooms, contents: seq<Contents>, at: seq<Point>, y: real, n: nat,
                              cards: seq<Placed>, feet: seq<Rect>, origins: Origins)
    requires n <= |ids| == |contents| == |at|
  {
    && Stands(cards, feet, origins, room) && Clear(feet)
    && (forall k :: 0 <= k < |cards| ==> cards[k].agent in agents && HousedIn(cards[k], feet[k], ids, contents, at, y, n))
    && Framing(ids, at, y, n, origins)
    && multiset(CardIds(cards)) == BlockIds(agents, Containers(ids[..n]))
    && HousesFilled(agents, ids, contents, at, y, n, cards, feet)
  }

  /** What is in each of the first `n` containers that has cards fills its frame. */
  ghost predicate HousesFilled(agents: seq<Agent>, ids: seq<string>, contents: seq<Contents>, at: seq<Point>, y: real, n: nat,
                               cards: seq<Placed>, feet: seq<Rect>)
    requires n <= |ids| == |contents| == |at|
  {
    forall j :: 0 <= j < n && contents[j].cards != [] ==> Fills(agents, cards, feet, In(ids[j]), HouseFrame(contents[j], at[j], y))
  }

  function HouseFrame(c: Contents, at: Point, y: real): Rect {
    Rect(FrameAt(at, y).x, FrameAt(at, y).y, c.width, c.height)
  }

  lemma HousesFilledNext(agents: seq<Agent>, ids: seq<string>, contents: seq<Contents>, at: seq<Point>, y: real, n: nat,
                         cards: seq<Placed>, feet: seq<Rect>, seated: seq<Placed>, own: seq<Rect>)
    requires n < |ids| == |contents| == |at| && |cards| == |feet| && |seated| == |own|
    requires HousesFilled(agents, ids, contents, at, y, n, cards, feet)
    requires contents[n].cards != [] ==> Fills(agents, seated, own, In(ids[n]), HouseFrame(contents[n], at[n], y))
    ensures HousesFilled(agents, ids, contents, at, y, n + 1, cards + seated, feet + own)
  {
    hide Fills;
    forall j | 0 <= j < n + 1 && contents[j].cards != []
      ensures Fills(agents, cards + seated, feet + own, In(ids[j]), HouseFrame(contents[j], at[j], y))
    {
      FillsMore(agents, cards, feet, seated, own, In(ids[j]), HouseFrame(contents[j], at[j], y));
    }
  }

  /** One container onto the canvas: its cards take the offsets they have in its frame. */
  method SeatContainer(agents: seq<Agent>, id: string, c: Contents, room: Rooms, origin: Point, ghost origins: Origins)
    returns (seated: seq<Placed>, ghost own: seq<Rect>)
    requires Roomy(room) && FilledOne(agents, In(id), room, c)
    requires id in origins && origins[id] == origin
    ensures Stands(seated, own, origins, room) && Clear(own)
    ensures CardIds(seated) == SeatIds(c.cards) && SeatedAs(agents, c, Point(0.0, 0.0), seated)
    ensures forall k :: 0 <= k < |seated| ==>
      && seated[k].agent in agents && seated[k].agent.task == Some(id) && c.cards != []
      && Inside(own[k], Rect(origin.x, origin.y, c.width, c.height)) && own[k].w >= 0.0 && own[k].h >= 0.0
    ensures c.cards != [] ==> Fills(agents, seated, own, In(id), Rect(origin.x, origin.y, c.width, c.height))
  {
    hide Fills, Snug, FromTop, NoLoops;
    seated := Seats(agents, c.cards, Point(0.0, 0.0));
    own := BlockFeet(c, room, Point(origin.x + 0.0, origin.y + 0.0));
    SeatsStand(agents, In(id), c, room, Point(0.0, 0.0), seated, origins);
    BlockFeetClear(c, room, origin);
    forall k | 0 <= k < |seated|
      ensures seated[k].agent in agents && seated[k].agent.task == Some(id)
    {
      assert KeyOf(Lookup(agents, c.cards[k].id).value) == In(id);
    }
    if c.cards != [] {
      BlockFills(agents, In(id), c, room, origin, seated);
    }
  }

  method HouseOne(agents: seq<Agent>, ids: seq<string>, room: Rooms, contents: seq<Contents>, ghost sizes: seq<Size>, at: seq<Point>, y: real, n: nat,
                  cards: seq<Placed>, ghost feet: seq<Rect>, origins: Origins)
    returns (cards': seq<Placed>, origins': Origins, ghost feet': seq<Rect>, ghost seats: seq<Placed>)
    requires Roomy(room) && forall i, j :: 0 <= i < j < |ids| ==> ids[i] != ids[j]
    requires Packed(contents, sizes, at) && n < |at| == |ids|
    requires FilledOne(agents, In(ids[n]), room, contents[n])
    requires HousedSoFar(agents, ids, room, contents, at, y, n, cards, feet, origins)
    ensures HousedSoFar(agents, ids, room, contents, at, y, n + 1, cards', feet', origins')
    ensures cards' == cards + seats && SeatedAs(agents, contents[n], Point(0.0, 0.0), seats)
  {
    hide SeatedAs;
    var origin := FrameAt(at[n], y);
    FramingNext(ids, at, y, n, origins);
    origins' := origins[ids[n] := origin];
    var seated, own := SeatContainer(agents, ids[n], contents[n], room, origin, origins');
    cards', feet', seats := cards + seated, feet + own, seated;
    HousedNext(agents, ids, room, contents, sizes, at, y, n, cards, feet, origins, seated, own, origins');
  }

  lemma {:induction false} HousedNext(agents: seq<Agent>, ids: seq<string>, room: Rooms, contents: seq<Contents>, sizes: seq<Size>, at: seq<Point>, y: real, n: nat,
                   cards: seq<Placed>, feet: seq<Rect>, origins: Origins, seated: seq<Placed>, own: seq<Rect>, origins': Origins)
    requires Packed(contents, sizes, at) && n < |at| == |ids|
    requires HousedSoFar(agents, ids, room, contents, at, y, n, cards, feet, origins)
    requires Framing(ids, at, y, n + 1, origins') && forall t :: t in origins ==> t in origins' && origins'[t] == origins[t]
    requires Stands(seated, own, origins', room) && Clear(own)
    requires multiset(CardIds(seated)) == multiset(Ids(Of(agents, In(ids[n]))))
    requires forall k :: 0 <= k < |seated| ==> seated[k].agent in agents && Housed(seated[k], own[k], ids, contents, at, y, n)
    requires contents[n].cards != [] ==> Fills(agents, seated, own, In(ids[n]), HouseFrame(contents[n], at[n], y))
    ensures HousedSoFar(agents, ids, room, contents, at, y, n + 1, cards + seated, feet + own, origins')
  {
    hide Stands, Clear, Framing, HousesFilled, HousedIn, Housed, BlockIds, Fills, DrawnSeparated;
    StandsStill(cards, feet, origins, origins', room);
    StandsJoin(cards, feet, seated, own, origins', room);
    NewHouse(ids, contents, sizes, at, y, n, cards, feet, seated, own);
    CountHouse(agents, ids, n, cards, seated);
    HousesFilledNext(agents, ids, contents, at, y, n, cards, feet, seated, own);
  }

  lemma {:induction false} CountHouse(agents: seq<Agent>, ids: seq<string>, n: nat, cards: seq<Placed>, seated: seq<Placed>)
    requires n < |ids|
    requires multiset(CardIds(cards)) == BlockIds(agents, Containers(ids[..n]))
    requires multiset(CardIds(seated)) == multiset(Ids(Of(agents, In(ids[n]))))
    ensures multiset(CardIds(cards + seated)) == BlockIds(agents, Containers(ids[..n + 1]))
  {
    CardIdsJoin(cards, seated);
    var keys := Containers(ids[..n + 1]);
    assert keys[..n] == Containers(ids[..n]) && keys[n] == In(ids[n]);
  }

  /** The containers have room for what is in them, and the packer kept them apart. */
  ghost predicate Packed(contents: seq<Contents>, sizes: seq<Size>, at: seq<Point>) {
    && |contents| == |sizes| == |at|
    && (forall k :: 0 <= k < |sizes| ==> sizes[k] == SizeOf(contents[k]) && contents[k].width >= 0.0 && contents[k].height >= 0.0)
    && DrawnSeparated(at, sizes, TASK_GAP)
  }

  lemma HousedLonger(card: Placed, foot: Rect, ids: seq<string>, contents: seq<Contents>, at: seq<Point>, y: real, n: nat)
    requires n < |ids| == |contents| == |at|
    ensures HousedIn(card, foot, ids, contents, at, y, n) ==> HousedIn(card, foot, ids, contents, at, y, n + 1)
    ensures Housed(card, foot, ids, contents, at, y, n) ==> HousedIn(card, foot, ids, contents, at, y, n + 1)
  {
    if HousedIn(card, foot, ids, contents, at, y, n) {
      var j :| 0 <= j < n && Housed(card, foot, ids, contents, at, y, j);
    }
  }

  lemma HousesClear(card: Placed, foot: Rect, card': Placed, foot': Rect, ids: seq<string>, contents: seq<Contents>, sizes: seq<Size>,
                    at: seq<Point>, y: real, n: nat)
    requires Packed(contents, sizes, at) && n < |at| == |ids|
    requires HousedIn(card, foot, ids, contents, at, y, n) && Housed(card', foot', ids, contents, at, y, n)
    ensures Apart(foot, foot', CARD_GAP_X)
  {
    var h :| 0 <= h < n && Housed(card, foot, ids, contents, at, y, h);
    assert Apart(Box(at[h], sizes[h]), Box(at[n], sizes[n]), TASK_GAP);
    HousesApart(foot, foot', contents[h], contents[n], at[h], at[n], y);
  }

  /** The cards of one more container are housed in it, and clear of all others. */
  lemma NewHouse(ids: seq<string>, contents: seq<Contents>, sizes: seq<Size>, at: seq<Point>, y: real, n: nat,
                 cards: seq<Placed>, feet: seq<Rect>, seated: seq<Placed>, own: seq<Rect>)
    requires Packed(contents, sizes, at) && n < |at| == |ids|
    requires |cards| == |feet| && Clear(feet)
    requires forall k :: 0 <= k < |cards| ==> HousedIn(cards[k], feet[k], ids, contents, at, y, n)
    requires |seated| == |own| && Clear(own)
    requires forall k :: 0 <= k < |seated| ==> Housed(seated[k], own[k], ids, contents, at, y, n)
    ensures Clear(feet + own)
    ensures forall k :: 0 <= k < |cards + seated| ==> HousedIn((cards + seated)[k], (feet + own)[k], ids, contents, at, y, n + 1)
  {
    forall k | 0 <= k < |cards + seated|
      ensures HousedIn((cards + seated)[k], (feet + own)[k], ids, contents, at, y, n + 1)
    {
      HousedLonger((cards + seated)[k], (feet + own)[k], ids, contents, at, y, n);
    }
    forall i, j | 0 <= i < |feet| && 0 <= j < |own|
      ensures Apart(feet[i], own[j], CARD_GAP_X)
    {
      HousesClear(cards[i], feet[i], seated[j], own[j], ids, contents, sizes, at, y, n);
    }
    ClearJoin(feet, own);
  }

  method House(agents: seq<Agent>, ids: seq<string>, room: Rooms, contents: seq<Contents>, ghost sizes: seq<Size>, at: seq<Point>, y: real)
    returns (cards: seq<Placed>, origins: Origins, ghost feet: seq<Rect>)
    requires DistinctIds(agents) && Roomy(room)
    requires forall i, j :: 0 <= i < j < |ids| ==> ids[i] != ids[j]
    requires Packed(contents, sizes, at) && |at| == |ids| == |contents|
    requires forall k :: 0 <= k < |ids| ==> FilledOne(agents, In(ids[k]), room, contents[k])
    ensures HousedSoFar(agents, ids, room, contents, at, y, |ids|, cards, feet, origins)
    ensures HousedAs(agents, contents, cards)
  {
    hide SeatedAs, HousedSoFar, Packed, FilledOne;
    cards, origins, feet := [], map[], [];
    ghost var parts: seq<seq<Placed>> := [];
    NobodyHoused(agents, ids, room, contents, at, y);
    for n := 0 to |ids|
      invariant HousedSoFar(agents, ids, room, contents, at, y, n, cards, feet, origins)
      invariant |parts| == n && Flatten(parts) == cards
      invariant forall k :: 0 <= k < n ==> SeatedAs(agents, contents[k], Point(0.0, 0.0), parts[k])
    {
      ghost var seats;
      cards, origins, feet, seats := HouseOne(agents, ids, room, contents, sizes, at, y, n, cards, feet, origins);
      assert (parts + [seats])[..n] == parts;
      parts := parts + [seats];
    }
  }

  lemma NobodyHoused(agents: seq<Agent>, ids: seq<string>, room: Rooms, contents: seq<Contents>, at: seq<Point>, y: real)
    requires |ids| == |contents| == |at|
    ensures HousedSoFar(agents, ids, room, contents, at, y, 0, [], [], map[])
  {
    assert Containers(ids[..0]) == [];
  }

  /** One container's cards after the other's, each at its place within its own. */
  ghost predicate HousedAs(agents: seq<Agent>, contents: seq<Contents>, cards: seq<Placed>) {
    exists parts: seq<seq<Placed>> :: |parts| == |contents| && Flatten(parts) == cards && AllSeated(agents, contents, parts)
  }

  ghost predicate AllSeated(agents: seq<Agent>, contents: seq<Contents>, parts: seq<seq<Placed>>)
    requires |parts| == |contents|
  {
    forall k :: 0 <= k < |parts| ==> SeatedAs(agents, contents[k], Point(0.0, 0.0), parts[k])
  }

  // ---- one session ----

  /** A container on the canvas: where its frame starts, and what the packer reserved for it. */
  datatype TaskBox = TaskBox(id: string, origin: Point, size: Size) {
    function Outer(): Rect {
      Rect(origin.x - GROUP_PAD, origin.y - GROUP_PAD - GROUP_LABEL, size.w, size.h)
    }

    function Frame(): Rect {
      Rect(origin.x, origin.y, size.w - GROUP_PAD * 2.0, size.h - GROUP_PAD * 2.0 - GROUP_LABEL)
    }
  }

  /** What is reserved for the drawn containers does not come closer than a task gap. */
  ghost predicate BoxesApart(boxes: seq<TaskBox>) {
    forall i, j :: 0 <= i < j < |boxes| && !boxes[i].size.Empty() && !boxes[j].size.Empty() ==>
      Apart(boxes[i].Outer(), boxes[j].Outer(), TASK_GAP)
  }

  ghost predicate BoxesOnce(boxes: seq<TaskBox>) {
    forall i, j :: 0 <= i < j < |boxes| ==> boxes[i].id != boxes[j].id
  }

  /** The card on `foot` is loose, or in the frame of its own container. */
  ghost predicate Framed(card: Placed, foot: Rect, boxes: seq<TaskBox>) {
    card.agent.task.Some? ==>
      exists j :: 0 <= j < |boxes| && boxes[j].id == card.agent.task.value && !boxes[j].size.Empty() && Inside(foot, boxes[j].Frame())
  }

  /** `r` lies between `top` and a task gap above `bottom`. */
  predicate InBand(r: Rect, top: real, bottom: real) {
    top <= r.y && r.y + r.h + TASK_GAP <= bottom
  }

  /** A part of the arrangement: the blocks `keys`, between `top` and `bottom`. */
  ghost predicate Part(agents: seq<Agent>, room: Rooms, keys: seq<Key>, top: real, bottom: real,
                       cards: seq<Placed>, feet: seq<Rect>, origins: Origins, boxes: seq<TaskBox>) {
    && top <= bottom
    && Stands(cards, feet, origins, room) && Clear(feet) && BoxesApart(boxes) && BoxesOnce(boxes)
    && (forall k :: 0 <= k < |cards| ==> cards[k].agent in agents && Framed(cards[k], feet[k], boxes) && InBand(feet[k], top, bottom))
    && (forall j :: 0 <= j < |boxes| && !boxes[j].size.Empty() ==> InBand(boxes[j].Outer(), top, bottom))
    && (forall j :: 0 <= j < |boxes| ==> boxes[j].id in origins && boxes[j].origin == origins[boxes[j].id])
    && (forall t :: t in origins <==> In(t) in keys)
    && multiset(CardIds(cards)) == BlockIds(agents, keys)
    && LooseClear(cards, feet, boxes) && BoxesFilled(agents, cards, feet, boxes)
  }

  /** A loose card is a task gap away from what is reserved for every drawn container. */
  ghost predicate LooseClear(cards: seq<Placed>, feet: seq<Rect>, boxes: seq<TaskBox>)
    requires |cards| == |feet|
  {
    forall k, j :: 0 <= k < |cards| && cards[k].agent.task.None? && 0 <= j < |boxes| && !boxes[j].size.Empty() ==>
      Apart(feet[k], boxes[j].Outer(), TASK_GAP)
  }

  /** The cards of a drawn container fill its frame. */
  ghost predicate BoxesFilled(agents: seq<Agent>, cards: seq<Placed>, feet: seq<Rect>, boxes: seq<TaskBox>) {
    forall j :: 0 <= j < |boxes| && !boxes[j].size.Empty() ==> Fills(agents, cards, feet, In(boxes[j].id), boxes[j].Frame())
  }

  lemma LooseClearJoin(cards: seq<Placed>, feet: seq<Rect>, boxes: seq<TaskBox>, cards': seq<Placed>, feet': seq<Rect>, boxes': seq<TaskBox>,
                       top: real, mid: real, bottom: real)
    requires |cards| == |feet| && |cards'| == |feet'| && LooseClear(cards, feet, boxes) && LooseClear(cards', feet', boxes')
    requires forall k :: 0 <= k < |cards| ==> InBand(feet[k], top, mid)
    requires forall k :: 0 <= k < |cards'| ==> InBand(feet'[k], mid, bottom)
    requires forall j :: 0 <= j < |boxes| && !boxes[j].size.Empty() ==> InBand(boxes[j].Outer(), top, mid)
    requires forall j :: 0 <= j < |boxes'| && !boxes'[j].size.Empty() ==> InBand(boxes'[j].Outer(), mid, bottom)
    ensures LooseClear(cards + cards', feet + feet', boxes + boxes')
  {
    var all, on, both := cards + cards', feet + feet', boxes + boxes';
    forall k, j | 0 <= k < |all| && all[k].agent.task.None? && 0 <= j < |both| && !both[j].size.Empty()
      ensures Apart(on[k], both[j].Outer(), TASK_GAP)
    {
      if k < |cards| && j < |boxes| {
        assert Apart(feet[k], boxes[j].Outer(), TASK_GAP);
      } else if k >= |cards| && j >= |boxes| {
        assert Apart(feet'[k - |cards|], boxes'[j - |boxes|].Outer(), TASK_GAP);
      } else if k < |cards| {
        assert InBand(feet[k], top, mid) && InBand(boxes'[j - |boxes|].Outer(), mid, bottom);
      } else {
        assert InBand(feet'[k - |cards|], mid, bottom) && InBand(boxes[j].Outer(), top, mid);
      }
    }
  }

  lemma BoxesFilledJoin(agents: seq<Agent>, cards: seq<Placed>, feet: seq<Rect>, boxes: seq<TaskBox>,
                        cards': seq<Placed>, feet': seq<Rect>, boxes': seq<TaskBox>)
    requires |cards| == |feet| && |cards'| == |feet'|
    requires BoxesFilled(agents, cards, feet, boxes) && BoxesFilled(agents, cards', feet', boxes')
    ensures BoxesFilled(agents, cards + cards', feet + feet', boxes + boxes')
  {
    hide Fills;
    var both := boxes + boxes';
    forall j | 0 <= j < |both| && !both[j].size.Empty()
      ensures Fills(agents, cards + cards', feet + feet', In(both[j].id), both[j].Frame())
    {
      assert both[j] == if j < |boxes| then boxes[j] else boxes'[j - |boxes|];
      FillsMore(agents, cards, feet, cards', feet', In(both[j].id), both[j].Frame());
    }
  }

  /** Two parts, one above the other, with no container in both, make one. */
  lemma PartsJoin(agents: seq<Agent>, room: Rooms, keys: seq<Key>, keys': seq<Key>, top: real, mid: real, bottom: real,
                  cards: seq<Placed>, feet: seq<Rect>, origins: Origins, boxes: seq<TaskBox>,
                  cards': seq<Placed>, feet': seq<Rect>, origins': Origins, boxes': seq<TaskBox>)
    requires Part(agents, room, keys, top, mid, cards, feet, origins, boxes)
    requires Part(agents, room, keys', mid, bottom, cards', feet', origins', boxes')
    requires forall t :: t in origins ==> t !in origins'
    ensures Part(agents, room, keys + keys', top, bottom, cards + cards', feet + feet', origins + origins', boxes + boxes')
  {
    hide Stands, Clear, BoxesApart, LooseClear, BoxesFilled, BlockIds, Framed;
    OneFootEach(cards, feet, origins, room);
    OneFootEach(cards', feet', origins', room);
    LooseClearJoin(cards, feet, boxes, cards', feet', boxes', top, mid, bottom);
    BoxesFilledJoin(agents, cards, feet, boxes, cards', feet', boxes');
    StandsStill(cards, feet, origins, origins + origins', room);
    StandsStill(cards', feet', origins', origins + origins', room);
    StandsJoin(cards, feet, cards', feet', origins + origins', room);
    BlockIdsJoin(agents, keys, keys');
    CardIdsJoin(cards, cards');
    ClearJoin(feet, feet');
    FramedJoin(cards, feet, boxes, cards', feet', boxes');
    BoxesJoin(boxes, boxes', top, mid, bottom);
  }

  lemma FramedJoin(cards: seq<Placed>, feet: seq<Rect>, boxes: seq<TaskBox>, cards': seq<Placed>, feet': seq<Rect>, boxes': seq<TaskBox>)
    requires |cards| == |feet| && |cards'| == |feet'|
    requires forall k :: 0 <= k < |cards| ==> Framed(cards[k], feet[k], boxes)
    requires forall k :: 0 <= k < |cards'| ==> Framed(cards'[k], feet'[k], boxes')
    ensures forall k :: 0 <= k < |cards + cards'| ==> Framed((cards + cards')[k], (feet + feet')[k], boxes + boxes')
  {
    var both := boxes + boxes';
    forall k | 0 <= k < |cards| && cards[k].agent.task.Some?
      ensures Framed(cards[k], feet[k], both)
    {
      assert Framed(cards[k], feet[k], boxes);
      var j :| 0 <= j < |boxes| && boxes[j].id == cards[k].agent.task.value && !boxes[j].size.Empty() && Inside(feet[k], boxes[j].Frame());
      assert both[j] == boxes[j];
    }
    forall k | 0 <= k < |cards'| && cards'[k].agent.task.Some?
      ensures Framed(cards'[k], feet'[k], both)
    {
      assert Framed(cards'[k], feet'[k], boxes');
      var j :| 0 <= j < |boxes'| && boxes'[j].id == cards'[k].agent.task.value && !boxes'[j].size.Empty() && Inside(feet'[k], boxes'[j].Frame());
      assert both[|boxes| + j] == boxes'[j];
    }
  }

  lemma BoxesJoin(boxes: seq<TaskBox>, boxes': seq<TaskBox>, top: real, mid: real, bottom: real)
    requires BoxesApart(boxes) && BoxesApart(boxes') && top <= mid <= bottom
    requires forall j :: 0 <= j < |boxes| && !boxes[j].size.Empty() ==> InBand(boxes[j].Outer(), top, mid)
    requires forall j :: 0 <= j < |boxes'| && !boxes'[j].size.Empty() ==> InBand(boxes'[j].Outer(), mid, bottom)
    ensures BoxesApart(boxes + boxes')
    ensures forall j :: 0 <= j < |boxes + boxes'| && !(boxes + boxes')[j].size.Empty() ==> InBand((boxes + boxes')[j].Outer(), top, bottom)
  {
    var both := boxes + boxes';
    forall i, j | 0 <= i < j < |both| && !both[i].size.Empty() && !both[j].size.Empty()
      ensures Apart(both[i].Outer(), both[j].Outer(), TASK_GAP)
    {
      if j < |boxes| {
        assert Apart(boxes[i].Outer(), boxes[j].Outer(), TASK_GAP);
      } else if i >= |boxes| {
        assert Apart(boxes'[i - |boxes|].Outer(), boxes'[j - |boxes|].Outer(), TASK_GAP);
      } else {
        assert both[i] == boxes[i] && both[j] == boxes'[j - |boxes|];
        assert InBand(boxes[i].Outer(), top, mid) && InBand(boxes'[j - |boxes|].Outer(), mid, bottom);
      }
    }
  }

  /** The loose cards of a session, set down at `top`; nothing at all when there are none. */
  method LoosePart(session: string, top: real, agents: seq<Agent>, room: Rooms, fold: Fold)
    returns (cards: seq<Placed>, y: real, ghost feet: seq<Rect>)
    requires DistinctIds(agents) && Roomy(room) && Folds(fold, Of(agents, Loose(session)))
    ensures Part(agents, room, [Loose(session)], top, y, cards, feet, map[], [])
    ensures Of(agents, Loose(session)) != [] ==> LooseFills(agents, session, top, y, cards, feet)
    ensures LooseAsFolded(agents, session, room, fold, top, cards, y)
  {
    hide Fills, Snug, FromTop, NoLoops, Of, Part, AsFolded;
    var c := BlockOf(agents, Loose(session), room, fold);
    y := top;
    if c.cards == [] {
      cards, feet := [], [];
      NoCards(agents, Loose(session), c);
      NoCardsIsPart(agents, session, room, top);
      return;
    }
    var corner := Point(LAYOUT_MARGIN, y);
    cards := Seats(agents, c.cards, corner);
    feet := BlockFeet(c, room, Point(0.0 + corner.x, 0.0 + corner.y));
    y := y + c.height + TASK_GAP;
    LooseIsPart(agents, session, c, room, top, corner, cards);
    LooseFillsBlock(agents, session, c, room, top, corner, cards);
  }

  lemma {:induction false} NoCardsIsPart(agents: seq<Agent>, session: string, room: Rooms, top: real)
    requires Of(agents, Loose(session)) == []
    ensures Part(agents, room, [Loose(session)], top, top, [], [], map[], [])
  {
    OneBlock(agents, Loose(session));
    assert Ids(Of(agents, Loose(session))) == [] && CardIds([]) == [];
  }

  /** The loose cards are the session's own, folded and laid out from the corner at `top` on; they end a task
      gap above `y`, unless there are none. */
  ghost predicate LooseAsFolded(agents: seq<Agent>, session: string, room: Rooms, fold: Fold, top: real, cards: seq<Placed>, y: real) {
    exists c: Contents :: Roomy(room) && AsFolded(Of(agents, Loose(session)), room, fold, c)
      && SeatedAs(agents, c, Point(LAYOUT_MARGIN, top), cards) && y == if c.cards == [] then top else top + c.height + TASK_GAP
  }

  /** The loose cards of a session fill a block that starts at its corner and ends a task gap above `y`. */
  ghost predicate LooseFills(agents: seq<Agent>, session: string, top: real, y: real, cards: seq<Placed>, feet: seq<Rect>) {
    exists width: real, height: real ::
      Fills(agents, cards, feet, Loose(session), Rect(LAYOUT_MARGIN, top, width, height)) && top + height + TASK_GAP == y
  }

  lemma {:induction false} LooseFillsBlock(agents: seq<Agent>, session: string, c: Contents, room: Rooms, top: real, corner: Point, cards: seq<Placed>)
    requires FilledOne(agents, Loose(session), room, c) && |cards| == |c.cards| && corner == Point(LAYOUT_MARGIN, top) && c.cards != []
    requires forall k :: 0 <= k < |cards| ==> Lookup(agents, c.cards[k].id) == Some(cards[k].agent)
    ensures LooseFills(agents, session, top, top + c.height + TASK_GAP, cards, BlockFeet(c, room, Point(0.0 + corner.x, 0.0 + corner.y)))
  {
    hide Fills, Snug, FromTop, NoLoops;
    BlockFills(agents, Loose(session), c, room, corner, cards);
  }

  lemma {:induction false} LooseIsPart(agents: seq<Agent>, session: string, c: Contents, room: Rooms, top: real, corner: Point, cards: seq<Placed>)
    requires FilledOne(agents, Loose(session), room, c) && |cards| == |c.cards| && corner.y == top
    requires forall k :: 0 <= k < |cards| ==>
      && Lookup(agents, c.cards[k].id) == Some(cards[k].agent)
      && cards[k].offset == Point(corner.x + c.cards[k].at.x, corner.y + c.cards[k].at.y)
    ensures Part(agents, room, [Loose(session)], top, top + c.height + TASK_GAP, cards,
                 BlockFeet(c, room, Point(0.0 + corner.x, 0.0 + corner.y)), map[], [])
  {
    hide Snug, FromTop, NoLoops, Of, Foot, Apart, Fills;
    assert [Loose(session)][0] == Loose(session);
    LooseStands(agents, session, c, room, corner, cards);
    BlockFeetClear(c, room, corner);
    OneBlock(agents, Loose(session));
  }

  lemma {:induction false} OneBlock(agents: seq<Agent>, key: Key)
    ensures BlockIds(agents, [key]) == multiset(Ids(Of(agents, key)))
  {
    assert [key][..0] == [];
  }

  lemma {:induction false} NoCards(agents: seq<Agent>, key: Key, c: Contents)
    requires c.cards == [] && multiset(SeatIds(c.cards)) == multiset(Ids(Of(agents, key)))
    ensures Of(agents, key) == []
  {
    assert SeatIds(c.cards) == [];
    assert |multiset(Ids(Of(agents, key)))| == |Of(agents, key)|;
  }

  lemma {:induction false} LooseStands(agents: seq<Agent>, session: string, c: Contents, room: Rooms, corner: Point, cards: seq<Placed>)
    requires FilledOne(agents, Loose(session), room, c) && |cards| == |c.cards|
    requires forall k :: 0 <= k < |cards| ==>
      && Lookup(agents, c.cards[k].id) == Some(cards[k].agent)
      && cards[k].offset == Point(corner.x + c.cards[k].at.x, corner.y + c.cards[k].at.y)
    ensures Stands(cards, BlockFeet(c, room, Point(0.0 + corner.x, 0.0 + corner.y)), map[], room)
    ensures multiset(CardIds(cards)) == multiset(Ids(Of(agents, Loose(session))))
    ensures forall k :: 0 <= k < |cards| ==> cards[k].agent in agents && cards[k].agent.task == None
  {
    forall k | 0 <= k < |cards|
      ensures KeyOf(cards[k].agent) == Loose(session) && cards[k].agent in agents
    {
      assert KeyOf(Lookup(agents, c.cards[k].id).value) == Loose(session);
    }
    SeatsStand(agents, Loose(session), c, room, corner, cards, map[]);
  }

  /** The ids of a session's containers, in record order. */
  function IdsOf(tasks: seq<Task>, session: string): (ids: seq<string>)
    ensures forall t :: t in ids <==> exists k :: 0 <= k < |tasks| && tasks[k] == Task(t, Some(session))
  {
    if tasks == [] then []
    else
      var n := |tasks| - 1;
      var rest := IdsOf(tasks[..n], session);
      assert tasks == tasks[..n] + [tasks[n]];
      if tasks[n].session == Some(session) then rest + [tasks[n].id] else rest
  }

  ghost predicate DistinctTasks(tasks: seq<Task>) {
    forall i, j :: 0 <= i < j < |tasks| ==> tasks[i].id != tasks[j].id
  }

  lemma {:induction false} IdsOfDistinct(tasks: seq<Task>, session: string)
    requires DistinctTasks(tasks)
    ensures forall i, j :: 0 <= i < j < |IdsOf(tasks, session)| ==> IdsOf(tasks, session)[i] != IdsOf(tasks, session)[j]
  {
    if tasks != [] {
      var n := |tasks| - 1;
      IdsOfDistinct(tasks[..n], session);
      var rest := IdsOf(tasks[..n], session);
      forall i | 0 <= i < |rest|
        ensures rest[i] != tasks[n].id
      {
        assert rest[i] in rest;
      }
    }
  }

  /** `m` was spawned by an agent of container `up`. */
  ghost predicate SpawnedFrom(agents: seq<Agent>, ids: seq<string>, m: Agent, up: nat) {
    up < |ids| && exists s :: s in agents && m.parent == Some(s.id) && s.task == Some(ids[up])
  }

  /** None of the first `n` members of container `ix` was spawned from another container. */
  ghost predicate NoneBefore(agents: seq<Agent>, ids: seq<string>, ix: nat, n: nat)
    requires ix < |ids| && n <= |Of(agents, In(ids[ix]))|
  {
    forall k, up :: 0 <= k < n && up != ix ==> !SpawnedFrom(agents, ids, Of(agents, In(ids[ix]))[k], up)
  }

  /** Container `ix` hangs under the other container that its first member spawned from one was spawned
      from, and under none when it has no such member. */
  ghost predicate HangsUnder(agents: seq<Agent>, ids: seq<string>, ix: nat, up: Option<nat>)
    requires ix < |ids|
  {
    var members := Of(agents, In(ids[ix]));
    match up
    case None => NoneBefore(agents, ids, ix, |members|)
    case Some(above) =>
      above != ix && exists k :: 0 <= k < |members| && NoneBefore(agents, ids, ix, k) && SpawnedFrom(agents, ids, members[k], above)
  }

  function Position(ids: seq<string>, id: string): (p: Option<nat>)
    ensures p.Some? ==> p.value < |ids| && ids[p.value] == id
  {
    if ids == [] then None
    else if ids[0] == id then Some(0)
    else
      var rest := Position(ids[1..], id);
      if rest.Some? then Some(rest.value + 1) else None
  }

  lemma {:induction false} PositionFinds(ids: seq<string>, k: nat)
    requires k < |ids| && forall i, j :: 0 <= i < j < |ids| ==> ids[i] != ids[j]
    ensures Position(ids, ids[k]) == Some(k)
  {
    if k > 0 {
      PositionFinds(ids[1..], k - 1);
    }
  }

  /** The container of whoever spawned `m`. */
  function ContainerOfSpawner(ids: seq<string>, agents: seq<Agent>, m: Agent): Option<nat> {
    if m.parent.None? then None
    else
      var spawner := Lookup(agents, m.parent.value);
      if spawner.None? || spawner.value.task.None? then None else Position(ids, spawner.value.task.value)
  }

  lemma SpawnerIsFound(ids: seq<string>, agents: seq<Agent>, m: Agent, up: nat)
    requires DistinctIds(agents) && forall i, j :: 0 <= i < j < |ids| ==> ids[i] != ids[j]
    ensures SpawnedFrom(agents, ids, m, up) <==> ContainerOfSpawner(ids, agents, m) == Some(up)
  {
    if SpawnedFrom(agents, ids, m, up) {
      var s :| s in agents && m.parent == Some(s.id) && s.task == Some(ids[up]);
      LookupFinds(agents, s);
      PositionFinds(ids, up);
    }
  }

  /** A member whose spawner is a fellow member was not spawned from another container. */
  lemma {:induction false} FellowIsNoSpawner(ids: seq<string>, agents: seq<Agent>, ix: nat, m: Agent)
    requires ix < |ids| && DistinctIds(agents) && m.parent.Some? && m.parent.value in Ids(Of(agents, In(ids[ix])))
    requires forall i, j :: 0 <= i < j < |ids| ==> ids[i] != ids[j]
    ensures forall up :: up != ix ==> !SpawnedFrom(agents, ids, m, up)
  {
    var members := Of(agents, In(ids[ix]));
    var j :| 0 <= j < |members| && members[j].id == m.parent.value;
    assert members[j] in members;
    LookupFinds(agents, members[j]);
    forall up | SpawnedFrom(agents, ids, m, up)
      ensures up == ix
    {
      SpawnerIsFound(ids, agents, m, up);
      PositionFinds(ids, ix);
    }
  }

  /** The first container found above `ix`. */
  method ContainerAbove(ids: seq<string>, agents: seq<Agent>, ix: nat) returns (up: Option<nat>)
    requires ix < |ids| && DistinctIds(agents) && forall i, j :: 0 <= i < j < |ids| ==> ids[i] != ids[j]
    ensures up.Some? ==> up.value < |ids|
    ensures HangsUnder(agents, ids, ix, up)
  {
    hide SpawnedFrom, Of, Lookup, Position, ContainerOfSpawner;
    var members := Of(agents, In(ids[ix]));
    for k := 0 to |members|
      invariant NoneBefore(agents, ids, ix, k)
    {
      var m := members[k];
      if m.parent.Some? && m.parent.value in Ids(members) {
        FellowIsNoSpawner(ids, agents, ix, m);
        continue;
      }
      var above := ContainerOfSpawner(ids, agents, m);
      forall other: nat
        ensures SpawnedFrom(agents, ids, m, other) <==> above == Some(other)
      {
        SpawnerIsFound(ids, agents, m, other);
      }
      if above.Some? && above.value != ix {
        SpawnedWithin(ids, agents, m, above.value);
        return above;
      }
    }
    return None;
  }

  lemma SpawnedWithin(ids: seq<string>, agents: seq<Agent>, m: Agent, up: nat)
    requires SpawnedFrom(agents, ids, m, up)
    ensures up < |ids|
  {
  }

  /** Which container of the session hangs under which. */
  method TaskForest(ids: seq<string>, agents: seq<Agent>) returns (parents: Parents.Relation)
    requires DistinctIds(agents) && forall i, j :: 0 <= i < j < |ids| ==> ids[i] != ids[j]
    ensures |parents| == |ids| && Parents.InRange(parents)
    ensures forall ix :: 0 <= ix < |ids| ==> HangsUnder(agents, ids, ix, parents[ix])
  {
    hide HangsUnder;
    parents := [];
    for ix := 0 to |ids|
      invariant |parents| == ix
      invariant forall k :: 0 <= k < ix ==> HangsUnder(agents, ids, k, parents[k])
      invariant forall k :: 0 <= k < ix && parents[k].Some? ==> parents[k].value < |ids|
    {
      var up := ContainerAbove(ids, agents, ix);
      parents := parents + [up];
    }
  }

  ghost function BoxesOf(ids: seq<string>, sizes: seq<Size>, at: seq<Point>, y: real): (boxes: seq<TaskBox>)
    requires |ids| == |sizes| == |at|
    ensures |boxes| == |ids| && forall k :: 0 <= k < |ids| ==> boxes[k] == TaskBox(ids[k], FrameAt(at[k], y), sizes[k])
    ensures forall k :: 0 <= k < |ids| ==> boxes[k].Outer() == Rect(LAYOUT_MARGIN + at[k].x, y + at[k].y, sizes[k].w, sizes[k].h)
  {
    seq(|ids|, k requires 0 <= k < |ids| => TaskBox(ids[k], FrameAt(at[k], y), sizes[k]))
  }

  /** Every reserved rectangle lies between `y` and what the packer took. */
  lemma BoxesPlaced(ids: seq<string>, contents: seq<Contents>, sizes: seq<Size>, at: seq<Point>, extent: Size, top: real, y: real, origins: Origins)
    requires |ids| == |sizes| && Packed(contents, sizes, at) && Packers.Placement(at, extent, sizes)
    requires Framing(ids, at, top, |ids|, origins)
    requires y == if extent.h > 0.0 then top + extent.h + TASK_GAP else top
    ensures var boxes := BoxesOf(ids, sizes, at, top);
            && BoxesApart(boxes)
            && (forall j :: 0 <= j < |boxes| && !boxes[j].size.Empty() ==> InBand(boxes[j].Outer(), top, y))
            && (forall j :: 0 <= j < |boxes| ==> boxes[j].id in origins && boxes[j].origin == origins[boxes[j].id])
  {
    var boxes := BoxesOf(ids, sizes, at, top);
    forall i, j | 0 <= i < j < |boxes| && !boxes[i].size.Empty() && !boxes[j].size.Empty()
      ensures Apart(boxes[i].Outer(), boxes[j].Outer(), TASK_GAP)
    {
      assert Apart(Box(at[i], sizes[i]), Box(at[j], sizes[j]), TASK_GAP);
    }
    forall j | 0 <= j < |ids| && !sizes[j].Empty()
      ensures InBand(boxes[j].Outer(), top, y)
    {
      assert j in Drawn(sizes) && sizes[j] == SizeOf(contents[j]);
    }
  }

  /** A housed card is framed by the box of its container, and drawn where that box is. */
  lemma HousedIsFramed(card: Placed, foot: Rect, ids: seq<string>, contents: seq<Contents>, sizes: seq<Size>, at: seq<Point>, extent: Size, y: real)
    requires Packed(contents, sizes, at) && |ids| == |at| && Packers.Placement(at, extent, sizes)
    requires HousedIn(card, foot, ids, contents, at, y, |ids|)
    ensures Framed(card, foot, BoxesOf(ids, sizes, at, y))
    ensures InBand(foot, y, y + extent.h + TASK_GAP) && extent.h > 0.0
  {
    var j :| 0 <= j < |ids| && Housed(card, foot, ids, contents, at, y, j);
    var boxes := BoxesOf(ids, sizes, at, y);
    assert boxes[j].id == card.agent.task.value && !boxes[j].size.Empty() && Inside(foot, boxes[j].Frame());
    assert j in Drawn(sizes);
  }

  lemma KeysOfFrames(ids: seq<string>, at: seq<Point>, y: real, origins: Origins, t: string)
    requires |at| == |ids| && Framing(ids, at, y, |ids|, origins)
    ensures t in origins <==> In(t) in Containers(ids)
  {
    assert ids[..|ids|] == ids;
    if t in origins {
      var j :| 0 <= j < |ids| && ids[j] == t;
      assert Containers(ids)[j] == In(t);
    }
  }

  /** None of the cards housed is loose, and the frames they fill are those of the boxes. */
  lemma HousesAreBoxes(agents: seq<Agent>, ids: seq<string>, contents: seq<Contents>, sizes: seq<Size>, at: seq<Point>, y: real,
                       cards: seq<Placed>, feet: seq<Rect>)
    requires |ids| == |sizes| && Packed(contents, sizes, at) && |cards| == |feet|
    requires forall k :: 0 <= k < |cards| ==> HousedIn(cards[k], feet[k], ids, contents, at, y, |ids|)
    requires HousesFilled(agents, ids, contents, at, y, |ids|, cards, feet)
    ensures LooseClear(cards, feet, BoxesOf(ids, sizes, at, y)) && BoxesFilled(agents, cards, feet, BoxesOf(ids, sizes, at, y))
  {
    hide Fills, DrawnSeparated;
    forall k | 0 <= k < |cards|
      ensures cards[k].agent.task.Some?
    {
      var j :| 0 <= j < |ids| && Housed(cards[k], feet[k], ids, contents, at, y, j);
    }
    var boxes := BoxesOf(ids, sizes, at, y);
    forall j | 0 <= j < |boxes| && !boxes[j].size.Empty()
      ensures Fills(agents, cards, feet, In(boxes[j].id), boxes[j].Frame())
    {
      assert sizes[j] == SizeOf(contents[j]);
      assert boxes[j].Frame() == HouseFrame(contents[j], at[j], y);
    }
  }

  lemma BoxesNamed(ids: seq<string>, sizes: seq<Size>, at: seq<Point>, y: real)
    requires |ids| == |sizes| == |at| && forall i, j :: 0 <= i < j < |ids| ==> ids[i] != ids[j]
    ensures BoxesOnce(BoxesOf(ids, sizes, at, y))
  {
  }

  lemma HousedIsPart(agents: seq<Agent>, ids: seq<string>, room: Rooms, contents: seq<Contents>, sizes: seq<Size>, at: seq<Point>, extent: Size,
                     top: real, y: real, cards: seq<Placed>, feet: seq<Rect>, origins: Origins)
    requires forall i, j :: 0 <= i < j < |ids| ==> ids[i] != ids[j]
    requires Packed(contents, sizes, at) && |ids| == |at| && Packers.Placement(at, extent, sizes)
    requires HousedSoFar(agents, ids, room, contents, at, top, |ids|, cards, feet, origins)
    requires y == if extent.h > 0.0 then top + extent.h + TASK_GAP else top
    ensures Part(agents, room, Containers(ids), top, y, cards, feet, origins, BoxesOf(ids, sizes, at, top))
  {
    hide Stands, Clear, Framing, HousesFilled, HousedIn, BlockIds, Framed, InBand, BoxesApart, LooseClear, BoxesFilled, BoxesOf;
    assert ids[..|ids|] == ids;
    assert top <= y;
    OneFootEach(cards, feet, origins, room);
    HousesAreBoxes(agents, ids, contents, sizes, at, top, cards, feet);
    BoxesNamed(ids, sizes, at, top);
    AllFramed(ids, contents, sizes, at, extent, top, y, cards, feet);
    AllKeysOfFrames(ids, at, top, origins);
    BoxesPlaced(ids, contents, sizes, at, extent, top, y, origins);
  }

  lemma AllFramed(ids: seq<string>, contents: seq<Contents>, sizes: seq<Size>, at: seq<Point>, extent: Size,
                  top: real, y: real, cards: seq<Placed>, feet: seq<Rect>)
    requires Packed(contents, sizes, at) && |ids| == |at| && Packers.Placement(at, extent, sizes)
    requires |cards| == |feet| && forall k :: 0 <= k < |cards| ==> HousedIn(cards[k], feet[k], ids, contents, at, top, |ids|)
    requires y == if extent.h > 0.0 then top + extent.h + TASK_GAP else top
    ensures forall k :: 0 <= k < |cards| ==> Framed(cards[k], feet[k], BoxesOf(ids, sizes, at, top)) && InBand(feet[k], top, y)
  {
    forall k | 0 <= k < |cards|
      ensures Framed(cards[k], feet[k], BoxesOf(ids, sizes, at, top)) && InBand(feet[k], top, y)
    {
      HousedIsFramed(cards[k], feet[k], ids, contents, sizes, at, extent, top);
    }
  }

  lemma AllKeysOfFrames(ids: seq<string>, at: seq<Point>, y: real, origins: Origins)
    requires |at| == |ids| && Framing(ids, at, y, |ids|, origins)
    ensures forall t :: t in origins <==> In(t) in Containers(ids)
  {
    forall t
      ensures t in origins <==> In(t) in Containers(ids)
    {
      KeysOfFrames(ids, at, y, origins, t);
    }
  }

  /** The relation the packer is given: who was spawned from whom, or nobody from anybody. */
  method SpawnParents(ids: seq<string>, agents: seq<Agent>, forest: bool) returns (parents: Parents.Relation)
    requires DistinctIds(agents) && forall i, j :: 0 <= i < j < |ids| ==> ids[i] != ids[j]
    ensures |parents| == |ids| && Parents.InRange(parents) && AsSpawned(agents, ids, parents, forest)
  {
    parents := seq(|ids|, _ => None);
    if forest {
      parents := TaskForest(ids, agents);
    }
  }

  /** Fills the containers `ids`, packs them and sets them down from `top` on. */
  method ContainerPart(ids: seq<string>, top: real, agents: seq<Agent>, room: Rooms, algo: Algo, target: real)
    returns (cards: seq<Placed>, origins: Origins, boxes: seq<TaskBox>, y: real, ghost feet: seq<Rect>)
    requires DistinctIds(agents) && Roomy(room)
    requires forall k :: 0 <= k < |ids| ==> Folds(algo.inside, Of(agents, In(ids[k])))
    requires forall i, j :: 0 <= i < j < |ids| ==> ids[i] != ids[j]
    ensures Part(agents, room, Containers(ids), top, y, cards, feet, origins, boxes)
    ensures y == top || LowestBox(boxes, y)
    ensures PackedAsNamed(agents, ids, room, cards, boxes, top, y, algo, target)
  {
    hide Part, Fills, HangsUnder, Packers.PackedBy, AsFolded, Of, FilledOne, Packers.Placement, AsSpawned, HousedAs, Folds;
    var contents, sizes := Fill(agents, ids, room, algo.inside);
    var parents := SpawnParents(ids, agents, algo.forest);
    var at, extent := Packers.Pack(algo.packer, sizes, parents, target, algo.judge);
    FilledIsPacked(agents, ids, room, contents, sizes, at, extent);
    cards, origins, feet := House(agents, ids, room, contents, sizes, at, top);
    boxes := seq(|ids|, k requires 0 <= k < |ids| => TaskBox(ids[k], FrameAt(at[k], top), sizes[k]));
    y := if extent.h > 0.0 then top + extent.h + TASK_GAP else top;
    HousedIsPart(agents, ids, room, contents, sizes, at, extent, top, y, cards, feet, origins);
    assert boxes == BoxesOf(ids, sizes, at, top);
    if extent.h > 0.0 {
      LowestIsThere(ids, sizes, at, extent, top);
    }
    assert SizedAsFolded(agents, ids, room, algo.inside, contents, sizes);
  }

  /** The containers are as large as their folded contents, stand as the arrangement's packer answers for them,
      and hold their cards as they were folded; where the arrangement asks for a forest, each container that
      was spawned from another hangs under it. */
  ghost predicate PackedAsNamed(agents: seq<Agent>, ids: seq<string>, room: Rooms, cards: seq<Placed>, boxes: seq<TaskBox>, top: real, y: real,
                                algo: Algo, target: real) {
    exists contents: seq<Contents>, at: seq<Point>, extent: Size, sizes: seq<Size>, parents: Parents.Relation ::
      && |at| == |sizes| == |parents| == |ids| && SizedAsFolded(agents, ids, room, algo.inside, contents, sizes)
      && AsSpawned(agents, ids, parents, algo.forest)
      && Packers.PackedBy(algo.packer, at, extent, sizes, parents, target, algo.judge)
      && HousedAs(agents, contents, cards) && boxes == BoxesOf(ids, sizes, at, top)
      && y == if extent.h > 0.0 then top + extent.h + TASK_GAP else top
  }

  ghost predicate AsSpawned(agents: seq<Agent>, ids: seq<string>, parents: Parents.Relation, forest: bool)
    requires |parents| == |ids|
  {
    forall ix :: 0 <= ix < |ids| ==> if forest then HangsUnder(agents, ids, ix, parents[ix]) else parents[ix].None?
  }

  ghost predicate SizedAsFolded(agents: seq<Agent>, ids: seq<string>, room: Rooms, fold: Fold, contents: seq<Contents>, sizes: seq<Size>) {
    && Roomy(room) && |contents| == |sizes| == |ids|
    && (forall k :: 0 <= k < |ids| ==> AsFolded(Of(agents, In(ids[k])), room, fold, contents[k]))
    && (forall k :: 0 <= k < |ids| ==> sizes[k] == SizeOf(contents[k]))
  }

  /** A drawn container is reserved down to a task gap above `y`. */
  ghost predicate LowestBox(boxes: seq<TaskBox>, y: real) {
    exists j :: 0 <= j < |boxes| && !boxes[j].size.Empty() && boxes[j].Outer().y + boxes[j].Outer().h + TASK_GAP == y
  }

  lemma LowestIsThere(ids: seq<string>, sizes: seq<Size>, at: seq<Point>, extent: Size, top: real)
    requires |ids| == |sizes| == |at| && Packers.Placement(at, extent, sizes) && extent.h > 0.0
    ensures LowestBox(BoxesOf(ids, sizes, at, top), top + extent.h + TASK_GAP)
  {
    var boxes := BoxesOf(ids, sizes, at, top);
    var j :| j in Drawn(sizes) && extent.h == at[j].y + sizes[j].h;
    assert boxes[j].Outer().y + boxes[j].Outer().h + TASK_GAP == top + extent.h + TASK_GAP;
  }

  lemma FilledIsPacked(agents: seq<Agent>, ids: seq<string>, room: Rooms, contents: seq<Contents>, sizes: seq<Size>, at: seq<Point>, extent: Size)
    requires Filled(agents, ids, room, contents, sizes) && Packers.Placement(at, extent, sizes)
    ensures Packed(contents, sizes, at)
    ensures forall k :: 0 <= k < |ids| ==> FilledOne(agents, In(ids[k]), room, contents[k])
  {
    forall k | 0 <= k < |sizes|
      ensures contents[k].width >= 0.0 && contents[k].height >= 0.0
    {
      assert FilledOne(agents, In(ids[k]), room, contents[k]);
    }
  }

  /** The blocks of one session: its loose cards, then its containers. */
  ghost function SessionKeys(tasks: seq<Task>, session: string): seq<Key> {
    [Loose(session)] + Containers(IdsOf(tasks, session))
  }

  lemma {:induction false} SessionFolds(algo: Algo, agents: seq<Agent>, tasks: seq<Task>, session: string)
    requires Sound(algo, agents, tasks)
    ensures Folds(algo.loose, Of(agents, Loose(session)))
    ensures forall k :: 0 <= k < |IdsOf(tasks, session)| ==> Folds(algo.inside, Of(agents, In(IdsOf(tasks, session)[k])))
  {
    BlockFolds(algo, agents, tasks, Loose(session));
    forall k | 0 <= k < |IdsOf(tasks, session)|
      ensures Folds(algo.inside, Of(agents, In(IdsOf(tasks, session)[k])))
    {
      var id := IdsOf(tasks, session)[k];
      assert id in IdsOf(tasks, session);
      var j :| 0 <= j < |tasks| && tasks[j] == Task(id, Some(session));
      assert tasks[j].id == In(id).task && tasks[j].session.Some?;
      BlockFolds(algo, agents, tasks, In(id));
    }
  }

  /** The blocks of one session: first its loose cards, from `top` on, and then its containers. */
  method Arrange(session: string, top: real, agents: seq<Agent>, tasks: seq<Task>, room: Rooms, algo: Algo, target: real)
    returns (cards: seq<Placed>, origins: Origins, boxes: seq<TaskBox>, y: real, ghost feet: seq<Rect>)
    requires DistinctIds(agents) && DistinctTasks(tasks) && Roomy(room) && Sound(algo, agents, tasks)
    ensures Part(agents, room, SessionKeys(tasks, session), top, y, cards, feet, origins, boxes)
    ensures Of(agents, Loose(session)) != [] ==> Reaches(agents, tasks, session, top, y, cards, feet, boxes)
    ensures ArrangedAs(agents, tasks, session, room, cards, boxes, top, y, algo, target)
  {
    hide PackedAsNamed, LooseAsFolded, Fills, NoLoops, LowestBox, LooseFills, Of, IdsOf, Folds, SoundFold, BlockIds, Stands, Clear, BoxesApart, BoxesOnce, Framed;
    SessionFolds(algo, agents, tasks, session);
    var loose, mid, looseFeet := LoosePart(session, top, agents, room, algo.loose);
    var ids := IdsOf(tasks, session);
    IdsOfDistinct(tasks, session);
    var housed;
    ghost var housedFeet;
    housed, origins, boxes, y, housedFeet := ContainerPart(ids, mid, agents, room, algo, target);
    PartsJoin(agents, room, [Loose(session)], Containers(ids), top, mid, y,
              loose, looseFeet, map[], [], housed, housedFeet, origins, boxes);
    cards, feet := loose + housed, looseFeet + housedFeet;
    assert map[] + origins == origins && [] + boxes == boxes;
    assert cards == loose + housed;
    if Of(agents, Loose(session)) != [] {
      OneFootEach(loose, looseFeet, map[], room);
      ReachesDown(agents, tasks, session, top, mid, y, loose, looseFeet, housed, housedFeet, origins, boxes, room);
    }
  }

  /** First the session's loose cards, then its containers, which stand under them. */
  ghost predicate ArrangedAs(agents: seq<Agent>, tasks: seq<Task>, session: string, room: Rooms, cards: seq<Placed>, boxes: seq<TaskBox>,
                             top: real, y: real, algo: Algo, target: real) {
    exists loose: seq<Placed>, housed: seq<Placed>, mid: real :: cards == loose + housed
      && LooseAsFolded(agents, session, room, algo.loose, top, loose, mid)
      && PackedAsNamed(agents, IdsOf(tasks, session), room, housed, boxes, mid, y, algo, target)
  }

  /** The loose cards of a session begin at `top`, and what is in the session, loose cards or containers,
      reaches down to a task gap above `y`. */
  ghost predicate Reaches(agents: seq<Agent>, tasks: seq<Task>, session: string, top: real, y: real,
                          cards: seq<Placed>, feet: seq<Rect>, boxes: seq<TaskBox>) {
    exists width: real, height: real ::
      && Fills(agents, cards, feet, Loose(session), Rect(LAYOUT_MARGIN, top, width, height))
      && (top + height + TASK_GAP == y || LowestOf(tasks, session, boxes, y))
  }

  ghost predicate LowestOf(tasks: seq<Task>, session: string, boxes: seq<TaskBox>, y: real) {
    exists j :: 0 <= j < |boxes| && !boxes[j].size.Empty() && Task(boxes[j].id, Some(session)) in tasks
                && boxes[j].Outer().y + boxes[j].Outer().h + TASK_GAP == y
  }

  lemma {:induction false} ReachesDown(agents: seq<Agent>, tasks: seq<Task>, session: string, top: real, mid: real, y: real,
                    loose: seq<Placed>, looseFeet: seq<Rect>, housed: seq<Placed>, housedFeet: seq<Rect>,
                    origins: Origins, boxes: seq<TaskBox>, room: Rooms)
    requires |loose| == |looseFeet| && LooseFills(agents, session, top, mid, loose, looseFeet)
    requires Part(agents, room, Containers(IdsOf(tasks, session)), mid, y, housed, housedFeet, origins, boxes)
    requires y == mid || LowestBox(boxes, y)
    ensures Reaches(agents, tasks, session, top, y, loose + housed, looseFeet + housedFeet, boxes)
  {
    hide Fills, BoxesFilled, Clear, BoxesApart;
    var width: real, height: real :|
      Fills(agents, loose, looseFeet, Loose(session), Rect(LAYOUT_MARGIN, top, width, height)) && top + height + TASK_GAP == mid;
    FillsMore(agents, loose, looseFeet, housed, housedFeet, Loose(session), Rect(LAYOUT_MARGIN, top, width, height));
    if y != mid {
      var j :| 0 <= j < |boxes| && !boxes[j].size.Empty() && boxes[j].Outer().y + boxes[j].Outer().h + TASK_GAP == y;
      assert In(boxes[j].id) in Containers(IdsOf(tasks, session));
      assert boxes[j].id in IdsOf(tasks, session);
      assert Task(boxes[j].id, Some(session)) in tasks;
    }
  }

  lemma ReachesMore(agents: seq<Agent>, tasks: seq<Task>, session: string, top: real, y: real, a: seq<Placed>, fa: seq<Rect>, boxesA: seq<TaskBox>,
                    b: seq<Placed>, fb: seq<Rect>, boxesB: seq<TaskBox>)
    requires |a| == |fa| && |b| == |fb|
    requires Reaches(agents, tasks, session, top, y, a, fa, boxesA) || Reaches(agents, tasks, session, top, y, b, fb, boxesB)
    ensures Reaches(agents, tasks, session, top, y, a + b, fa + fb, boxesA + boxesB)
  {
    hide Fills, LowestOf;
    LowestMore(tasks, session, boxesA, boxesB, y);
    if Reaches(agents, tasks, session, top, y, a, fa, boxesA) {
      var width: real, height: real :|
        && Fills(agents, a, fa, Loose(session), Rect(LAYOUT_MARGIN, top, width, height))
        && (top + height + TASK_GAP == y || LowestOf(tasks, session, boxesA, y));
      FillsMore(agents, a, fa, b, fb, Loose(session), Rect(LAYOUT_MARGIN, top, width, height));
    } else {
      var width: real, height: real :|
        && Fills(agents, b, fb, Loose(session), Rect(LAYOUT_MARGIN, top, width, height))
        && (top + height + TASK_GAP == y || LowestOf(tasks, session, boxesB, y));
      FillsMore(agents, a, fa, b, fb, Loose(session), Rect(LAYOUT_MARGIN, top, width, height));
    }
  }

  lemma LowestMore(tasks: seq<Task>, session: string, a: seq<TaskBox>, b: seq<TaskBox>, y: real)
    ensures LowestOf(tasks, session, a, y) || LowestOf(tasks, session, b, y) ==> LowestOf(tasks, session, a + b, y)
  {
    var all := a + b;
    if LowestOf(tasks, session, a, y) {
      var j :| 0 <= j < |a| && !a[j].size.Empty() && Task(a[j].id, Some(session)) in tasks && a[j].Outer().y + a[j].Outer().h + TASK_GAP == y;
      assert all[j] == a[j];
    } else if LowestOf(tasks, session, b, y) {
      var j :| 0 <= j < |b| && !b[j].size.Empty() && Task(b[j].id, Some(session)) in tasks && b[j].Outer().y + b[j].Outer().h + TASK_GAP == y;
      assert all[|a| + j] == b[j];
    }
  }

  /** Session `n` begins at `tops[n]`, and what is in it reaches down to where the next one begins. */
  ghost predicate SessionsStacked(agents: seq<Agent>, tasks: seq<Task>, order: seq<string>, tops: seq<real>,
                          cards: seq<Placed>, feet: seq<Rect>, boxes: seq<TaskBox>) {
    && |tops| == |order| + 1
    && (forall n :: 0 <= n < |order| && Of(agents, Loose(order[n])) != [] ==>
          Reaches(agents, tasks, order[n], tops[n], tops[n + 1], cards, feet, boxes))
  }

  lemma {:induction false} SessionsStackedMore(agents: seq<Agent>, tasks: seq<Task>, order: seq<string>, tops: seq<real>,
                    cards: seq<Placed>, feet: seq<Rect>, boxes: seq<TaskBox>,
                    session: string, y: real, more: seq<Placed>, moreFeet: seq<Rect>, moreBoxes: seq<TaskBox>)
    requires SessionsStacked(agents, tasks, order, tops, cards, feet, boxes) && |cards| == |feet| && |more| == |moreFeet|
    requires Of(agents, Loose(session)) != [] ==> Reaches(agents, tasks, session, tops[|order|], y, more, moreFeet, moreBoxes)
    ensures SessionsStacked(agents, tasks, order + [session], tops + [y], cards + more, feet + moreFeet, boxes + moreBoxes)
  {
    hide Reaches, Of;
    var order', tops' := order + [session], tops + [y];
    forall n | 0 <= n < |order'| && Of(agents, Loose(order'[n])) != []
      ensures Reaches(agents, tasks, order'[n], tops'[n], tops'[n + 1], cards + more, feet + moreFeet, boxes + moreBoxes)
    {
      ReachesMore(agents, tasks, order'[n], tops'[n], tops'[n + 1], cards, feet, boxes, more, moreFeet, moreBoxes);
    }
  }

  /** The agents of a block keep the order they are recorded in. */
  lemma {:induction false} OfKeepsOrder(a: seq<Agent>, b: seq<Agent>, key: Key)
    ensures Of(a + b, key) == Of(a, key) + Of(b, key)
  {
    hide Of;
    if b == [] {
      assert a + b == a;
      OfFew(a, key);
    } else {
      var n := |b| - 1;
      OfKeepsOrder(a, b[..n], key);
      assert (a + b)[..|a + b| - 1] == a + b[..n] && (a + b)[|a + b| - 1] == b[n];
      OfLast(a + b, key);
      OfLast(b, key);
    }
  }

  lemma {:induction false} OfFew(a: seq<Agent>, key: Key)
    ensures Of([], key) == []
    ensures a != [] ==> Of(a[..1], key) == if KeyOf(a[0]) == key then [a[0]] else []
  {
    if a != [] {
      OfLast(a[..1], key);
    }
  }

  lemma {:induction false} OfLast(a: seq<Agent>, key: Key)
    requires a != []
    ensures var n := |a| - 1;
            Of(a, key) == Of(a[..n], key) + if KeyOf(a[n]) == key then [a[n]] else []
  {
    hide KeyOf;
  }

  /** So do the containers of a session. */
  lemma {:induction false} IdsOfKeepsOrder(a: seq<Task>, b: seq<Task>, session: string)
    ensures IdsOf(a + b, session) == IdsOf(a, session) + IdsOf(b, session)
  {
    hide IdsOf;
    if b == [] {
      assert a + b == a;
      IdsOfFew(a, session);
    } else {
      var n := |b| - 1;
      IdsOfKeepsOrder(a, b[..n], session);
      assert (a + b)[..|a + b| - 1] == a + b[..n] && (a + b)[|a + b| - 1] == b[n];
      IdsOfLast(a + b, session);
      IdsOfLast(b, session);
    }
  }

  lemma {:induction false} IdsOfFew(a: seq<Task>, session: string)
    ensures IdsOf([], session) == []
    ensures a != [] ==> IdsOf(a[..1], session) == if a[0].session == Some(session) then [a[0].id] else []
  {
    if a != [] {
      IdsOfLast(a[..1], session);
    }
  }

  lemma {:induction false} IdsOfLast(a: seq<Task>, session: string)
    requires a != []
    ensures var n := |a| - 1;
            IdsOf(a, session) == IdsOf(a[..n], session) + if a[n].session == Some(session) then [a[n].id] else []
  {
  }

  // ---- every session ----

  /** Every session that an agent or a task names, once. */
  ghost predicate Sessions(order: seq<string>, agents: seq<Agent>, tasks: seq<Task>) {
    && (forall i, j :: 0 <= i < j < |order| ==> order[i] != order[j])
    && (forall a :: a in agents ==> a.session in order)
    && (forall t :: t in tasks && t.session.Some? ==> t.session.value in order)
    && (forall s :: s in order ==> (exists a :: a in agents && a.session == s) || (exists t :: t in tasks && t.session == Some(s)))
  }

  /** The session each agent, and then each task, names. */
  function Named(agents: seq<Agent>, tasks: seq<Task>): (named: seq<Option<string>>)
    ensures |named| == |agents| + |tasks|
    ensures forall k :: 0 <= k < |agents| ==> named[k] == Some(agents[k].session)
    ensures forall k :: 0 <= k < |tasks| ==> named[|agents| + k] == tasks[k].session
  {
    seq(|agents|, k requires 0 <= k < |agents| => Some(agents[k].session)) + seq(|tasks|, k requires 0 <= k < |tasks| => tasks[k].session)
  }

  /** `order` lists what the first `n` name, once each, by where it is named first: `order[k]` at `first[k]`. */
  ghost predicate FirstNamed(order: seq<string>, first: seq<nat>, named: seq<Option<string>>, n: nat)
    requires n <= |named|
  {
    && |first| == |order|
    && (forall k :: 0 <= k < |order| ==> first[k] < n && named[first[k]] == Some(order[k]))
    && (forall i, j :: 0 <= i < j < |order| ==> first[i] < first[j] && order[i] != order[j])
    && (forall k, p :: 0 <= k < |order| && 0 <= p < first[k] ==> named[p] != Some(order[k]))
    && (forall p :: 0 <= p < n && named[p].Some? ==> named[p].value in order)
  }

  ghost predicate AsFirstNamed(order: seq<string>, named: seq<Option<string>>) {
    exists first: seq<nat> :: FirstNamed(order, first, named, |named|)
  }

  /** The sessions in the order they are first met, in the agents and then in the tasks. */
  method SessionsOf(agents: seq<Agent>, tasks: seq<Task>) returns (order: seq<string>, ghost first: seq<nat>)
    ensures Sessions(order, agents, tasks)
    ensures FirstNamed(order, first, Named(agents, tasks), |agents| + |tasks|) && AsFirstNamed(order, Named(agents, tasks))
  {
    var named := Named(agents, tasks);
    order, first := [], [];
    for n := 0 to |named|
      invariant FirstNamed(order, first, named, n)
    {
      if named[n].Some? && named[n].value !in order {
        MetFirst(order, first, named, n);
        order, first := order + [named[n].value], first + [n];
      }
    }
    NamedAreSessions(order, first, agents, tasks);
  }

  lemma MetFirst(order: seq<string>, first: seq<nat>, named: seq<Option<string>>, n: nat)
    requires n < |named| && FirstNamed(order, first, named, n) && named[n].Some? && named[n].value !in order
    ensures FirstNamed(order + [named[n].value], first + [n], named, n + 1)
  {
    var order', first' := order + [named[n].value], first + [n];
    forall p | 0 <= p < n + 1 && named[p].Some?
      ensures named[p].value in order'
    {
      assert order'[|order|] == named[n].value;
      if p < n {
        assert named[p].value in order;
      }
    }
  }

  lemma NamedAreSessions(order: seq<string>, first: seq<nat>, agents: seq<Agent>, tasks: seq<Task>)
    requires FirstNamed(order, first, Named(agents, tasks), |agents| + |tasks|)
    ensures Sessions(order, agents, tasks)
  {
    var named := Named(agents, tasks);
    forall a | a in agents
      ensures a.session in order
    {
      var k :| 0 <= k < |agents| && agents[k] == a;
      assert named[k].Some?;
    }
    forall t | t in tasks && t.session.Some?
      ensures t.session.value in order
    {
      var k :| 0 <= k < |tasks| && tasks[k] == t;
      assert named[|agents| + k].Some?;
    }
    forall s | s in order
      ensures (exists a :: a in agents && a.session == s) || (exists t :: t in tasks && t.session == Some(s))
    {
      var k :| 0 <= k < |order| && order[k] == s;
      if first[k] < |agents| {
        assert agents[first[k]] in agents;
      } else {
        assert tasks[first[k] - |agents|] in tasks;
      }
    }
  }

  ghost function AllKeys(tasks: seq<Task>, order: seq<string>): seq<Key> {
    if order == [] then [] else AllKeys(tasks, order[..|order| - 1]) + SessionKeys(tasks, order[|order| - 1])
  }

  /** A container is listed under exactly the session its task names. */
  lemma {:induction false} KeyListed(tasks: seq<Task>, order: seq<string>, key: Key)
    ensures key in AllKeys(tasks, order) <==>
      match key
      case Loose(s) => s in order
      case In(t) => exists k, s :: 0 <= k < |tasks| && tasks[k] == Task(t, Some(s)) && s in order
  {
    hide SessionKeys;
    if order != [] {
      var n := |order| - 1;
      KeyListed(tasks, order[..n], key);
      assert order == order[..n] + [order[n]];
      SessionKeyListed(tasks, order[n], key);
    }
  }

  lemma SessionKeyListed(tasks: seq<Task>, session: string, key: Key)
    ensures key in SessionKeys(tasks, session) <==>
      match key
      case Loose(s) => s == session
      case In(t) => exists k :: 0 <= k < |tasks| && tasks[k] == Task(t, Some(session))
  {
    var ids := IdsOf(tasks, session);
    if key.In? && key.task in ids {
      var k :| 0 <= k < |ids| && ids[k] == key.task;
      assert Containers(ids)[k] == key;
    }
  }

  lemma SessionKeysDistinct(tasks: seq<Task>, session: string)
    requires DistinctTasks(tasks)
    ensures forall i, j :: 0 <= i < j < |SessionKeys(tasks, session)| ==> SessionKeys(tasks, session)[i] != SessionKeys(tasks, session)[j]
  {
    IdsOfDistinct(tasks, session);
  }

  /** No block is listed twice. */
  lemma {:induction false} KeysDistinct(tasks: seq<Task>, order: seq<string>)
    requires DistinctTasks(tasks) && forall i, j :: 0 <= i < j < |order| ==> order[i] != order[j]
    ensures forall i, j :: 0 <= i < j < |AllKeys(tasks, order)| ==> AllKeys(tasks, order)[i] != AllKeys(tasks, order)[j]
  {
    if order != [] {
      var n := |order| - 1;
      KeysDistinct(tasks, order[..n]);
      SessionKeysDistinct(tasks, order[n]);
      var before, own := AllKeys(tasks, order[..n]), SessionKeys(tasks, order[n]);
      forall i, j | 0 <= i < |before| && 0 <= j < |own|
        ensures before[i] != own[j]
      {
        SessionsShareNothing(tasks, order, before[i]);
        assert before[i] in before && own[j] in own;
      }
    }
  }

  lemma {:induction false} SessionsShareNothing(tasks: seq<Task>, order: seq<string>, key: Key)
    requires DistinctTasks(tasks) && order != [] && forall i, j :: 0 <= i < j < |order| ==> order[i] != order[j]
    ensures key in AllKeys(tasks, order[..|order| - 1]) ==> key !in SessionKeys(tasks, order[|order| - 1])
  {
    KeyListed(tasks, order[..|order| - 1], key);
    SessionKeyListed(tasks, order[|order| - 1], key);
  }

  /** A card is drawn when it is loose, or its task is one of the tasks and belongs to a session. */
  ghost predicate IsDrawn(a: Agent, tasks: seq<Task>) {
    a.task.Some? ==> exists k :: 0 <= k < |tasks| && tasks[k].id == a.task.value && tasks[k].session.Some?
  }

  lemma {:induction false} DrawnIsListed(agents: seq<Agent>, tasks: seq<Task>, order: seq<string>, a: Agent)
    requires a in agents
    requires forall b :: b in agents ==> b.session in order
    requires forall t :: t in tasks && t.session.Some? ==> t.session.value in order
    ensures KeyOf(a) in AllKeys(tasks, order) <==> IsDrawn(a, tasks)
  {
    KeyListed(tasks, order, KeyOf(a));
    if a.task.Some? && IsDrawn(a, tasks) {
      var k :| 0 <= k < |tasks| && tasks[k].id == a.task.value && tasks[k].session.Some?;
      assert tasks[k] == Task(a.task.value, Some(tasks[k].session.value)) && tasks[k] in tasks;
    }
  }

  /** The arrangement before anything is drawn: every session from scratch, one under the other.
      Whatever the rings, the folding and the packer: each card that is drawn at all has exactly one
      place; no two cards with their delegates come closer than a card gap, be they in one container,
      in two, or in two sessions; and every card of a container is in the frame reserved for it. */
  method Build(agents: seq<Agent>, tasks: seq<Task>, algo: Algo, target: real)
    returns (cards: seq<Placed>, origins: Origins, boxes: seq<TaskBox>, order: seq<string>, ghost feet: seq<Rect>, ghost tops: seq<real>)
    requires DistinctIds(agents) && DistinctTasks(tasks) && Sound(algo, agents, tasks)
    ensures var room := RoomOf(agents, algo.ring); Stands(cards, feet, origins, room)
    ensures Clear(feet) && BoxesApart(boxes) && BoxesOnce(boxes)
    ensures |feet| == |cards| && LooseClear(cards, feet, boxes) && BoxesFilled(agents, cards, feet, boxes)
    ensures Sessions(order, agents, tasks) && SessionsStacked(agents, tasks, order, tops, cards, feet, boxes)
    ensures forall k :: 0 <= k < |cards| ==> cards[k].agent in agents && Framed(cards[k], feet[k], boxes)
    ensures forall j :: 0 <= j < |boxes| ==> boxes[j].id in origins && boxes[j].origin == origins[boxes[j].id]
    ensures forall a :: a in agents ==> multiset(CardIds(cards))[a.id] == if IsDrawn(a, tasks) then 1 else 0
    ensures AsFirstNamed(order, Named(agents, tasks))
    ensures BuiltAs(agents, tasks, order, cards, boxes, tops, algo, target)
  {
    hide SessionsStacked, LooseClear, BoxesFilled, ArrangedAs, FirstNamed, AllArranged;
    var room := RoomOf(agents, algo.ring);
    RoomsAreRoomy(agents, algo.ring);
    ghost var first;
    order, first := SessionsOf(agents, tasks);
    cards, origins, boxes, feet := [], map[], [], [];
    var y := LAYOUT_MARGIN;
    tops := [y];
    ghost var parts: seq<seq<Placed>>, boxParts: seq<seq<TaskBox>> := [], [];
    NothingYet(agents, tasks, room, y);
    NothingArranged(agents, tasks, room, order, tops, algo, target);
    assert Part(agents, room, AllKeys(tasks, order[..0]), LAYOUT_MARGIN, y, cards, feet, origins, boxes);
    for n := 0 to |order|
      invariant Part(agents, room, AllKeys(tasks, order[..n]), LAYOUT_MARGIN, y, cards, feet, origins, boxes)
      invariant SessionsStacked(agents, tasks, order[..n], tops, cards, feet, boxes) && tops != [] && tops[|tops| - 1] == y
      invariant |tops| == n + 1 && tops[0] == LAYOUT_MARGIN
      invariant Flatten(parts) == cards && Flatten(boxParts) == boxes && AllArranged(agents, tasks, room, order, parts, boxParts, tops, n, algo, target)
    {
      ghost var more, moreBoxes;
      cards, origins, boxes, y, feet, more, moreBoxes :=
        BuildNext(agents, tasks, room, algo, target, order, n, cards, origins, boxes, y, feet, tops);
      ArrangedNext(agents, tasks, room, order, parts, boxParts, tops, n, more, moreBoxes, y, algo, target);
      tops, parts, boxParts := tops + [y], parts + [more], boxParts + [moreBoxes];
    }
    assert order[..|order|] == order;
    forall a | a in agents
      ensures multiset(CardIds(cards))[a.id] == if IsDrawn(a, tasks) then 1 else 0
    {
      KeysDistinct(tasks, order);
      CountBlocks(agents, AllKeys(tasks, order), a);
      DrawnIsListed(agents, tasks, order, a);
    }
  }

  /** Session after session, the first at the margin and each where the one before it ends. */
  ghost predicate BuiltAs(agents: seq<Agent>, tasks: seq<Task>, order: seq<string>, cards: seq<Placed>, boxes: seq<TaskBox>, tops: seq<real>,
                          algo: Algo, target: real) {
    && |tops| == |order| + 1 && tops[0] == LAYOUT_MARGIN
    && exists parts: seq<seq<Placed>>, boxParts: seq<seq<TaskBox>> :: Flatten(parts) == cards && Flatten(boxParts) == boxes
         && AllArranged(agents, tasks, RoomOf(agents, algo.ring), order, parts, boxParts, tops, |order|, algo, target)
  }

  /** The first `n` sessions are arranged, each from its own top down to that of the next. */
  ghost predicate AllArranged(agents: seq<Agent>, tasks: seq<Task>, room: Rooms, order: seq<string>, parts: seq<seq<Placed>>,
                              boxParts: seq<seq<TaskBox>>, tops: seq<real>, n: nat, algo: Algo, target: real) {
    && |parts| == |boxParts| == n <= |order| && |tops| == n + 1
    && (forall k :: 0 <= k < n ==> ArrangedAs(agents, tasks, order[k], room, parts[k], boxParts[k], tops[k], tops[k + 1], algo, target))
  }

  lemma NothingArranged(agents: seq<Agent>, tasks: seq<Task>, room: Rooms, order: seq<string>, tops: seq<real>, algo: Algo, target: real)
    requires |tops| == 1
    ensures AllArranged(agents, tasks, room, order, [], [], tops, 0, algo, target)
  {
  }

  lemma {:induction false} ArrangedNext(agents: seq<Agent>, tasks: seq<Task>, room: Rooms, order: seq<string>, parts: seq<seq<Placed>>, boxParts: seq<seq<TaskBox>>,
                     tops: seq<real>, n: nat, more: seq<Placed>, moreBoxes: seq<TaskBox>, y: real, algo: Algo, target: real)
    requires n < |order| && AllArranged(agents, tasks, room, order, parts, boxParts, tops, n, algo, target)
    requires ArrangedAs(agents, tasks, order[n], room, more, moreBoxes, tops[n], y, algo, target)
    ensures AllArranged(agents, tasks, room, order, parts + [more], boxParts + [moreBoxes], tops + [y], n + 1, algo, target)
    ensures Flatten(parts + [more]) == Flatten(parts) + more && Flatten(boxParts + [moreBoxes]) == Flatten(boxParts) + moreBoxes
  {
    hide ArrangedAs;
    assert (parts + [more])[..n] == parts && (boxParts + [moreBoxes])[..n] == boxParts;
  }

  lemma NothingYet(agents: seq<Agent>, tasks: seq<Task>, room: Rooms, y: real)
    ensures Part(agents, room, [], y, y, [], [], map[], []) && SessionsStacked(agents, tasks, [], [y], [], [], [])
  {
    assert CardIds([]) == [];
  }

  /** One more session under those already there. */
  method BuildNext(agents: seq<Agent>, tasks: seq<Task>, room: Rooms, algo: Algo, target: real, order: seq<string>, n: nat,
                   cards: seq<Placed>, origins: Origins, boxes: seq<TaskBox>, y: real, ghost feet: seq<Rect>, ghost tops: seq<real>)
    returns (cards': seq<Placed>, origins': Origins, boxes': seq<TaskBox>, y': real, ghost feet': seq<Rect>,
             ghost own: seq<Placed>, ghost ownBoxes: seq<TaskBox>)
    requires DistinctIds(agents) && DistinctTasks(tasks) && Roomy(room) && Sound(algo, agents, tasks)
    requires n < |order| && forall i, j :: 0 <= i < j < |order| ==> order[i] != order[j]
    requires Part(agents, room, AllKeys(tasks, order[..n]), LAYOUT_MARGIN, y, cards, feet, origins, boxes)
    requires SessionsStacked(agents, tasks, order[..n], tops, cards, feet, boxes) && tops != [] && tops[|tops| - 1] == y
    ensures Part(agents, room, AllKeys(tasks, order[..n + 1]), LAYOUT_MARGIN, y', cards', feet', origins', boxes')
    ensures SessionsStacked(agents, tasks, order[..n + 1], tops + [y'], cards', feet', boxes')
    ensures cards' == cards + own && boxes' == boxes + ownBoxes
    ensures ArrangedAs(agents, tasks, order[n], room, own, ownBoxes, y, y', algo, target)
  {
    hide ArrangedAs, SessionsStacked, Reaches, LooseClear, BoxesFilled, Clear, BoxesApart, BoxesOnce, Framed, Of, IdsOf, BlockIds, Stands, InBand;
    var more, moreOrigins, moreBoxes, bottom, moreFeet := Arrange(order[n], y, agents, tasks, room, algo, target);
    assert order[..n + 1][..n] == order[..n];
    forall t | t in origins
      ensures t !in moreOrigins
    {
      SessionsShareNothing(tasks, order[..n + 1], In(t));
    }
    PartsJoin(agents, room, AllKeys(tasks, order[..n]), SessionKeys(tasks, order[n]), LAYOUT_MARGIN, y, bottom,
              cards, feet, origins, boxes, more, moreFeet, moreOrigins, moreBoxes);
    cards', feet', boxes', y' := cards + more, feet + moreFeet, boxes + moreBoxes, bottom;
    origins', own, ownBoxes := origins + moreOrigins, more, moreBoxes;
    OneFootEach(cards, feet, origins, room);
    OneFootEach(more, moreFeet, moreOrigins, room);
    TopsCount(agents, tasks, order[..n], tops, cards, feet, boxes);
    SessionsStackedMore(agents, tasks, order[..n], tops, cards, feet, boxes, order[n], bottom, more, moreFeet, moreBoxes);
    assert order[..n + 1] == order[..n] + [order[n]];
  }

  lemma TopsCount(agents: seq<Agent>, tasks: seq<Task>, order: seq<string>, tops: seq<real>, cards: seq<Placed>, feet: seq<Rect>, boxes: seq<TaskBox>)
    requires SessionsStacked(agents, tasks, order, tops, cards, feet, boxes)
    ensures |tops| == |order| + 1
  {
  }
}
