/** Containers pushed out of the way of one that arrives, each only as far as it must. */
module Push {
  import opened Constants
  import opened Geometry
  import opened Options
  import opened Parents
  import opened Sorting

  // ---- one push ----

  /** The two rectangles are closer than `gx` in x and closer than `gy` in y. */
  predicate Close(a: Rect, b: Rect, gx: real, gy: real) {
    !(|| a.x + a.w + gx <= b.x
      || b.x + b.w + gx <= a.x
      || a.y + a.h + gy <= b.y
      || b.y + b.h + gy <= a.y)
  }

  function Abs(a: real): real {
    if a < 0.0 then -a else a
  }

  /** How far `other` moves to clear `at`: along one axis, the way it already lies. */
  function Away(at: Rect, other: Rect, gx: real, gy: real): Point {
    var down := at.y + at.h + gy - other.y;
    var up := other.y + other.h + gy - at.y;
    var right := at.x + at.w + gx - other.x;
    var left := other.x + other.w + gx - at.x;
    var dy := if other.y + other.h / 2.0 >= at.y + at.h / 2.0 then down else -up;
    var dx := if other.x + other.w / 2.0 >= at.x + at.w / 2.0 then right else -left;
    if Abs(dy) <= Abs(dx) then Point(0.0, dy) else Point(dx, 0.0)
  }

  /** The push clears the two, touches one axis only, and no shorter move along either axis, or along
      both at once, would have cleared them. */
  lemma AwayIsLeast(at: Rect, other: Rect, gx: real, gy: real)
    requires Close(at, other, gx, gy)
    ensures var d := Away(at, other, gx, gy);
            && !Close(at, Shift(other, d), gx, gy)
            && (d.x == 0.0 || d.y == 0.0)
            && forall u, v :: !Close(at, Shift(other, Point(u, v)), gx, gy) ==>
                 Abs(u) >= Abs(d.x) + Abs(d.y) || Abs(v) >= Abs(d.x) + Abs(d.y)
  {
    var d := Away(at, other, gx, gy);
    forall u, v | !Close(at, Shift(other, Point(u, v)), gx, gy)
      ensures Abs(u) >= Abs(d.x) + Abs(d.y) || Abs(v) >= Abs(d.x) + Abs(d.y)
    {
      AwayIsNoLonger(at, other, gx, gy, u, v);
    }
  }

  lemma AwayIsNoLonger(at: Rect, other: Rect, gx: real, gy: real, u: real, v: real)
    requires Close(at, other, gx, gy) && !Close(at, Shift(other, Point(u, v)), gx, gy)
    ensures var d := Away(at, other, gx, gy);
            Abs(u) >= Abs(d.x) + Abs(d.y) || Abs(v) >= Abs(d.x) + Abs(d.y)
  {
  }

  /** The push goes the way `other` already lies, down and right when it lies level; and it goes sideways only
      where every clear way up or down is longer. */
  lemma AwayGoesItsWay(at: Rect, other: Rect, gx: real, gy: real)
    requires Close(at, other, gx, gy)
    ensures var d := Away(at, other, gx, gy);
            && (d.y != 0.0 ==> (d.y > 0.0 <==> other.y + other.h / 2.0 >= at.y + at.h / 2.0))
            && (d.x != 0.0 ==> (d.x > 0.0 <==> other.x + other.w / 2.0 >= at.x + at.w / 2.0))
            && (d.x != 0.0 ==> forall v :: !Close(at, Shift(other, Point(0.0, v)), gx, gy) ==> Abs(v) > Abs(d.x))
  {
    var d := Away(at, other, gx, gy);
    forall v | d.x != 0.0 && !Close(at, Shift(other, Point(0.0, v)), gx, gy)
      ensures Abs(v) > Abs(d.x)
    {
    }
  }

  // ---- one wave ----

  /** Two containers clash when they are not a task gap apart. */
  predicate Clash(a: Rect, b: Rect): (clash: bool)
    ensures clash <==> !Apart(a, b, TASK_GAP)
  {
    Close(a, b, TASK_GAP, TASK_GAP)
  }

  /** `now` is where `was` goes when `pusher` clears it out of its way. */
  ghost predicate PushedClear(pusher: Rect, was: Rect, now: Rect) {
    && !Apart(pusher, was, TASK_GAP)
    && now == Shift(was, Away(pusher, was, TASK_GAP, TASK_GAP))
    && Apart(pusher, now, TASK_GAP)
  }

  /** The arriving rectangle, or a container the wave has moved already. */
  ghost predicate IsPusher(p: Rect, rect: Rect, rects: seq<Rect>, moved: set<nat>) {
    p == rect || exists j :: j in moved && j < |rects| && rects[j] == p
  }

  ghost predicate HasPusher(rect: Rect, rects: seq<Rect>, moved: set<nat>, was: Rect, now: Rect) {
    exists p :: IsPusher(p, rect, rects, moved) && PushedClear(p, was, now)
  }

  /** `p` is clear of every container that may still be moved. */
  ghost predicate ClearOfFree(p: Rect, rects: seq<Rect>, free: set<nat>) {
    forall i :: i in free && i < |rects| ==> Apart(p, rects[i], TASK_GAP)
  }

  /** What a wave has done when it ends: it moved exactly `moved`, each of them once and clear of what
      pushed it, and whatever it may still move is clear of the arriving rectangle and of all that moved. */
  ghost predicate Rippled(rect: Rect, was: seq<Rect>, now: seq<Rect>, free: set<nat>, moved: set<nat>) {
    && |now| == |was| && (forall i :: i in moved ==> i < |now|)
    && (forall i :: 0 <= i < |now| && i !in moved ==> now[i] == was[i])
    && (forall i :: i in moved ==> HasPusher(rect, now, moved, was[i], now[i]))
    && ClearOfFree(rect, now, free)
    && (forall j :: j in moved ==> ClearOfFree(now[j], now, free))
    && (ClearOfFree(rect, was, free + moved) ==> moved == {})
  }

  // ---- a wave under way ----

  /** A wave half done: `queue` holds the pushers still to be looked at. */
  ghost predicate Rippling(rect: Rect, was: seq<Rect>, now: seq<Rect>, free: set<nat>, moved: set<nat>, queue: seq<Rect>) {
    && |now| == |was| && (forall i :: i in moved ==> i < |now| && i !in free)
    && (forall i :: 0 <= i < |now| && i !in moved ==> now[i] == was[i])
    && (forall i :: i in moved ==> HasPusher(rect, now, moved, was[i], now[i]))
    && (forall p :: p in queue ==> IsPusher(p, rect, now, moved))
    && (rect in queue || ClearOfFree(rect, now, free))
    && (forall j :: j in moved ==> now[j] in queue || ClearOfFree(now[j], now, free))
    && (ClearOfFree(rect, was, free + moved) ==> moved == {})
  }

  /** One more container out of the way of `p`. */
  lemma OneMoved(rect: Rect, was: seq<Rect>, now: seq<Rect>, free: set<nat>, moved: set<nat>, queue: seq<Rect>, p: Rect, i: nat)
    requires Rippling(rect, was, now, free, moved, [p] + queue) && i in free && i < |now| && !Apart(p, now[i], TASK_GAP)
    ensures var d := Away(p, now[i], TASK_GAP, TASK_GAP);
            var there := Shift(now[i], d);
            Rippling(rect, was, now[i := there], free - {i}, moved + {i}, [p] + (queue + [there]))
  {
    hide Apart, Away, Shift, HasPusher, IsPusher, ClearOfFree;
    var there := Shift(now[i], Away(p, now[i], TASK_GAP, TASK_GAP));
    var now', moved' := now[i := there], moved + {i};
    assert p in [p] + queue;
    PushersKept(rect, now, moved, i, there);
    NewlyMoved(rect, was[i], now, moved, p, i);
    forall j | j in moved
      ensures HasPusher(rect, now', moved', was[j], now'[j])
    {
      StillHas(rect, now, moved, was[j], j, i, there);
    }
    QueueKept(queue, p, there);
    ClearKept(now, free, i, there);
    assert free - {i} + moved' == free + moved;
    NotQuiet(rect, was, now, free, moved, p, i);
  }

  lemma NewlyMoved(rect: Rect, was: Rect, now: seq<Rect>, moved: set<nat>, p: Rect, i: nat)
    requires IsPusher(p, rect, now, moved) && i !in moved && i < |now| && now[i] == was && !Apart(p, was, TASK_GAP)
    ensures var there := Shift(was, Away(p, was, TASK_GAP, TASK_GAP));
            && HasPusher(rect, now[i := there], moved + {i}, was, there)
            && IsPusher(there, rect, now[i := there], moved + {i})
  {
    hide Apart, Away, Shift;
    var there := Shift(was, Away(p, was, TASK_GAP, TASK_GAP));
    MovedClear(p, was);
    PushersKept(rect, now, moved, i, there);
    assert now[i := there][i] == there && i in moved + {i};
  }

  lemma StillHas(rect: Rect, now: seq<Rect>, moved: set<nat>, was: Rect, j: nat, i: nat, there: Rect)
    requires i !in moved && i < |now| && j in moved && j < |now| && HasPusher(rect, now, moved, was, now[j])
    ensures HasPusher(rect, now[i := there], moved + {i}, was, now[i := there][j])
  {
    hide PushedClear, IsPusher;
    PushersKept(rect, now, moved, i, there);
  }

  /** Something moves only when something was in the way to begin with. */
  lemma NotQuiet(rect: Rect, was: seq<Rect>, now: seq<Rect>, free: set<nat>, moved: set<nat>, p: Rect, i: nat)
    requires |now| == |was| && i in free && i < |now| && i !in moved && now[i] == was[i]
    requires IsPusher(p, rect, now, moved) && !Apart(p, now[i], TASK_GAP)
    requires ClearOfFree(rect, was, free + moved) ==> moved == {}
    ensures !ClearOfFree(rect, was, free + moved)
  {
    hide Apart;
    if moved == {} {
      assert p == rect && i in free + moved;
    }
  }

  lemma MovedClear(p: Rect, was: Rect)
    requires !Apart(p, was, TASK_GAP)
    ensures PushedClear(p, was, Shift(was, Away(p, was, TASK_GAP, TASK_GAP)))
  {
    AwayIsLeast(p, was, TASK_GAP, TASK_GAP);
  }

  lemma PushersKept(rect: Rect, now: seq<Rect>, moved: set<nat>, i: nat, there: Rect)
    requires i !in moved && i < |now|
    ensures forall q :: IsPusher(q, rect, now, moved) ==> IsPusher(q, rect, now[i := there], moved + {i})
  {
    forall q | IsPusher(q, rect, now, moved) && q != rect
      ensures IsPusher(q, rect, now[i := there], moved + {i})
    {
      var j :| j in moved && j < |now| && now[j] == q;
      assert now[i := there][j] == q;
    }
  }

  lemma QueueKept(queue: seq<Rect>, p: Rect, there: Rect)
    ensures forall q :: q in [p] + (queue + [there]) <==> q in [p] + queue || q == there
  {
  }

  lemma ClearKept(now: seq<Rect>, free: set<nat>, i: nat, there: Rect)
    requires i < |now|
    ensures forall p :: ClearOfFree(p, now, free) ==> ClearOfFree(p, now[i := there], free - {i})
  {
    hide Apart;
  }

  lemma RippleStarts(rect: Rect, was: seq<Rect>, free: set<nat>)
    ensures Rippling(rect, was, was, free, {}, [rect])
  {
    assert rect in [rect];
  }

  lemma RippleEnds(rect: Rect, was: seq<Rect>, now: seq<Rect>, free: set<nat>, moved: set<nat>)
    requires Rippling(rect, was, now, free, moved, [])
    ensures Rippled(rect, was, now, free, moved)
  {
    hide ClearOfFree, HasPusher, IsPusher;
  }

  /** A pusher that every free container is clear of is done with. */
  lemma PusherDone(rect: Rect, was: seq<Rect>, now: seq<Rect>, free: set<nat>, moved: set<nat>, queue: seq<Rect>, p: Rect)
    requires Rippling(rect, was, now, free, moved, [p] + queue) && ClearOfFree(p, now, free)
    ensures Rippling(rect, was, now, free, moved, queue)
  {
    hide ClearOfFree, HasPusher, IsPusher;
    assert forall q :: q in [p] + queue <==> q == p || q in queue;
  }

  // ---- what a wave leaves, worked out ----

  /** Where the containers are, which of them are not to be moved again, and the pushers still to come. */
  datatype Ripple = Ripple(rects: seq<Rect>, skip: set<nat>, queue: seq<Rect>)

  /** `at` clears container `i`, when that may move and is in the way. */
  ghost function Nudged(at: Rect, r: Ripple, pinned: set<nat>, i: nat): (r': Ripple)
    requires i < |r.rects|
    ensures |r'.rects| == |r.rects| && r.skip <= r'.skip && (r'.skip == r.skip ==> r'.queue == r.queue)
    ensures forall j :: j in r'.skip && j !in r.skip ==> j == i && i !in pinned
  {
    if i in r.skip || i in pinned || Apart(at, r.rects[i], TASK_GAP) then r
    else
      var there := Shift(r.rects[i], Away(at, r.rects[i], TASK_GAP, TASK_GAP));
      Ripple(r.rects[i := there], r.skip + {i}, r.queue + [there])
  }

  /** `at` has cleared the first `n` containers, in record order. */
  ghost function PushedUpTo(at: Rect, r: Ripple, pinned: set<nat>, n: nat): (r': Ripple)
    requires n <= |r.rects|
    ensures |r'.rects| == |r.rects| && r.skip <= r'.skip && (r'.skip == r.skip ==> r'.queue == r.queue)
    ensures forall i :: i in r'.skip && i !in r.skip ==> i < n && i !in pinned
  {
    if n == 0 then r else Nudged(at, PushedUpTo(at, r, pinned, n - 1), pinned, n - 1)
  }

  /** What is left once every pusher has been looked at. */
  ghost function AfterWave(r: Ripple, pinned: set<nat>): (r': Ripple)
    ensures |r'.rects| == |r.rects|
    decreases Below(|r.rects|) - r.skip - pinned, |r.queue|
  {
    if r.queue == [] then r
    else
      var next := PushedUpTo(r.queue[0], r.(queue := r.queue[1..]), pinned, |r.rects|);
      assert next.skip == r.skip || exists i :: i in next.skip && i in Below(|r.rects|) - r.skip - pinned by {
        if next.skip != r.skip {
          SomethingNew(r.skip, next.skip);
        }
      }
      AfterWave(next, pinned)
  }

  lemma SomethingNew(skip: set<nat>, more: set<nat>)
    requires skip <= more && more != skip
    ensures exists i :: i in more && i !in skip
  {
  }

  lemma {:induction false} PushStarts(at: Rect, r: Ripple, pinned: set<nat>)
    ensures PushedUpTo(at, r, pinned, 0) == r
  {
  }

  lemma PushGoesOn(at: Rect, r: Ripple, pinned: set<nat>, n: nat)
    requires n < |r.rects|
    ensures PushedUpTo(at, r, pinned, n + 1) == Nudged(at, PushedUpTo(at, r, pinned, n), pinned, n)
  {
    hide Nudged;
  }

  lemma {:induction false} WaveGoesOn(r: Ripple, pinned: set<nat>)
    requires r.queue != []
    ensures AfterWave(r, pinned) == AfterWave(PushedUpTo(r.queue[0], r.(queue := r.queue[1..]), pinned, |r.rects|), pinned)
  {
    hide PushedUpTo;
  }

  lemma {:induction false} WaveIsOver(r: Ripple, pinned: set<nat>)
    requires r.queue == []
    ensures AfterWave(r, pinned) == r
  {
  }

  // ---- reading order ----

  function AtTop(rects: seq<Rect>, round: real -> real): nat -> real {
    (i: nat) => if i < |rects| then round(rects[i].y) else 0.0
  }

  function AtLeft(rects: seq<Rect>, round: real -> real): nat -> real {
    (i: nat) => if i < |rects| then round(rects[i].x) else 0.0
  }

  ghost predicate Places(order: seq<nat>, n: nat) {
    |order| == n && forall k :: 0 <= k < n ==> order[k] < n
  }

  /** The containers from top to bottom, and from left to right where they are level after rounding. */
  function ReadingOrder(rects: seq<Rect>, round: real -> real): (order: seq<nat>)
    ensures Places(order, |rects|)
  {
    var byLeft := SortBy(AtLeft(rects, round), Range(|rects|));
    var order := SortBy(AtTop(rects, round), byLeft);
    ReorderedPlaces(Range(|rects|), byLeft, order, |rects|);
    order
  }

  lemma ReorderedPlaces(a: seq<nat>, b: seq<nat>, c: seq<nat>, n: nat)
    requires Places(a, n) && |b| == n && |c| == n
    requires (forall i :: i in b <==> i in a) && (forall i :: i in c <==> i in b)
    ensures Places(c, n)
  {
    forall k | 0 <= k < n
      ensures c[k] < n
    {
      assert c[k] in c && c[k] in a;
    }
  }

  /** `i` is read before `j`: by rounded top, then by rounded left edge, then in record order. */
  predicate ReadFirst(rects: seq<Rect>, round: real -> real, i: nat, j: nat)
    requires i < |rects| && j < |rects|
  {
    var p, q := rects[i], rects[j];
    || round(p.y) < round(q.y)
    || (round(p.y) == round(q.y) && (round(p.x) < round(q.x) || (round(p.x) == round(q.x) && i < j)))
  }

  lemma ReadingOrderReads(rects: seq<Rect>, round: real -> real)
    ensures var order := ReadingOrder(rects, round);
            && Permutation(order, |rects|)
            && forall a, b :: 0 <= a < b < |order| ==> ReadFirst(rects, round, order[a], order[b])
  {
    hide AtLeft, AtTop, ReadFirst;
    var left, top := AtLeft(rects, round), AtTop(rects, round);
    var byLeft := SortBy(left, Range(|rects|));
    SortedRangeThen(left, |rects|);
    var order := SortBy(top, byLeft);
    assert order == ReadingOrder(rects, round);
    OrderIsPermutation(byLeft, order, |rects|);
    SortThen(top, LeftFirst(left), byLeft);
    forall a, b | 0 <= a < b < |order|
      ensures ReadFirst(rects, round, order[a], order[b])
    {
      BothKeysRead(rects, round, order[a], order[b]);
    }
  }

  function LeftFirst(left: nat -> real): (nat, nat) -> bool {
    (i: nat, j: nat) => left(i) < left(j) || (left(i) == left(j) && i < j)
  }

  lemma OrderIsPermutation(before: seq<nat>, order: seq<nat>, n: nat)
    requires Permutation(before, n) && multiset(order) == multiset(before) && |order| == |before| && forall i :: i in order <==> i in before
    ensures Permutation(order, n)
  {
    ReorderedDistinct(before, order);
  }

  lemma BothKeysRead(rects: seq<Rect>, round: real -> real, i: nat, j: nat)
    requires i < |rects| && j < |rects|
    requires var top, before := AtTop(rects, round), LeftFirst(AtLeft(rects, round));
             top(i) < top(j) || (top(i) == top(j) && before(i, j))
    ensures ReadFirst(rects, round, i, j)
  {
    KeysRead(rects, round, i);
    KeysRead(rects, round, j);
  }

  lemma KeysRead(rects: seq<Rect>, round: real -> real, i: nat)
    requires i < |rects|
    ensures AtTop(rects, round)(i) == round(rects[i].y) && AtLeft(rects, round)(i) == round(rects[i].x)
  {
  }

  ghost predicate NoClash(rects: seq<Rect>) {
    forall i, j :: 0 <= i < j < |rects| ==> Apart(rects[i], rects[j], TASK_GAP)
  }

  /** No container before place `n` of the order sits on one behind it. */
  ghost predicate NoClashBefore(rects: seq<Rect>, order: seq<nat>, n: nat)
    requires Places(order, |rects|)
  {
    forall a, b :: 0 <= a < n && a < b < |order| ==> Apart(rects[order[a]], rects[order[b]], TASK_GAP)
  }

  /** The container at place `a` sits on one behind it, and none before it does. */
  ghost predicate FirstClash(rects: seq<Rect>, order: seq<nat>, a: nat)
    requires Places(order, |rects|)
  {
    && NoClashBefore(rects, order, a)
    && exists b :: a < b < |order| && !Apart(rects[order[a]], rects[order[b]], TASK_GAP)
  }

  lemma NoClashAnywhere(rects: seq<Rect>, round: real -> real)
    requires NoClashBefore(rects, ReadingOrder(rects, round), |rects|)
    ensures NoClash(rects)
  {
    hide Apart, ReadingOrder, ReadFirst;
    var order := ReadingOrder(rects, round);
    ReadingOrderReads(rects, round);
    forall i, j | 0 <= i < j < |rects|
      ensures Apart(rects[i], rects[j], TASK_GAP)
    {
      assert i in order && j in order;
      var a: nat :| a < |order| && order[a] == i;
      var b: nat :| b < |order| && order[b] == j;
      ClearInOrder(rects, order, a, b);
    }
  }

  lemma ClearInOrder(rects: seq<Rect>, order: seq<nat>, a: nat, b: nat)
    requires Places(order, |rects|) && NoClashBefore(rects, order, |rects|) && a < |order| && b < |order| && a != b
    ensures Apart(rects[order[a]], rects[order[b]], TASK_GAP)
  {
    hide Apart;
    ClashBothWays(rects[order[a]], rects[order[b]]);
  }

  lemma ClashBothWays(a: Rect, b: Rect)
    ensures !Apart(a, b, TASK_GAP) == !Apart(b, a, TASK_GAP)
  {
  }

  lemma NoneBeforeFirst(rects: seq<Rect>, order: seq<nat>)
    requires Places(order, |rects|)
    ensures NoClashBefore(rects, order, 0)
  {
  }

  lemma OneMoreClear(rects: seq<Rect>, order: seq<nat>, a: nat)
    requires Places(order, |rects|) && a < |order| && NoClashBefore(rects, order, a)
    requires forall c :: a < c < |order| ==> Apart(rects[order[a]], rects[order[c]], TASK_GAP)
    ensures NoClashBefore(rects, order, a + 1)
  {
    hide Apart;
  }

  /** The earliest in reading order of the containers that clash with a later one; None exactly when no two clash. */
  method Clashing(rects: seq<Rect>, round: real -> real) returns (first: Option<nat>)
    ensures first.None? ==> NoClash(rects)
    ensures var order := ReadingOrder(rects, round);
            first.Some? ==> exists a :: 0 <= a < |order| && order[a] == first.value && FirstClash(rects, order, a)
  {
    hide Apart, ReadingOrder, NoClashBefore, NoClash;
    var order := ReadingOrder(rects, round);
    NoneBeforeFirst(rects, order);
    for a := 0 to |order|
      invariant NoClashBefore(rects, order, a)
    {
      for b := a + 1 to |order|
        invariant forall c :: a < c < b ==> Apart(rects[order[a]], rects[order[c]], TASK_GAP)
      {
        if Clash(rects[order[a]], rects[order[b]]) {
          return Some(order[a]);
        }
      }
      OneMoreClear(rects, order, a);
    }
    NoClashAnywhere(rects, round);
    first := None;
  }

  const PUSH_WAVES := 4

  /** The same containers, wherever they are now. */
  ghost predicate SameSizes(was: seq<Rect>, now: seq<Rect>) {
    |now| == |was| && forall i :: 0 <= i < |now| ==> now[i].w == was[i].w && now[i].h == was[i].h
  }

  lemma WaveKeeps(rect: Rect, was: seq<Rect>, now: seq<Rect>, free: set<nat>, moved: set<nat>, pinned: set<nat>)
    requires Rippled(rect, was, now, free, moved) && moved !! pinned
    ensures SameSizes(was, now) && forall i :: i in pinned && i < |now| ==> now[i] == was[i]
    ensures ClearOfFree(rect, was, free + moved) ==> now == was
  {
    hide Apart, Away;
    forall i | i in moved
      ensures now[i].w == was[i].w && now[i].h == was[i].h
    {
      var p :| IsPusher(p, rect, now, moved) && PushedClear(p, was[i], now[i]);
    }
  }

  lemma {:induction false} MovedAreContainers(rect: Rect, was: seq<Rect>, now: seq<Rect>, free: set<nat>, moved: set<nat>)
    requires Rippled(rect, was, now, free, moved)
    ensures |now| == |was| && moved <= Below(|now|)
  {
  }

  lemma Unsettled(rects: seq<Rect>, order: seq<nat>, a: nat)
    requires Permutation(order, |rects|) && Places(order, |rects|) && FirstClash(rects, order, a)
    ensures !NoClash(rects)
  {
    hide Apart;
    var b :| a < b < |order| && !Apart(rects[order[a]], rects[order[b]], TASK_GAP);
    ClashBothWays(rects[order[a]], rects[order[b]]);
  }

  // ---- waves after waves ----

  /** `now` is left by a wave from the earliest container, in reading order, that clashes with a later one. */
  ghost predicate WavedAgain(was: seq<Rect>, pinned: set<nat>, round: real -> real, now: seq<Rect>) {
    var order := ReadingOrder(was, round);
    exists a: nat :: a < |order| && FirstClash(was, order, a)
                     && now == AfterWave(Ripple(was, {order[a]}, [was[order[a]]]), pinned).rects
  }

  /** At most `n` more waves, until nothing clashes. */
  ghost predicate Waves(was: seq<Rect>, pinned: set<nat>, round: real -> real, now: seq<Rect>, settled: bool, n: nat)
    decreases n
  {
    if n == 0 then !settled && now == was
    else if NoClash(was) then settled && now == was
    else exists mid: seq<Rect> :: WavedAgain(was, pinned, round, mid) && Waves(mid, pinned, round, now, settled, n - 1)
  }

  /** All that Push does: the wave from the arriving rectangle, and up to four after it. */
  ghost predicate Pushed(was: seq<Rect>, rect: Rect, skip: set<nat>, pinned: set<nat>, round: real -> real, now: seq<Rect>, settled: bool) {
    Waves(AfterWave(Ripple(was, skip, [rect]), pinned).rects, pinned, round, now, settled, 4)
  }

  lemma {:induction false} WavesGoOn(was: seq<Rect>, pinned: set<nat>, round: real -> real, mid: seq<Rect>, settled: bool, n: nat)
    requires n > 0 && (settled <==> NoClash(was)) && (settled ==> mid == was) && (!settled ==> WavedAgain(was, pinned, round, mid))
    ensures settled ==> Waves(was, pinned, round, mid, true, n)
    ensures !settled ==> forall now, done :: Waves(mid, pinned, round, now, done, n - 1) ==> Waves(was, pinned, round, now, done, n)
  {
    hide NoClash, WavedAgain;
  }

  lemma {:induction false} WavesAreOver(rects: seq<Rect>, pinned: set<nat>, round: real -> real)
    ensures Waves(rects, pinned, round, rects, false, 0)
  {
  }

  lemma ClashComesLater(rects: seq<Rect>, order: seq<nat>, a: nat, n: nat)
    requires Places(order, |rects|) && a < |order| && FirstClash(rects, order, a) && NoClashBefore(rects, order, n)
    ensures n <= a
  {
    hide Apart;
    var c :| a < c < |order| && !Apart(rects[order[a]], rects[order[c]], TASK_GAP);
  }

  /** Which wave comes next is a matter of where the containers are. */
  lemma {:induction false} WavedAgainOnce(was: seq<Rect>, pinned: set<nat>, round: real -> real, now: seq<Rect>, a: nat)
    requires WavedAgain(was, pinned, round, now)
    requires a < |was| && FirstClash(was, ReadingOrder(was, round), a)
    ensures var first := ReadingOrder(was, round)[a];
            now == AfterWave(Ripple(was, {first}, [was[first]]), pinned).rects
  {
    hide FirstClash, AfterWave, ReadingOrder;
    var order := ReadingOrder(was, round);
    var b: nat :| b < |order| && FirstClash(was, order, b) && now == AfterWave(Ripple(was, {order[b]}, [was[order[b]]]), pinned).rects;
    OnlyFirst(was, order, a, b);
  }

  lemma OnlyFirst(rects: seq<Rect>, order: seq<nat>, a: nat, b: nat)
    requires Places(order, |rects|) && a < |order| && b < |order| && FirstClash(rects, order, a) && FirstClash(rects, order, b)
    ensures a == b
  {
    hide Apart, NoClashBefore;
    ClashComesLater(rects, order, a, b);
    ClashComesLater(rects, order, b, a);
  }

  // ---- what becomes of the arriving rectangle ----

  /** The first wave leaves whatever it may move clear of the arrival; when nothing clashes then, that is
      how it stays. */
  lemma {:induction false} SettledAtOnce(was: seq<Rect>, rect: Rect, skip: set<nat>, pinned: set<nat>, round: real -> real, now: seq<Rect>, settled: bool)
    requires Pushed(was, rect, skip, pinned, round, now, settled)
    requires NoClash(AfterWave(Ripple(was, skip, [rect]), pinned).rects)
    ensures settled && now == AfterWave(Ripple(was, skip, [rect]), pinned).rects
  {
    hide AfterWave, NoClash;
  }

  ghost predicate ClearOfOthers(now: seq<Rect>, i: nat)
    requires i < |now|
  {
    forall j :: 0 <= j < |now| && j != i ==> Apart(now[i], now[j], TASK_GAP)
  }

  /** A container that was pushed for, and stands where it stood, is clear of every other once nothing clashes. */
  lemma OthersAreClear(now: seq<Rect>)
    requires NoClash(now)
    ensures forall i :: 0 <= i < |now| ==> ClearOfOthers(now, i)
  {
    hide Apart;
    forall i, j | 0 <= i < |now| && 0 <= j < |now| && i != j
      ensures Apart(now[i], now[j], TASK_GAP)
    {
      ClashBothWays(now[i], now[j]);
    }
  }

  const HIGH := Rect(394.0, 130.0, 604.0, 210.0)
  const LEFT := Rect(98.0, 448.0, 308.0, 210.0)
  const LOW := Rect(468.0, 607.0, 604.0, 210.0)
  const ARRIVAL := Rect(24.0, 554.0, 816.0, 390.0)

  const HIGH_ASIDE := Rect(462.0, 130.0, 604.0, 210.0)
  const LEFT_UP := Rect(98.0, 288.0, 308.0, 210.0)
  const LOW_UP := Rect(468.0, 288.0, 604.0, 210.0)
  const LOW_BACK := Rect(468.0, 396.0, 604.0, 210.0)

  lemma {:induction false} ThreeNudges(at: Rect, r: Ripple, pinned: set<nat>)
    requires |r.rects| == 3
    ensures PushedUpTo(at, r, pinned, 3) == Nudged(at, Nudged(at, Nudged(at, r, pinned, 0), pinned, 1), pinned, 2)
  {
    hide Nudged;
    PushStarts(at, r, pinned);
    PushGoesOn(at, r, pinned, 0);
    PushGoesOn(at, r, pinned, 1);
    PushGoesOn(at, r, pinned, 2);
  }

  /** The two lower containers are pushed up, clear of the arrival. */
  lemma ArrivalPushesTwo()
    ensures PushedUpTo(ARRIVAL, Ripple([HIGH, LEFT, LOW], {}, []), {}, 3)
      == Ripple([HIGH, LEFT_UP, LOW_UP], {1, 2}, [LEFT_UP, LOW_UP])
  {
    var r := Ripple([HIGH, LEFT, LOW], {}, []);
    ThreeNudges(ARRIVAL, r, {});
    assert Nudged(ARRIVAL, r, {}, 0) == r;
    assert Nudged(ARRIVAL, r, {}, 1) == Ripple([HIGH, LEFT_UP, LOW], {1}, [LEFT_UP]);
  }

  /** The first of them pushes the upper one aside. */
  lemma LeftPushesHigh()
    ensures PushedUpTo(LEFT_UP, Ripple([HIGH, LEFT_UP, LOW_UP], {1, 2}, [LOW_UP]), {}, 3)
      == Ripple([HIGH_ASIDE, LEFT_UP, LOW_UP], {0, 1, 2}, [LOW_UP, HIGH_ASIDE])
  {
    var r := Ripple([HIGH, LEFT_UP, LOW_UP], {1, 2}, [LOW_UP]);
    ThreeNudges(LEFT_UP, r, {});
    assert Nudged(LEFT_UP, r, {}, 0) == Ripple([HIGH_ASIDE, LEFT_UP, LOW_UP], {0, 1, 2}, [LOW_UP, HIGH_ASIDE]);
  }

  lemma {:induction false} NoneToMove(at: Rect, r: Ripple, pinned: set<nat>, n: nat)
    requires n <= |r.rects| && forall i :: 0 <= i < |r.rects| ==> i in r.skip || Apart(at, r.rects[i], TASK_GAP)
    ensures PushedUpTo(at, r, pinned, n) == r
  {
    if n > 0 {
      NoneToMove(at, r, pinned, n - 1);
    }
  }

  lemma FirstWaveIs()
    ensures AfterWave(Ripple([HIGH, LEFT, LOW], {}, [ARRIVAL]), {}).rects == [HIGH_ASIDE, LEFT_UP, LOW_UP]
  {
    hide PushedUpTo, AfterWave, Apart;
    var r0 := Ripple([HIGH, LEFT, LOW], {}, [ARRIVAL]);
    WaveGoesOn(r0, {});
    assert r0.queue[1..] == [];
    ArrivalPushesTwo();
    var r1 := Ripple([HIGH, LEFT_UP, LOW_UP], {1, 2}, [LEFT_UP, LOW_UP]);
    WaveGoesOn(r1, {});
    assert r1.queue[1..] == [LOW_UP];
    LeftPushesHigh();
    var r2 := Ripple([HIGH_ASIDE, LEFT_UP, LOW_UP], {0, 1, 2}, [LOW_UP, HIGH_ASIDE]);
    WaveGoesOn(r2, {});
    assert r2.queue[1..] == [HIGH_ASIDE] && [HIGH_ASIDE][1..] == [];
    NoneToMove(LOW_UP, r2.(queue := [HIGH_ASIDE]), {}, 3);
    WaveGoesOn(r2.(queue := [HIGH_ASIDE]), {});
    NoneToMove(HIGH_ASIDE, r2.(queue := []), {}, 3);
    WaveIsOver(r2.(queue := []), {});
  }

  /** The upper one then pushes the right one back down, on top of the arrival. */
  lemma SecondWaveIs()
    ensures AfterWave(Ripple([HIGH_ASIDE, LEFT_UP, LOW_UP], {0}, [HIGH_ASIDE]), {}).rects == [HIGH_ASIDE, LEFT_UP, LOW_BACK]
  {
    hide PushedUpTo, AfterWave;
    var r0 := Ripple([HIGH_ASIDE, LEFT_UP, LOW_UP], {0}, [HIGH_ASIDE]);
    WaveGoesOn(r0, {});
    assert r0.queue[1..] == [];
    ThreeNudges(HIGH_ASIDE, r0.(queue := []), {});
    assert Nudged(HIGH_ASIDE, r0.(queue := []), {}, 0) == r0.(queue := []);
    assert Nudged(HIGH_ASIDE, r0.(queue := []), {}, 1) == r0.(queue := []);
    var r1 := Ripple([HIGH_ASIDE, LEFT_UP, LOW_BACK], {0, 2}, [LOW_BACK]);
    assert Nudged(HIGH_ASIDE, r0.(queue := []), {}, 2) == r1;
    WaveGoesOn(r1, {});
    assert r1.queue[1..] == [];
    NoneToMove(LOW_BACK, r1.(queue := []), {}, 3);
    WaveIsOver(r1.(queue := []), {});
  }

  /** After the first wave the upper container is read first, and the right one still clashes with it. */
  lemma HighIsFirst(round: real -> real)
    requires round(130.0) < round(288.0)
    ensures var rects := [HIGH_ASIDE, LEFT_UP, LOW_UP];
            var order := ReadingOrder(rects, round);
            order[0] == 0 && FirstClash(rects, order, 0)
  {
    hide ReadingOrder, Apart;
    var rects := [HIGH_ASIDE, LEFT_UP, LOW_UP];
    var order := ReadingOrder(rects, round);
    HighestIsFirst(rects, round, 0);
    ReadingOrderReads(rects, round);
    assert 2 in order;
    var b :| 0 <= b < |order| && order[b] == 2;
    HighSitsOnLow();
  }

  /** A container above all others is read first. */
  lemma HighestIsFirst(rects: seq<Rect>, round: real -> real, i: nat)
    requires i < |rects| && forall j :: 0 <= j < |rects| && j != i ==> round(rects[i].y) < round(rects[j].y)
    ensures ReadingOrder(rects, round)[0] == i
  {
    hide ReadingOrder;
    var order := ReadingOrder(rects, round);
    ReadingOrderReads(rects, round);
    assert i in order;
    var a :| 0 <= a < |order| && order[a] == i;
    forall c | 0 < c < |order|
      ensures order[c] != i
    {
      assert order[0] != order[c];
      assert ReadFirst(rects, round, order[0], order[c]);
    }
  }

  lemma HighSitsOnLow()
    ensures !Apart(HIGH_ASIDE, LOW_UP, TASK_GAP)
  {
  }

  lemma AllClearAtTheEnd()
    ensures NoClash([HIGH_ASIDE, LEFT_UP, LOW_BACK]) && !Apart(ARRIVAL, LOW_BACK, TASK_GAP)
  {
  }

  /** Nothing clashes at the end, and yet a container that was pushed clear of the arrival is back on top of it. */
  lemma ArrivalIsCovered(round: real -> real, now: seq<Rect>, settled: bool)
    requires round(130.0) < round(288.0)
    requires Pushed([HIGH, LEFT, LOW], ARRIVAL, {}, {}, round, now, settled)
    ensures settled && now == [HIGH_ASIDE, LEFT_UP, LOW_BACK] && !Apart(ARRIVAL, now[2], TASK_GAP)
  {
    hide AfterWave, Apart, FirstClash, ReadingOrder;
    FirstWaveIs();
    SecondWaveIs();
    HighSitsOnLow();
    AllClearAtTheEnd();
    HighIsFirst(round);
    var rects := [HIGH_ASIDE, LEFT_UP, LOW_UP];
    assert !Apart(rects[0], rects[2], TASK_GAP);
    assert !NoClash(rects);
    var mid: seq<Rect> :| WavedAgain([HIGH_ASIDE, LEFT_UP, LOW_UP], {}, round, mid) && Waves(mid, {}, round, now, settled, PUSH_WAVES - 1);
    WavedAgainOnce([HIGH_ASIDE, LEFT_UP, LOW_UP], {}, round, mid, 0);
  }

  class Canvas {
    /** The containers of one session that are drawn, in record order. */
    var rects: seq<Rect>
    /** Those a human placed. */
    const pinned: set<nat>

    constructor (rects: seq<Rect>, pinned: set<nat>)
      ensures this.rects == rects && this.pinned == pinned
    {
      this.rects := rects;
      this.pinned := pinned;
    }

    /** The containers a wave may still move. */
    ghost function Free(skip: set<nat>): set<nat>
      reads this`rects
    {
      Below(|rects|) - skip - pinned
    }

    /** Pushes from `rect` on, container by container. `skip` grows by exactly what is moved. */
    method Wave(rect: Rect, skip: set<nat>) returns (skip': set<nat>)
      modifies this`rects
      ensures skip <= skip' && Rippled(rect, old(rects), rects, Free(skip'), skip' - skip)
      ensures (skip' - skip) !! pinned
      ensures Ripple(rects, skip', []) == AfterWave(Ripple(old(rects), skip, [rect]), pinned)
    {
      hide Rippling, Rippled, PushedUpTo, AfterWave;
      skip' := skip;
      var queue := [rect];
      RippleStarts(rect, rects, Free(skip));
      assert skip' - skip == {};
      while queue != []
        invariant skip <= skip' && (skip' - skip) !! pinned
        invariant Rippling(rect, old(rects), rects, Free(skip'), skip' - skip, queue)
        invariant AfterWave(Ripple(rects, skip', queue), pinned) == AfterWave(Ripple(old(rects), skip, [rect]), pinned)
        decreases Free(skip'), |queue|
      {
        var at := queue[0];
        assert queue == [at] + queue[1..];
        WaveGoesOn(Ripple(rects, skip', queue), pinned);
        queue := queue[1..];
        skip', queue := PushFrom(at, rect, skip', queue, skip, old(rects));
      }
      RippleEnds(rect, old(rects), rects, Free(skip'), skip' - skip);
      WaveIsOver(Ripple(rects, skip', []), pinned);
    }

    /** Clears every free container of `at`, in record order. */
    method PushFrom(at: Rect, ghost rect: Rect, skip: set<nat>, queue: seq<Rect>, ghost first: set<nat>, ghost was: seq<Rect>)
      returns (skip': set<nat>, queue': seq<Rect>)
      requires first <= skip && (skip - first) !! pinned
      requires Rippling(rect, was, rects, Free(skip), skip - first, [at] + queue)
      modifies this`rects
      ensures skip <= skip' && (skip' - first) !! pinned
      ensures Rippling(rect, was, rects, Free(skip'), skip' - first, queue')
      ensures Free(skip') <= old(Free(skip)) && (Free(skip') == old(Free(skip)) ==> queue' == queue)
      ensures Ripple(rects, skip', queue') == PushedUpTo(at, Ripple(old(rects), skip, queue), pinned, |old(rects)|)
    {
      hide Rippling, Apart, Away, Shift, PushedUpTo, Below;
      PushStarts(at, Ripple(rects, skip, queue), pinned);
      skip', queue' := skip, queue;
      for i := 0 to |rects|
        invariant |rects| == |old(rects)| && skip <= skip' && (skip' - first) !! pinned
        invariant Rippling(rect, was, rects, Free(skip'), skip' - first, [at] + queue')
        invariant forall k :: 0 <= k < i && k in Free(skip') ==> Apart(at, rects[k], TASK_GAP)
        invariant Free(skip') <= old(Free(skip)) && (Free(skip') == old(Free(skip)) ==> queue' == queue)
        invariant Ripple(rects, skip', queue') == PushedUpTo(at, Ripple(old(rects), skip, queue), pinned, i)
      {
        PushGoesOn(at, Ripple(old(rects), skip, queue), pinned, i);
        if i in skip' || i in pinned || !Clash(at, rects[i]) {
          continue;
        }
        var d := Away(at, rects[i], TASK_GAP, TASK_GAP);
        OneMoved(rect, was, rects, Free(skip'), skip' - first, queue', at, i);
        ghost var free := Free(skip');
        skip' := skip' + {i};
        rects := rects[i := Shift(rects[i], d)];
        queue' := queue' + [rects[i]];
        assert Free(skip') == free - {i};
        assert skip' - first == (skip' - {i} - first) + {i};
      }
      PusherDone(rect, was, rects, Free(skip'), skip' - first, queue', at);
    }

    /** One such wave, unless no two containers clash. */
    method WaveAgain(round: real -> real) returns (settled: bool)
      modifies this`rects
      ensures SameSizes(old(rects), rects) && forall i :: i in pinned && i < |rects| ==> rects[i] == old(rects)[i]
      ensures settled <==> NoClash(old(rects))
      ensures settled ==> rects == old(rects)
      ensures !settled ==> WavedAgain(old(rects), pinned, round, rects)
    {
      hide NoClash, Apart, FirstClash, Rippled, AfterWave;
      var clash := Clashing(rects, round);
      if clash.None? {
        return true;
      }
      ghost var before, order := rects, ReadingOrder(rects, round);
      ReadingOrderReads(rects, round);
      ghost var a :| 0 <= a < |order| && order[a] == clash.value && FirstClash(rects, order, a);
      Unsettled(rects, order, a);
      var moved := Wave(rects[clash.value], {clash.value});
      WaveKeeps(before[clash.value], before, rects, Free(moved), moved - {clash.value}, pinned);
      settled := false;
    }

    /** Pushes what `rect` overlaps, and then what is still on top of something, a bounded number of
        times. Stopping early means that nothing clashes any more; what a human placed never moves; and
        nothing at all moves when nothing was in the way. */
    method Push(rect: Rect, skip: set<nat>, round: real -> real) returns (settled: bool)
      modifies this`rects
      ensures SameSizes(old(rects), rects) && forall i :: i in pinned && i < |rects| ==> rects[i] == old(rects)[i]
      ensures Pushed(old(rects), rect, skip, pinned, round, rects, settled)
      ensures settled ==> NoClash(rects)
      ensures settled ==> forall i :: 0 <= i < |rects| && rects[i] == rect ==> ClearOfOthers(rects, i)
      ensures NoClash(old(rects)) && ClearOfFree(rect, old(rects), Below(|old(rects)|) - skip - pinned) ==>
        settled && rects == old(rects)
    {
      hide NoClash, Apart, Rippled, ClearOfFree, AfterWave, Waves, WavedAgain, ClearOfOthers;
      ghost var quiet := NoClash(rects) && ClearOfFree(rect, rects, Below(|rects|) - skip - pinned);
      var skip' := Wave(rect, skip);
      WaveKeeps(rect, old(rects), rects, Free(skip'), skip' - skip, pinned);
      assert Free(skip') + (skip' - skip) == Below(|rects|) - skip - pinned by {
        MovedAreContainers(rect, old(rects), rects, Free(skip'), skip' - skip);
      }
      ghost var first := rects;
      for wave := 0 to PUSH_WAVES
        invariant forall now, done :: Waves(rects, pinned, round, now, done, PUSH_WAVES - wave) ==> Waves(first, pinned, round, now, done, PUSH_WAVES)
        invariant SameSizes(old(rects), rects) && forall i :: i in pinned && i < |rects| ==> rects[i] == old(rects)[i]
        invariant quiet ==> wave == 0 && rects == old(rects)
      {
        ghost var before := rects;
        settled := WaveAgain(round);
        WavesGoOn(before, pinned, round, rects, settled, PUSH_WAVES - wave);
        if settled {
          OthersAreClear(rects);
          return;
        }
      }
      settled := false;
      WavesAreOver(rects, pinned, round);
    }
  }
}
