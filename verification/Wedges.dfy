/** The cards of one container as a family: who hangs under whom, and the wedge of a sector each one gets. */
module Wedges {
  import opened Options
  import opened Parents
  import Tree

  // ---- the family ----

  /** The ways up from the cards met so far all go through `up`; where there is none, they have ended. */
  ghost predicate Behind(parent: Relation, seen: set<nat>, up: Option<nat>)
    requires InRange(parent) && (up.Some? ==> up.value < |parent|)
  {
    forall k :: k in seen ==> k < |parent| && GoesThrough(parent, k, up)
  }

  /** The way up from `k` goes through `up`, some steps on; or it ends. */
  ghost predicate GoesThrough(parent: Relation, k: nat, up: Option<nat>)
    requires InRange(parent) && k < |parent| && (up.Some? ==> up.value < |parent|)
  {
    match up
    case None => Grounded(parent, k)
    case Some(u) => (Grounded(parent, u) ==> Grounded(parent, k)) && forall d: nat :: Reaches(parent, k, d) ==> Before(parent, u, d)
  }

  ghost predicate Before(parent: Relation, u: nat, d: nat)
    requires InRange(parent) && u < |parent|
  {
    exists e: nat :: e < d && Reaches(parent, u, e)
  }

  /** Whether the way up from `ident` ends: it does not when it comes to a card it has met. */
  method HasRoot(parent: Relation, ident: nat) returns (ends: bool)
    requires InRange(parent) && ident < |parent|
    ensures ends <==> Grounded(parent, ident)
  {
    var seen := {ident};
    var up: Option<nat> := parent[ident];
    FirstBehind(parent, ident);
    while up.Some? && up.value !in seen
      invariant up.Some? ==> up.value < |parent|
      invariant ident in seen && seen <= Below(|parent|) && Behind(parent, seen, up)
      decreases Below(|parent|) - seen
    {
      NextBehind(parent, seen, up.value);
      seen := seen + {up.value};
      up := parent[up.value];
    }
    ends := up.None?;
    if up.Some? {
      MetAgain(parent, seen, up.value, ident);
    }
  }

  lemma FirstBehind(parent: Relation, ident: nat)
    requires InRange(parent) && ident < |parent|
    ensures Behind(parent, {ident}, parent[ident])
  {
    UpIsBefore(parent, ident);
  }

  lemma UpIsBefore(parent: Relation, k: nat)
    requires InRange(parent) && k < |parent|
    ensures GoesThrough(parent, k, parent[k])
  {
    if parent[k].None? {
      assert Reaches(parent, k, 0);
    } else {
      var u := parent[k].value;
      if Grounded(parent, u) {
        var e: nat :| Reaches(parent, u, e);
        assert Reaches(parent, k, e + 1);
      }
      forall d: nat | Reaches(parent, k, d)
        ensures Before(parent, u, d)
      {
        assert d - 1 < d && Reaches(parent, u, d - 1);
      }
    }
  }

  lemma NextBehind(parent: Relation, seen: set<nat>, u: nat)
    requires InRange(parent) && u < |parent| && Behind(parent, seen, Some(u))
    ensures Behind(parent, seen + {u}, parent[u])
  {
    UpIsBefore(parent, u);
    if parent[u].Some? {
      var v := parent[u].value;
      forall k, d: nat | k in seen && Reaches(parent, k, d)
        ensures Before(parent, v, d)
      {
        var e: nat :| e < d && Reaches(parent, u, e);
        assert Before(parent, v, e);
      }
    }
  }

  lemma MetAgain(parent: Relation, seen: set<nat>, u: nat, ident: nat)
    requires InRange(parent) && u < |parent| && Behind(parent, seen, Some(u)) && u in seen && ident in seen && ident < |parent|
    ensures !Grounded(parent, ident)
  {
    if Grounded(parent, ident) {
      var d: nat :| Reaches(parent, ident, d);
      assert Before(parent, u, d);
      var e: nat :| Reaches(parent, u, e);
      assert Before(parent, u, e);
      var f: nat :| f < e && Reaches(parent, u, f);
      ReachesOnce(parent, u, e, f);
    }
  }

  /** Every card once: among the roots, or under the one parent it keeps. */
  ghost predicate Kin(parent: Relation, kids: seq<seq<nat>>, roots: seq<nat>) {
    && Forest(parent)
    && Tree.AllListed(kids, parent, |parent|)
    && Tree.Lists(roots, parent, None, |parent|)
  }

  /** Each card is listed once, among the roots or under one parent; the cards from which no root is reached
      have been made roots, one after the other, and no card that had a root of its own is cut loose. */
  method Family(parents: Relation) returns (roots: seq<nat>, kids: seq<seq<nat>>, parent: Relation)
    requires InRange(parents)
    ensures |parent| == |parents| && Kin(parent, kids, roots)
    ensures forall i :: 0 <= i < |parent| ==> parent[i] == Uncut(parents, i)
  {
    hide Grounded, Uncut, Tree.Lists;
    parent := parents;
    kids := seq(|parents|, _ => []);
    roots := [];
    NothingListed(parents);
    for ident := 0 to |parents|
      invariant CutUpTo(parents, parent, ident)
      invariant Tree.AllListed(kids, parent, ident) && Tree.Lists(roots, parent, None, ident)
    {
      ghost var was := parent;
      parent := CutIfLooped(parent, parents, ident);
      ListedStill(was, parent, kids, roots, ident);
      ghost var before := kids;
      Tree.ListsNext(roots, parent, None, ident);
      if parent[ident].Some? {
        var up := parent[ident].value;
        kids := kids[up := kids[up] + [ident]];
      } else {
        roots := roots + [ident];
      }
      Tree.AllListedNext(before, kids, parent, ident);
    }
    AllCut(parents, parent);
  }

  lemma NothingListed(parent: Relation)
    ensures Tree.AllListed(seq(|parent|, _ => []), parent, 0) && Tree.Lists([], parent, None, 0)
  {
  }

  method CutIfLooped(parent: Relation, ghost parents: Relation, ident: nat) returns (cut: Relation)
    requires InRange(parents) && ident < |parents| && CutUpTo(parents, parent, ident)
    ensures CutUpTo(parents, cut, ident + 1) && (cut == parent || cut == parent[ident := None])
  {
    hide Grounded, Uncut;
    CutNext(parents, parent, ident);
    var ends := HasRoot(parent, ident);
    cut := if ends then parent else parent[ident := None];
  }

  lemma ListedStill(was: Relation, now: Relation, kids: seq<seq<nat>>, roots: seq<nat>, n: nat)
    requires n < |was| == |now| && forall i :: 0 <= i < n ==> now[i] == was[i]
    requires Tree.AllListed(kids, was, n) && Tree.Lists(roots, was, None, n)
    ensures Tree.AllListed(kids, now, n) && Tree.Lists(roots, now, None, n)
  {
    forall p | 0 <= p < |now|
      ensures Tree.Lists(kids[p], now, Some(p), n)
    {
      assert Tree.Lists(kids[p], was, Some(p), n);
    }
  }

  // ---- leaves ----

  /** How many steps below its root a card hangs. */
  ghost function Depth(parent: Relation, i: nat): (d: nat)
    requires Forest(parent) && i < |parent|
    ensures Reaches(parent, i, d) && d < |parent|
  {
    assert Grounded(parent, i);
    var d: nat :| Reaches(parent, i, d);
    ReachesShort(parent, i, d);
    d
  }

  lemma DepthBelow(parent: Relation, i: nat)
    requires Forest(parent) && i < |parent|
    ensures parent[i].None? ==> Depth(parent, i) == 0
    ensures parent[i].Some? ==> Depth(parent, i) == Depth(parent, parent[i].value) + 1
  {
    if parent[i].Some? {
      ReachesOnce(parent, parent[i].value, Depth(parent, i) - 1, Depth(parent, parent[i].value));
    }
  }

  /** `list` holds children of `p`, or roots. */
  ghost predicate Brood(parent: Relation, list: seq<nat>, p: Option<nat>) {
    forall c :: c in list ==> c < |parent| && parent[c] == p
  }

  ghost function DepthUnder(parent: Relation, p: Option<nat>): nat
    requires Forest(parent) && (p.Some? ==> p.value < |parent|)
  {
    if p.None? then 0 else Depth(parent, p.value) + 1
  }

  /** The number of cards under `node` that have none under them, or one when it has none itself. */
  function Leaves(ghost parent: Relation, kids: seq<seq<nat>>, ghost roots: seq<nat>, node: nat): (n: nat)
    requires Kin(parent, kids, roots) && node < |parent|
    ensures n >= 1
    decreases |parent| - Depth(parent, node), 0
  {
    if kids[node] == [] then 1
    else
      KidsAreBrood(parent, kids, roots, node);
      Weight(parent, kids, roots, kids[node], Some(node))
  }

  function Weight(ghost parent: Relation, kids: seq<seq<nat>>, ghost roots: seq<nat>, list: seq<nat>, ghost p: Option<nat>): (n: nat)
    requires Kin(parent, kids, roots) && (p.Some? ==> p.value < |parent|) && Brood(parent, list, p)
    ensures n >= |list|
    decreases |parent| - DepthUnder(parent, p), 1 + |list|
  {
    if list == [] then 0
    else
      LastOfBrood(parent, list, p);
      DepthBelow(parent, list[|list| - 1]);
      Weight(parent, kids, roots, list[..|list| - 1], p) + Leaves(parent, kids, roots, list[|list| - 1])
  }

  lemma LastOfBrood(parent: Relation, list: seq<nat>, p: Option<nat>)
    requires Brood(parent, list, p) && list != []
    ensures Brood(parent, list[..|list| - 1], p)
    ensures list[|list| - 1] < |parent| && parent[list[|list| - 1]] == p
  {
    assert list[|list| - 1] in list;
  }

  lemma KidsAreBrood(parent: Relation, kids: seq<seq<nat>>, roots: seq<nat>, node: nat)
    requires Kin(parent, kids, roots) && node < |parent|
    ensures Brood(parent, kids[node], Some(node)) && Brood(parent, roots, None)
  {
    assert Tree.Lists(kids[node], parent, Some(node), |parent|);
  }

  // ---- wedges ----

  /** `n` parts of `share` of a width. */
  function Part(width: real, n: int, share: int): real
    requires share != 0
  {
    width * n as real / share as real
  }

  /** Where the wedge of the `k`-th of a row starts when the row shares out `width` from `from` by leaves. */
  function StartOf(ghost parent: Relation, kids: seq<seq<nat>>, ghost roots: seq<nat>, list: seq<nat>, ghost p: Option<nat>,
                   k: nat, from: real, width: real, share: int): real
    requires Kin(parent, kids, roots) && (p.Some? ==> p.value < |parent|) && Brood(parent, list, p) && k <= |list| && share != 0
    decreases k
  {
    if k == 0 then from
    else
      assert list[k - 1] in list;
      StartOf(parent, kids, roots, list, p, k - 1, from, width, share)
      + Part(width, Leaves(parent, kids, roots, list[k - 1]), share)
  }

  function IndexOf(list: seq<nat>, x: nat): (k: nat)
    requires x in list
    ensures k < |list| && list[k] == x
  {
    if list[0] == x then 0 else IndexOf(list[1..], x) + 1
  }

  datatype Sector = Sector(lo: real, hi: real)

  /** The leaves of all roots together. */
  function Total(ghost parent: Relation, kids: seq<seq<nat>>, roots: seq<nat>): (n: nat)
    requires Kin(parent, kids, roots)
    ensures n >= 1
  {
    RootsAreBrood(parent, kids, roots);
    var n := Weight(parent, kids, roots, roots, None);
    if n == 0 then 1 else n
  }

  lemma RootsAreBrood(parent: Relation, kids: seq<seq<nat>>, roots: seq<nat>)
    requires Kin(parent, kids, roots)
    ensures Brood(parent, roots, None)
  {
  }

  /** The row a card stands in: its parent's children, or the roots. */
  ghost function RowOf(parent: Relation, kids: seq<seq<nat>>, roots: seq<nat>, i: nat): (row: seq<nat>)
    requires Kin(parent, kids, roots) && i < |parent|
    ensures i in row && Brood(parent, row, parent[i])
  {
    if parent[i].None? then roots
    else
      KidsAreBrood(parent, kids, roots, parent[i].value);
      assert Tree.Lists(kids[parent[i].value], parent, Some(parent[i].value), |parent|);
      kids[parent[i].value]
  }

  /** What a row's wedges are shared out of, and by how much. */
  ghost function ShareOf(parent: Relation, kids: seq<seq<nat>>, roots: seq<nat>, i: nat): (n: nat)
    requires Kin(parent, kids, roots) && i < |parent|
    ensures n >= 1
  {
    if parent[i].None? then Total(parent, kids, roots)
    else Weight(parent, kids, roots, RowOf(parent, kids, roots, i), parent[i])
  }

  /** A card's wedge: its part of its parent's, or of the whole sector, after those before it in its row. */
  ghost function Wedge(parent: Relation, kids: seq<seq<nat>>, roots: seq<nat>, whole: Sector, i: nat): Sector
    requires Kin(parent, kids, roots) && i < |parent|
    decreases Depth(parent, i)
  {
    DepthBelow(parent, i);
    var over := if parent[i].None? then whole else Wedge(parent, kids, roots, whole, parent[i].value);
    var row, share := RowOf(parent, kids, roots, i), ShareOf(parent, kids, roots, i);
    var k := IndexOf(row, i);
    var lo := StartOf(parent, kids, roots, row, parent[i], k, over.lo, over.hi - over.lo, share);
    Sector(lo, lo + Part(over.hi - over.lo, Leaves(parent, kids, roots, i), share))
  }

  /** The angle a card is drawn at, and how deep it hangs. */
  datatype Spoke = Spoke(angle: real, depth: nat)

  ghost function SpokeOf(parent: Relation, kids: seq<seq<nat>>, roots: seq<nat>, whole: Sector, i: nat): Spoke
    requires Kin(parent, kids, roots) && i < |parent|
  {
    var w := Wedge(parent, kids, roots, whole, i);
    Spoke((w.lo + w.hi) / 2.0, Depth(parent, i))
  }

  // ---- what the wedges are like ----

  lemma QuotientsAdd(x: real, y: real, t: real)
    requires t != 0.0
    ensures x / t + y / t == (x + y) / t
  {
  }

  lemma QuotientUndone(x: real, t: real)
    requires t != 0.0
    ensures x * t / t == x
  {
  }

  lemma PartsAdd(width: real, a: int, b: int, share: int)
    requires share != 0
    ensures Part(width, a, share) + Part(width, b, share) == Part(width, a + b, share)
    ensures Part(width, 0, share) == 0.0 && Part(width, share, share) == width
  {
    QuotientsAdd(width * a as real, width * b as real, share as real);
    QuotientUndone(width, share as real);
    assert width * a as real + width * b as real == width * (a + b) as real;
  }

  /** A row's wedges begin where the ones before them, by their leaves, leave off. */
  lemma {:induction false} StartIsShare(parent: Relation, kids: seq<seq<nat>>, roots: seq<nat>, list: seq<nat>, p: Option<nat>,
                                        k: nat, from: real, width: real, share: int)
    requires Kin(parent, kids, roots) && (p.Some? ==> p.value < |parent|) && Brood(parent, list, p) && k <= |list| && share != 0
    ensures Brood(parent, list[..k], p)
    ensures StartOf(parent, kids, roots, list, p, k, from, width, share)
            == from + Part(width, Weight(parent, kids, roots, list[..k], p), share)
  {
    hide Tree.AllListed, Tree.Lists, Grounded, Leaves, Part;
    PartsAdd(width, 0, 0, share);
    assert forall c :: c in list[..k] ==> c in list;
    if k > 0 {
      StartIsShare(parent, kids, roots, list, p, k - 1, from, width, share);
      assert list[..k][..k - 1] == list[..k - 1] && list[k - 1] in list;
      PartsAdd(width, Weight(parent, kids, roots, list[..k - 1], p), Leaves(parent, kids, roots, list[k - 1]), share);
    }
  }

  /** The wedge that a row shares out: its parent's, or the whole sector. */
  ghost function Shared(parent: Relation, kids: seq<seq<nat>>, roots: seq<nat>, whole: Sector, p: Option<nat>): Sector
    requires Kin(parent, kids, roots) && (p.Some? ==> p.value < |parent|)
  {
    if p.None? then whole else Wedge(parent, kids, roots, whole, p.value)
  }

  lemma RowIsAscending(parent: Relation, kids: seq<seq<nat>>, roots: seq<nat>, i: nat)
    requires Kin(parent, kids, roots) && i < |parent|
    ensures Tree.Ascending(RowOf(parent, kids, roots, i))
    ensures forall j :: 0 <= j < |parent| && parent[j] == parent[i] ==> RowOf(parent, kids, roots, j) == RowOf(parent, kids, roots, i)
    ensures forall j: nat :: j in RowOf(parent, kids, roots, i) <==> j < |parent| && parent[j] == parent[i]
  {
    if parent[i].Some? {
      assert Tree.Lists(kids[parent[i].value], parent, Some(parent[i].value), |parent|);
    }
  }

  /** A card's wedge runs from where the cards before it in its row leave off to where the next one begins. */
  lemma {:induction false} WedgeIsPart(parent: Relation, kids: seq<seq<nat>>, roots: seq<nat>, whole: Sector, i: nat)
    requires Kin(parent, kids, roots) && i < |parent|
    ensures var row, over := RowOf(parent, kids, roots, i), Shared(parent, kids, roots, whole, parent[i]);
            var k, share := IndexOf(row, i), ShareOf(parent, kids, roots, i);
            var w := Wedge(parent, kids, roots, whole, i);
            && w.lo == StartOf(parent, kids, roots, row, parent[i], k, over.lo, over.hi - over.lo, share)
            && w.hi == StartOf(parent, kids, roots, row, parent[i], k + 1, over.lo, over.hi - over.lo, share)
            && w.hi == w.lo + Part(over.hi - over.lo, Leaves(parent, kids, roots, i), share)
  {
    hide Tree.AllListed, Tree.Lists, Grounded, Leaves, Weight, RowOf, ShareOf, Total, IndexOf, Part;
  }

  /** Siblings lie side by side: each wedge begins where the one before it ends, the first where the
      shared wedge does, and the last ends where that ends. */
  lemma {:induction false} SiblingsTile(parent: Relation, kids: seq<seq<nat>>, roots: seq<nat>, whole: Sector, i: nat)
    requires Kin(parent, kids, roots) && i < |parent|
    ensures var row, over := RowOf(parent, kids, roots, i), Shared(parent, kids, roots, whole, parent[i]);
            var k := IndexOf(row, i);
            && (k == 0 ==> Wedge(parent, kids, roots, whole, i).lo == over.lo)
            && (k + 1 < |row| ==>
                  row[k + 1] < |parent| && Wedge(parent, kids, roots, whole, row[k + 1]).lo == Wedge(parent, kids, roots, whole, i).hi)
            && (k + 1 == |row| ==> Wedge(parent, kids, roots, whole, i).hi == over.hi)
  {
    hide Tree.AllListed, Tree.Lists, Grounded, Leaves, Weight, RowOf, ShareOf, Total, IndexOf, Part, Wedge;
    var row, over := RowOf(parent, kids, roots, i), Shared(parent, kids, roots, whole, parent[i]);
    var k := IndexOf(row, i);
    WedgeIsPart(parent, kids, roots, whole, i);
    if k + 1 < |row| {
      var next := row[k + 1];
      assert next in row;
      WedgeIsPart(parent, kids, roots, whole, next);
      SameShare(parent, kids, roots, next, i);
      RowIsAscending(parent, kids, roots, i);
      RowPlace(row, k + 1);
    } else {
      RowFillsShare(parent, kids, roots, i, over);
    }
  }

  lemma {:induction false} RowPlace(row: seq<nat>, k: nat)
    requires Tree.Ascending(row) && k < |row|
    ensures IndexOf(row, row[k]) == k
  {
  }

  lemma SameShare(parent: Relation, kids: seq<seq<nat>>, roots: seq<nat>, i: nat, j: nat)
    requires Kin(parent, kids, roots) && i < |parent| && j < |parent| && parent[i] == parent[j]
    ensures RowOf(parent, kids, roots, i) == RowOf(parent, kids, roots, j)
    ensures ShareOf(parent, kids, roots, i) == ShareOf(parent, kids, roots, j)
  {
  }

  lemma {:induction false} RowFillsShare(parent: Relation, kids: seq<seq<nat>>, roots: seq<nat>, i: nat, over: Sector)
    requires Kin(parent, kids, roots) && i < |parent|
    ensures var row := RowOf(parent, kids, roots, i);
            StartOf(parent, kids, roots, row, parent[i], |row|, over.lo, over.hi - over.lo, ShareOf(parent, kids, roots, i)) == over.hi
  {
    hide Tree.AllListed, Tree.Lists, Grounded, Leaves, Part;
    var row, share := RowOf(parent, kids, roots, i), ShareOf(parent, kids, roots, i);
    StartIsShare(parent, kids, roots, row, parent[i], |row|, over.lo, over.hi - over.lo, share);
    assert row[..|row|] == row;
    assert Weight(parent, kids, roots, row, parent[i]) == share;
    PartsAdd(over.hi - over.lo, 0, 0, share);
  }

  lemma QuotientOfQuotient(x: real, y: real, z: real, t: real)
    requires z != 0.0 && t != 0.0
    ensures (x * z / t) * y / z == x * y / t
  {
    var q := x / t;
    assert x * z / t == q * z && x * y / t == q * y;
    QuotientUndone(q * y, z);
    assert q * z * y == q * y * z;
  }

  lemma PartOfPart(width: real, a: int, b: int, share: int)
    requires share != 0 && b != 0
    ensures Part(Part(width, b, share), a, b) == Part(width, a, share)
  {
    QuotientOfQuotient(width, a as real, b as real, share as real);
  }

  lemma SomePart(width: real, n: int, share: int)
    requires width >= 0.0 && n >= 0 && share > 0
    ensures Part(width, n, share) >= 0.0
    ensures width > 0.0 && n > 0 ==> Part(width, n, share) > 0.0
  {
    assert width * n as real >= 0.0;
  }

  /** Every wedge's width is the card's own leaves out of all, of the whole sector. */
  lemma {:induction false} WidthByLeaves(parent: Relation, kids: seq<seq<nat>>, roots: seq<nat>, whole: Sector, i: nat)
    requires Kin(parent, kids, roots) && i < |parent|
    ensures var w := Wedge(parent, kids, roots, whole, i);
            w.hi - w.lo == Part(whole.hi - whole.lo, Leaves(parent, kids, roots, i), Total(parent, kids, roots))
    decreases Depth(parent, i)
  {
    hide Tree.AllListed, Tree.Lists, Grounded, Weight, Part, Wedge, Total;
    WedgeIsPart(parent, kids, roots, whole, i);
    if parent[i].Some? {
      var p := parent[i].value;
      DepthBelow(parent, i);
      WidthByLeaves(parent, kids, roots, whole, p);
      PartOfPart(whole.hi - whole.lo, Leaves(parent, kids, roots, i), Leaves(parent, kids, roots, p), Total(parent, kids, roots));
      LeavesAreShare(parent, kids, roots, i);
    }
  }

  lemma {:induction false} LeavesAreShare(parent: Relation, kids: seq<seq<nat>>, roots: seq<nat>, i: nat)
    requires Kin(parent, kids, roots) && i < |parent| && parent[i].Some?
    ensures ShareOf(parent, kids, roots, i) == Leaves(parent, kids, roots, parent[i].value)
  {
    assert i in RowOf(parent, kids, roots, i);
  }

  lemma {:induction false} StartRises(parent: Relation, kids: seq<seq<nat>>, roots: seq<nat>, list: seq<nat>, p: Option<nat>,
                                      j: nat, k: nat, from: real, width: real, share: int)
    requires Kin(parent, kids, roots) && (p.Some? ==> p.value < |parent|) && Brood(parent, list, p)
    requires j <= k <= |list| && share > 0 && width >= 0.0
    ensures StartOf(parent, kids, roots, list, p, j, from, width, share) <= StartOf(parent, kids, roots, list, p, k, from, width, share)
    decreases k
  {
    hide Tree.AllListed, Tree.Lists, Grounded, Leaves, Part;
    if j < k {
      StartRises(parent, kids, roots, list, p, j, k - 1, from, width, share);
      assert list[k - 1] in list;
      SomePart(width, Leaves(parent, kids, roots, list[k - 1]), share);
    }
  }

  /** A wedge lies inside the one it is shared out of, and, where that has any width, has some. */
  lemma {:induction false} WedgeInside(parent: Relation, kids: seq<seq<nat>>, roots: seq<nat>, whole: Sector, i: nat)
    requires Kin(parent, kids, roots) && i < |parent| && whole.lo <= whole.hi
    ensures var over, w := Shared(parent, kids, roots, whole, parent[i]), Wedge(parent, kids, roots, whole, i);
            && over.lo <= w.lo <= w.hi <= over.hi
            && (whole.lo < whole.hi ==> w.lo < w.hi)
  {
    hide Tree.AllListed, Tree.Lists, Grounded, Leaves, Weight, Part, Wedge, ShareOf, RowOf, Total;
    SharedIsForward(parent, kids, roots, whole, i);
    var over := Shared(parent, kids, roots, whole, parent[i]);
    var row, share := RowOf(parent, kids, roots, i), ShareOf(parent, kids, roots, i);
    var k := IndexOf(row, i);
    WedgeIsPart(parent, kids, roots, whole, i);
    StartRises(parent, kids, roots, row, parent[i], 0, k, over.lo, over.hi - over.lo, share);
    StartRises(parent, kids, roots, row, parent[i], k, k + 1, over.lo, over.hi - over.lo, share);
    StartRises(parent, kids, roots, row, parent[i], k + 1, |row|, over.lo, over.hi - over.lo, share);
    RowFillsShare(parent, kids, roots, i, over);
    WidthByLeaves(parent, kids, roots, whole, i);
    SomePart(whole.hi - whole.lo, Leaves(parent, kids, roots, i), Total(parent, kids, roots));
  }

  lemma SharedIsForward(parent: Relation, kids: seq<seq<nat>>, roots: seq<nat>, whole: Sector, i: nat)
    requires Kin(parent, kids, roots) && i < |parent| && whole.lo <= whole.hi
    ensures Shared(parent, kids, roots, whole, parent[i]).lo <= Shared(parent, kids, roots, whole, parent[i]).hi
  {
    hide Tree.AllListed, Tree.Lists, Grounded, Leaves, Weight, Part, Wedge, Total;
    if parent[i].Some? {
      WidthByLeaves(parent, kids, roots, whole, parent[i].value);
      SomePart(whole.hi - whole.lo, Leaves(parent, kids, roots, parent[i].value), Total(parent, kids, roots));
    }
  }

  /** `a` is `i`, or stands above it. */
  ghost predicate Above(parent: Relation, a: nat, i: nat)
    requires Forest(parent) && i < |parent|
    decreases Depth(parent, i)
  {
    DepthBelow(parent, i);
    i == a || (parent[i].Some? && Above(parent, a, parent[i].value))
  }

  /** Whatever stands under a card stays in its wedge. */
  lemma {:induction false} SubtreeInWedge(parent: Relation, kids: seq<seq<nat>>, roots: seq<nat>, whole: Sector, a: nat, i: nat)
    requires Kin(parent, kids, roots) && i < |parent| && a < |parent| && whole.lo <= whole.hi && Above(parent, a, i)
    ensures Wedge(parent, kids, roots, whole, a).lo <= Wedge(parent, kids, roots, whole, i).lo
    ensures Wedge(parent, kids, roots, whole, i).hi <= Wedge(parent, kids, roots, whole, a).hi
    decreases Depth(parent, i)
  {
    hide Tree.AllListed, Tree.Lists, Grounded, Wedge;
    if i != a {
      DepthBelow(parent, i);
      SubtreeInWedge(parent, kids, roots, whole, a, parent[i].value);
      WedgeInside(parent, kids, roots, whole, i);
    }
  }

  ghost predicate Clear(a: Sector, b: Sector) {
    a.hi <= b.lo || b.hi <= a.lo
  }

  lemma {:induction false} SiblingsClear(parent: Relation, kids: seq<seq<nat>>, roots: seq<nat>, whole: Sector, i: nat, j: nat)
    requires Kin(parent, kids, roots) && i < |parent| && j < |parent| && whole.lo <= whole.hi
    requires parent[i] == parent[j] && i != j
    ensures Clear(Wedge(parent, kids, roots, whole, i), Wedge(parent, kids, roots, whole, j))
  {
    hide Tree.AllListed, Tree.Lists, Grounded, Leaves, Weight, Part, Wedge, ShareOf, RowOf, Total;
    SharedIsForward(parent, kids, roots, whole, i);
    WedgeIsPart(parent, kids, roots, whole, i);
    WedgeIsPart(parent, kids, roots, whole, j);
    SameShare(parent, kids, roots, i, j);
    var over := Shared(parent, kids, roots, whole, parent[i]);
    var row, share := RowOf(parent, kids, roots, i), ShareOf(parent, kids, roots, i);
    var a, b := IndexOf(row, i), IndexOf(row, j);
    if a < b {
      StartRises(parent, kids, roots, row, parent[i], a + 1, b, over.lo, over.hi - over.lo, share);
    } else {
      StartRises(parent, kids, roots, row, parent[i], b + 1, a, over.lo, over.hi - over.lo, share);
    }
  }

  /** The wedges of two cards of which neither stands above the other never overlap. */
  lemma {:induction false} UnrelatedClear(parent: Relation, kids: seq<seq<nat>>, roots: seq<nat>, whole: Sector, i: nat, j: nat)
    requires Kin(parent, kids, roots) && i < |parent| && j < |parent| && whole.lo <= whole.hi
    requires !Above(parent, i, j) && !Above(parent, j, i)
    ensures Clear(Wedge(parent, kids, roots, whole, i), Wedge(parent, kids, roots, whole, j))
    decreases Depth(parent, i) + Depth(parent, j)
  {
    hide Tree.AllListed, Tree.Lists, Grounded, Wedge;
    DepthBelow(parent, i);
    DepthBelow(parent, j);
    if parent[i] == parent[j] {
      SiblingsClear(parent, kids, roots, whole, i, j);
    } else if Depth(parent, i) >= Depth(parent, j) {
      var p := parent[i].value;
      NotUnderOthersParent(parent, i, j);
      UnrelatedClear(parent, kids, roots, whole, p, j);
      WedgeInside(parent, kids, roots, whole, i);
    } else {
      var p := parent[j].value;
      NotUnderOthersParent(parent, j, i);
      UnrelatedClear(parent, kids, roots, whole, i, p);
      WedgeInside(parent, kids, roots, whole, j);
    }
  }

  /** What stands above a card is less deep, or is the card. */
  lemma {:induction false} AboveIsHigher(parent: Relation, a: nat, i: nat)
    requires Forest(parent) && i < |parent| && a < |parent| && Above(parent, a, i)
    ensures a == i || Depth(parent, a) < Depth(parent, i)
    decreases Depth(parent, i)
  {
    if a != i {
      DepthBelow(parent, i);
      AboveIsHigher(parent, a, parent[i].value);
    }
  }

  lemma {:induction false} NotUnderOthersParent(parent: Relation, i: nat, j: nat)
    requires Forest(parent) && i < |parent| && j < |parent| && parent[i].Some? && parent[i] != parent[j]
    requires Depth(parent, i) >= Depth(parent, j) && !Above(parent, j, i)
    ensures !Above(parent, parent[i].value, j)
  {
    hide Grounded;
    var p := parent[i].value;
    DepthBelow(parent, i);
    DepthBelow(parent, j);
    if Above(parent, p, j) {
      assert Above(parent, p, p);
      AboveIsHigher(parent, p, j);
      if parent[j].Some? && Above(parent, p, parent[j].value) {
        AboveIsHigher(parent, p, parent[j].value);
      }
    }
  }

  // ---- what is counted ----

  ghost predicate IsLeaf(parent: Relation, i: nat) {
    i < |parent| && forall j :: 0 <= j < |parent| ==> parent[j] != Some(i)
  }

  /** The cards at or under `node` that have none under them. */
  ghost function LeavesUnder(parent: Relation, node: nat): set<nat>
    requires Forest(parent)
  {
    set i: nat | i < |parent| && IsLeaf(parent, i) && Above(parent, node, i)
  }

  ghost function LeavesUnderAny(parent: Relation, list: seq<nat>): set<nat>
    requires Forest(parent)
  {
    set i: nat | i < |parent| && IsLeaf(parent, i) && UnderAny(parent, list, i)
  }

  ghost predicate UnderAny(parent: Relation, list: seq<nat>, i: nat)
    requires Forest(parent) && i < |parent|
  {
    exists k :: 0 <= k < |list| && Above(parent, list[k], i)
  }

  /** A card that is not `node` itself stands under it through one of its children. */
  lemma {:induction false} ThroughAChild(parent: Relation, node: nat, i: nat) returns (c: nat)
    requires Forest(parent) && node < |parent| && i < |parent| && Above(parent, node, i) && i != node
    ensures c < |parent| && parent[c] == Some(node) && Above(parent, c, i)
    decreases Depth(parent, i)
  {
    DepthBelow(parent, i);
    if parent[i].value == node {
      c := i;
    } else {
      c := ThroughAChild(parent, node, parent[i].value);
    }
  }

  lemma {:induction false} AboveThen(parent: Relation, a: nat, b: nat, i: nat)
    requires Forest(parent) && i < |parent| && a < |parent| && b < |parent| && Above(parent, a, b) && Above(parent, b, i)
    ensures Above(parent, a, i)
    decreases Depth(parent, i)
  {
    if i != b {
      DepthBelow(parent, i);
      AboveThen(parent, a, b, parent[i].value);
    }
  }

  /** No card stands under two of one depth. */
  lemma {:induction false} OneAbove(parent: Relation, a: nat, b: nat, i: nat)
    requires Forest(parent) && i < |parent| && a < |parent| && b < |parent| && Above(parent, a, i) && Above(parent, b, i)
    requires Depth(parent, a) == Depth(parent, b)
    ensures a == b
    decreases Depth(parent, i)
  {
    if i == a {
      AboveIsHigher(parent, b, i);
    } else if i == b {
      AboveIsHigher(parent, a, i);
    } else {
      DepthBelow(parent, i);
      OneAbove(parent, a, b, parent[i].value);
    }
  }

  /** Leaves counts the cards at or under `node` that have none under them. */
  lemma {:induction false} LeavesAreCounted(parent: Relation, kids: seq<seq<nat>>, roots: seq<nat>, node: nat)
    requires Kin(parent, kids, roots) && node < |parent|
    ensures Leaves(parent, kids, roots, node) == |LeavesUnder(parent, node)|
    decreases |parent| - Depth(parent, node), 0
  {
    hide Above;
    KidsAreBrood(parent, kids, roots, node);
    KidsAreChildren(parent, kids, roots, node);
    if kids[node] == [] {
      OnlyItself(parent, node);
    } else {
      UnderItsChildren(parent, kids[node], node);
      WeightIsCounted(parent, kids, roots, kids[node], Some(node));
    }
  }

  lemma KidsAreChildren(parent: Relation, kids: seq<seq<nat>>, roots: seq<nat>, node: nat)
    requires Kin(parent, kids, roots) && node < |parent|
    ensures forall c :: c in kids[node] <==> 0 <= c < |parent| && parent[c] == Some(node)
    ensures forall j, k :: 0 <= j < k < |kids[node]| ==> kids[node][j] != kids[node][k]
    ensures forall c :: c in roots <==> 0 <= c < |parent| && parent[c].None?
    ensures forall j, k :: 0 <= j < k < |roots| ==> roots[j] != roots[k]
  {
    assert Tree.Lists(kids[node], parent, Some(node), |parent|);
  }

  lemma {:induction false} OnlyItself(parent: Relation, node: nat)
    requires Forest(parent) && node < |parent| && IsLeaf(parent, node)
    ensures LeavesUnder(parent, node) == {node}
  {
    forall i: nat | i < |parent| && Above(parent, node, i)
      ensures i == node
    {
      if i != node {
        var c := ThroughAChild(parent, node, i);
      }
    }
    assert Above(parent, node, node);
  }

  lemma {:induction false} UnderItsChildren(parent: Relation, children: seq<nat>, node: nat)
    requires Forest(parent) && node < |parent| && children != []
    requires forall c :: c in children <==> 0 <= c < |parent| && parent[c] == Some(node)
    ensures LeavesUnder(parent, node) == LeavesUnderAny(parent, children)
  {
    assert children[0] in children;
    forall i: nat | i < |parent| && IsLeaf(parent, i)
      ensures Above(parent, node, i) <==> UnderAny(parent, children, i)
    {
      if Above(parent, node, i) {
        assert i != node;
        var c := ThroughAChild(parent, node, i);
        assert c in children;
      }
      if UnderAny(parent, children, i) {
        var k :| 0 <= k < |children| && Above(parent, children[k], i);
        assert children[k] in children;
        ChildIsUnder(parent, node, children[k]);
        AboveThen(parent, node, children[k], i);
      }
    }
  }

  lemma {:induction false} ChildIsUnder(parent: Relation, node: nat, c: nat)
    requires Forest(parent) && node < |parent| && c < |parent| && parent[c] == Some(node)
    ensures Above(parent, node, c)
  {
    assert Above(parent, node, node);
  }

  lemma {:induction false} WeightIsCounted(parent: Relation, kids: seq<seq<nat>>, roots: seq<nat>, list: seq<nat>, p: Option<nat>)
    requires Kin(parent, kids, roots) && (p.Some? ==> p.value < |parent|) && Brood(parent, list, p)
    requires forall j, k :: 0 <= j < k < |list| ==> list[j] != list[k]
    ensures Weight(parent, kids, roots, list, p) == |LeavesUnderAny(parent, list)|
    decreases |parent| - DepthUnder(parent, p), 1 + |list|
  {
    hide Above, Leaves;
    if list == [] {
      assert LeavesUnderAny(parent, list) == {};
    } else {
      var n := |list| - 1;
      LastOfBrood(parent, list, p);
      DepthBelow(parent, list[n]);
      WeightIsCounted(parent, kids, roots, list[..n], p);
      LeavesAreCounted(parent, kids, roots, list[n]);
      OneMoreUnder(parent, list, p);
    }
  }

  lemma {:induction false} OneMoreUnder(parent: Relation, list: seq<nat>, p: Option<nat>)
    requires Forest(parent) && list != [] && Brood(parent, list, p)
    requires forall j, k :: 0 <= j < k < |list| ==> list[j] != list[k]
    ensures var n := |list| - 1;
            |LeavesUnderAny(parent, list)| == |LeavesUnderAny(parent, list[..n])| + |LeavesUnder(parent, list[n])|
  {
    hide Above, IsLeaf;
    var n := |list| - 1;
    var front, last := LeavesUnderAny(parent, list[..n]), LeavesUnder(parent, list[n]);
    forall i: nat | i < |parent|
      ensures UnderAny(parent, list, i) <==> UnderAny(parent, list[..n], i) || Above(parent, list[n], i)
      ensures !(UnderAny(parent, list[..n], i) && Above(parent, list[n], i))
    {
      if k :| 0 <= k < n && Above(parent, list[..n][k], i) {
        assert list[k] in list && list[n] in list;
        DepthBelow(parent, list[k]);
        DepthBelow(parent, list[n]);
        if Above(parent, list[n], i) {
          OneAbove(parent, list[k], list[n], i);
        }
      }
    }
    assert LeavesUnderAny(parent, list) == front + last && front !! last;
  }

  /** The row of roots shares the sector out of all cards that have none under them, when there are any cards. */
  lemma {:induction false} TotalIsCounted(parent: Relation, kids: seq<seq<nat>>, roots: seq<nat>)
    requires Kin(parent, kids, roots) && |parent| > 0
    ensures Total(parent, kids, roots) == |set i: nat | i < |parent| && IsLeaf(parent, i)|
  {
    hide Above, IsLeaf;
    KidsAreChildren(parent, kids, roots, 0);
    RootsAreBrood(parent, kids, roots);
    WeightIsCounted(parent, kids, roots, roots, None);
    forall i: nat | i < |parent|
      ensures UnderAny(parent, roots, i)
    {
      var r := RootAbove(parent, i);
      assert r in roots;
    }
    assert LeavesUnderAny(parent, roots) == set i: nat | i < |parent| && IsLeaf(parent, i);
    var r := RootAbove(parent, 0);
    assert roots != [] && Weight(parent, kids, roots, roots, None) >= |roots|;
  }

  lemma {:induction false} RootAbove(parent: Relation, i: nat) returns (r: nat)
    requires Forest(parent) && i < |parent|
    ensures r < |parent| && parent[r].None? && Above(parent, r, i)
    decreases Depth(parent, i)
  {
    DepthBelow(parent, i);
    if parent[i].None? {
      r := i;
    } else {
      r := RootAbove(parent, parent[i].value);
    }
  }

  /** Of the whole sector a card is given as many parts as there are leaves at or under it, out of all leaves. */
  lemma {:induction false} WidthCountsLeaves(parent: Relation, kids: seq<seq<nat>>, roots: seq<nat>, whole: Sector, i: nat)
    requires Kin(parent, kids, roots) && i < |parent|
    ensures var w, all := Wedge(parent, kids, roots, whole, i), set j: nat | j < |parent| && IsLeaf(parent, j);
            |all| > 0 && w.hi - w.lo == (whole.hi - whole.lo) * |LeavesUnder(parent, i)| as real / |all| as real
  {
    hide IsLeaf, Above, Wedge, Leaves, Weight, Total, Kin;
    WidthByLeaves(parent, kids, roots, whole, i);
    LeavesAreCounted(parent, kids, roots, i);
    TotalIsCounted(parent, kids, roots);
  }

  // ---- handing the wedges out ----

  datatype Pending = Pending(node: nat, left: real, right: real, depth: nat)

  /** The stack holds each waiting card once, with its own wedge and depth. */
  ghost predicate Queued(parent: Relation, kids: seq<seq<nat>>, roots: seq<nat>, whole: Sector, pending: seq<Pending>, waiting: set<nat>)
    requires Kin(parent, kids, roots)
  {
    && (forall k :: 0 <= k < |pending| ==>
          && pending[k].node in waiting && pending[k].node < |parent|
          && IsOwn(parent, kids, roots, whole, pending[k]))
    && (forall j, k :: 0 <= j < k < |pending| ==> pending[j].node != pending[k].node)
    && (forall w :: w in waiting ==> exists k :: 0 <= k < |pending| && pending[k].node == w)
  }

  ghost predicate IsOwn(parent: Relation, kids: seq<seq<nat>>, roots: seq<nat>, whole: Sector, p: Pending)
    requires Kin(parent, kids, roots) && p.node < |parent|
  {
    && Sector(p.left, p.right) == Wedge(parent, kids, roots, whole, p.node)
    && p.depth == Depth(parent, p.node)
  }

  lemma Popped(parent: Relation, kids: seq<seq<nat>>, roots: seq<nat>, whole: Sector, pending: seq<Pending>, waiting: set<nat>)
    requires Kin(parent, kids, roots) && pending != [] && Queued(parent, kids, roots, whole, pending, waiting)
    ensures Queued(parent, kids, roots, whole, pending[..|pending| - 1], waiting - {pending[|pending| - 1].node})
  {
    hide Kin, IsOwn;
    var rest := pending[..|pending| - 1];
    forall w | w in waiting && w != pending[|pending| - 1].node
      ensures exists k :: 0 <= k < |rest| && rest[k].node == w
    {
      var k :| 0 <= k < |pending| && pending[k].node == w;
      assert rest[k].node == w;
    }
  }

  lemma Pushed(parent: Relation, kids: seq<seq<nat>>, roots: seq<nat>, whole: Sector, pending: seq<Pending>, waiting: set<nat>, p: Pending)
    requires Kin(parent, kids, roots) && Queued(parent, kids, roots, whole, pending, waiting)
    requires p.node < |parent| && p.node !in waiting && IsOwn(parent, kids, roots, whole, p)
    ensures Queued(parent, kids, roots, whole, pending + [p], waiting + {p.node})
  {
    hide Kin, IsOwn;
    var more := pending + [p];
    assert more[|pending|] == p;
    forall w | w in waiting + {p.node}
      ensures exists k :: 0 <= k < |more| && more[k].node == w
    {
      if w in waiting {
        var k :| 0 <= k < |pending| && pending[k].node == w;
        assert more[k].node == w;
      }
    }
  }

  /** Puts one row on the stack, sharing the wedge it hangs under out by leaves. */
  method ShareOut(ghost parent: Relation, kids: seq<seq<nat>>, ghost roots: seq<nat>, ghost whole: Sector,
                  pending: seq<Pending>, row: seq<nat>, ghost p: Option<nat>, over: Sector, share: nat, depth: nat, ghost waiting: set<nat>)
    returns (pending': seq<Pending>)
    requires Kin(parent, kids, roots) && Tree.Lists(row, parent, p, |parent|) && (p.Some? ==> p.value < |parent|)
    requires over == Shared(parent, kids, roots, whole, p) && depth == DepthUnder(parent, p)
    requires share >= 1 && forall c :: c in row ==> ShareOf(parent, kids, roots, c) == share
    requires Queued(parent, kids, roots, whole, pending, waiting) && forall c :: c in row ==> c !in waiting
    ensures Queued(parent, kids, roots, whole, pending', waiting + Tree.Nodes(row))
  {
    hide Tree.AllListed, Grounded, Wedge, Part, Weight, ShareOf, Total, Queued, IsOwn;
    pending' := pending;
    var cursor := over.lo;
    assert Brood(parent, row, p);
    assert waiting + Tree.Nodes(row[..0]) == waiting;
    for k := 0 to |row|
      invariant cursor == StartOf(parent, kids, roots, row, p, k, over.lo, over.hi - over.lo, share)
      invariant Queued(parent, kids, roots, whole, pending', waiting + Tree.Nodes(row[..k]))
    {
      var child := row[k];
      assert child in row;
      var span := Part(over.hi - over.lo, Leaves(parent, kids, roots, child), share);
      OwnWedge(parent, kids, roots, whole, row, p, k, cursor, share);
      OwnDepth(parent, child);
      RowSoFar(row, k, waiting);
      var next := Pending(child, cursor, cursor + span, depth);
      assert IsOwn(parent, kids, roots, whole, next) by {
        OwnPending(parent, kids, roots, whole, next);
      }
      Pushed(parent, kids, roots, whole, pending', waiting + Tree.Nodes(row[..k]), next);
      pending' := pending' + [next];
      cursor := cursor + span;
    }
    assert row[..|row|] == row;
  }

  lemma {:induction false} OwnPending(parent: Relation, kids: seq<seq<nat>>, roots: seq<nat>, whole: Sector, p: Pending)
    requires Kin(parent, kids, roots) && p.node < |parent|
    requires Wedge(parent, kids, roots, whole, p.node) == Sector(p.left, p.right) && p.depth == Depth(parent, p.node)
    ensures IsOwn(parent, kids, roots, whole, p)
  {
  }

  lemma OwnDepth(parent: Relation, c: nat)
    requires Forest(parent) && c < |parent|
    ensures Depth(parent, c) == DepthUnder(parent, parent[c])
  {
    DepthBelow(parent, c);
  }

  lemma RowSoFar(row: seq<nat>, k: nat, waiting: set<nat>)
    requires Tree.Ascending(row) && k < |row| && row[k] !in waiting
    ensures row[k] !in waiting + Tree.Nodes(row[..k])
    ensures waiting + Tree.Nodes(row[..k + 1]) == waiting + Tree.Nodes(row[..k]) + {row[k]}
  {
  }

  /** The wedge the loop is about to hand out is the card's own. */
  lemma OwnWedge(parent: Relation, kids: seq<seq<nat>>, roots: seq<nat>, whole: Sector, row: seq<nat>, p: Option<nat>, k: nat, cursor: real, share: nat)
    requires Kin(parent, kids, roots) && Tree.Lists(row, parent, p, |parent|) && (p.Some? ==> p.value < |parent|)
    requires k < |row| && row[k] < |parent| && share >= 1 && ShareOf(parent, kids, roots, row[k]) == share && Brood(parent, row, p)
    requires var over := Shared(parent, kids, roots, whole, p);
             cursor == StartOf(parent, kids, roots, row, p, k, over.lo, over.hi - over.lo, share)
    ensures var over := Shared(parent, kids, roots, whole, p);
            Wedge(parent, kids, roots, whole, row[k])
            == Sector(cursor, cursor + Part(over.hi - over.lo, Leaves(parent, kids, roots, row[k]), share))
  {
    hide Tree.AllListed, Grounded, Leaves, Weight, Part, Wedge, ShareOf, Total;
    assert row[k] in row;
    RowIsAscending(parent, kids, roots, row[k]);
    SameList(row, RowOf(parent, kids, roots, row[k]));
    WedgeIsPart(parent, kids, roots, whole, row[k]);
    RowPlace(row, k);
  }

  lemma NotEmptyToo(a: seq<nat>, b: seq<nat>)
    requires forall x :: x in a ==> x in b
    ensures a != [] ==> b != []
  {
    if a != [] {
      assert a[0] in b;
    }
  }

  lemma {:induction false} SameList(a: seq<nat>, b: seq<nat>)
    requires Tree.Ascending(a) && Tree.Ascending(b) && forall x :: x in a <==> x in b
    ensures a == b
  {
    NotEmptyToo(a, b);
    NotEmptyToo(b, a);
    if a != [] {
      var n, m := |a| - 1, |b| - 1;
      LastIsGreatest(a);
      LastIsGreatest(b);
      assert a[n] in b && b[m] in a;
      hide Tree.Ascending;
      SameList(a[..n], b[..m]);
    }
  }

  lemma LastIsGreatest(a: seq<nat>)
    requires Tree.Ascending(a) && a != []
    ensures var n := |a| - 1;
            && Tree.Ascending(a[..n]) && a == a[..n] + [a[n]] && (forall x :: x in a ==> x <= a[n])
            && (forall x :: x in a[..n] <==> x in a && x != a[n])
  {
  }

  /** Every card gets the angle in the middle of its own wedge, and its depth. */
  method HandOut(ghost parent: Relation, kids: seq<seq<nat>>, roots: seq<nat>, whole: Sector) returns (out: map<nat, Spoke>)
    requires Kin(parent, kids, roots)
    ensures out.Keys == Below(|parent|)
    ensures forall i :: i in out ==> out[i] == SpokeOf(parent, kids, roots, whole, i)
  {
    hide Wedge, Part, Weight, ShareOf, Queued, IsOwn, Tree.Frontier, Depth, Grounded, Leaves, Total, Tree.Nodes, Below;
    out := map[];
    NoneQueued(parent, kids, roots, whole);
    RootsShare(parent, kids, roots);
    var pending := ShareOut(parent, kids, roots, whole, [], roots, None, whole, Total(parent, kids, roots), 0, {});
    ghost var waiting, done: set<nat> := {} + Tree.Nodes(roots), {};
    FirstFrontier(parent, kids, roots);
    while pending != []
      invariant done <= Below(|parent|) && out.Keys == done
      invariant forall i :: i in out ==> out[i] == SpokeOf(parent, kids, roots, whole, i)
      invariant Queued(parent, kids, roots, whole, pending, waiting)
      invariant Tree.Frontier(parent, kids, waiting, done)
      decreases Below(|parent|) - done
    {
      var top := pending[|pending| - 1];
      TopIsNew(parent, kids, roots, whole, pending, waiting, done);
      Popped(parent, kids, roots, whole, pending, waiting);
      pending := pending[..|pending| - 1];
      out := out[top.node := Spoke((top.left + top.right) / 2.0, top.depth)];
      KidsShare(parent, kids, roots, whole, waiting, done, top.node);
      if kids[top.node] != [] {
        pending := ShareOut(parent, kids, roots, whole, pending, kids[top.node], Some(top.node), Sector(top.left, top.right),
                            Leaves(parent, kids, roots, top.node), top.depth + 1, waiting - {top.node});
      }
      waiting, done := (waiting - {top.node}) + Tree.Nodes(kids[top.node]), done + {top.node};
    }
    AllHanded(parent, kids, roots, whole, waiting, done);
  }

  lemma NoneQueued(parent: Relation, kids: seq<seq<nat>>, roots: seq<nat>, whole: Sector)
    requires Kin(parent, kids, roots)
    ensures Queued(parent, kids, roots, whole, [], {})
  {
  }

  lemma RootsShare(parent: Relation, kids: seq<seq<nat>>, roots: seq<nat>)
    requires Kin(parent, kids, roots)
    ensures forall c :: c in roots ==> c < |parent| && ShareOf(parent, kids, roots, c) == Total(parent, kids, roots)
  {
    RootsAreBrood(parent, kids, roots);
  }

  lemma FirstFrontier(parent: Relation, kids: seq<seq<nat>>, roots: seq<nat>)
    requires Kin(parent, kids, roots)
    ensures Tree.Frontier(parent, kids, {} + Tree.Nodes(roots), {})
  {
  }

  lemma {:induction false} TopIsNew(parent: Relation, kids: seq<seq<nat>>, roots: seq<nat>, whole: Sector, pending: seq<Pending>, waiting: set<nat>, done: set<nat>)
    requires Kin(parent, kids, roots) && pending != [] && Queued(parent, kids, roots, whole, pending, waiting)
    requires Tree.Frontier(parent, kids, waiting, done)
    ensures var top := pending[|pending| - 1];
            && top.node in waiting && top.node !in done && top.node < |parent|
            && Sector(top.left, top.right) == Wedge(parent, kids, roots, whole, top.node)
            && top.depth == Depth(parent, top.node)
  {
  }

  lemma {:induction false} KidsShare(parent: Relation, kids: seq<seq<nat>>, roots: seq<nat>, whole: Sector, waiting: set<nat>, done: set<nat>, node: nat)
    requires Kin(parent, kids, roots) && Tree.Frontier(parent, kids, waiting, done) && node in waiting && node < |parent|
    ensures Tree.Lists(kids[node], parent, Some(node), |parent|)
    ensures forall c :: c in kids[node] ==> c !in waiting && c < |parent| && ShareOf(parent, kids, roots, c) == Leaves(parent, kids, roots, node)
    ensures Tree.Frontier(parent, kids, (waiting - {node}) + Tree.Nodes(kids[node]), done + {node})
    ensures kids[node] == [] ==> (waiting - {node}) + Tree.Nodes(kids[node]) == waiting - {node}
  {
    hide Tree.Frontier, Leaves, ShareOf;
    assert Tree.Lists(kids[node], parent, Some(node), |parent|);
    forall c | c in kids[node]
      ensures c !in waiting && ShareOf(parent, kids, roots, c) == Leaves(parent, kids, roots, node)
    {
      Tree.KidsAreNew(parent, kids, waiting, done, node, c);
      LeavesAreShare(parent, kids, roots, c);
    }
    Tree.FrontierStep(parent, kids, waiting, done, node);
  }

  lemma {:induction false} AllHanded(parent: Relation, kids: seq<seq<nat>>, roots: seq<nat>, whole: Sector, waiting: set<nat>, done: set<nat>)
    requires Kin(parent, kids, roots) && Queued(parent, kids, roots, whole, [], waiting) && done <= Below(|parent|)
    requires Tree.Frontier(parent, kids, waiting, done)
    ensures done == Below(|parent|)
  {
    assert waiting == {};
    forall i | 0 <= i < |parent|
      ensures i in done
    {
      assert Grounded(parent, i);
      Tree.AllReached(parent, kids, done, i, Depth(parent, i));
    }
  }

  /** Two cards of which neither stands above the other are drawn at different angles, with all that
      stands under each on its own side. */
  lemma {:induction false} UnrelatedAnglesDiffer(parent: Relation, kids: seq<seq<nat>>, roots: seq<nat>, whole: Sector, i: nat, j: nat, under: nat)
    requires Kin(parent, kids, roots) && i < |parent| && j < |parent| && under < |parent| && whole.lo < whole.hi
    requires !Above(parent, i, j) && !Above(parent, j, i) && Above(parent, i, under)
    ensures SpokeOf(parent, kids, roots, whole, i).angle != SpokeOf(parent, kids, roots, whole, j).angle
    ensures SpokeOf(parent, kids, roots, whole, i).angle < SpokeOf(parent, kids, roots, whole, j).angle <==>
            SpokeOf(parent, kids, roots, whole, under).angle < SpokeOf(parent, kids, roots, whole, j).angle
  {
    hide Tree.AllListed, Tree.Lists, Grounded, Leaves, Weight, Part, Wedge, Total, Above, Depth;
    UnrelatedClear(parent, kids, roots, whole, i, j);
    SubtreeInWedge(parent, kids, roots, whole, i, under);
    WedgeInside(parent, kids, roots, whole, i);
    WedgeInside(parent, kids, roots, whole, j);
    WedgeInside(parent, kids, roots, whole, under);
  }
}
