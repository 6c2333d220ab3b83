/** Parent relations over the indices of a list: walking up, and cutting what loops. */
module Parents {
  import opened Options
  import opened Sorting

  type Relation = seq<Option<nat>>

  ghost predicate InRange(parent: Relation) {
    forall i :: 0 <= i < |parent| && parent[i].Some? ==> parent[i].value < |parent|
  }

  /** Exactly `d` steps up from `i` stand on a root. */
  ghost predicate Reaches(parent: Relation, i: nat, d: nat)
    requires InRange(parent) && i < |parent|
    decreases d
  {
    match parent[i]
    case None => d == 0
    case Some(up) => d > 0 && Reaches(parent, up, d - 1)
  }

  ghost predicate Grounded(parent: Relation, i: nat)
    requires InRange(parent) && i < |parent|
  {
    exists d: nat :: Reaches(parent, i, d)
  }

  ghost predicate GroundedWithin(parent: Relation, i: nat, d: nat)
    requires InRange(parent) && i < |parent|
  {
    exists e: nat :: e <= d && Reaches(parent, i, e)
  }

  ghost predicate Forest(parent: Relation) {
    InRange(parent) && forall i :: 0 <= i < |parent| ==> Grounded(parent, i)
  }

  lemma {:induction false} ReachesOnce(parent: Relation, i: nat, d: nat, e: nat)
    requires InRange(parent) && i < |parent|
    requires Reaches(parent, i, d) && Reaches(parent, i, e)
    ensures d == e
    decreases d
  {
    if parent[i].Some? {
      ReachesOnce(parent, parent[i].value, d - 1, e - 1);
    }
  }

  /** The nodes met on the way up: one for each step, all different. */
  lemma {:induction false} ChainNodes(parent: Relation, i: nat, d: nat) returns (chain: set<nat>)
    requires InRange(parent) && i < |parent| && Reaches(parent, i, d)
    ensures |chain| == d + 1
    ensures forall k :: k in chain ==> k < |parent| && GroundedWithin(parent, k, d)
    decreases d
  {
    if parent[i].None? {
      chain := {i};
      assert Reaches(parent, i, 0);
    } else {
      var above := ChainNodes(parent, parent[i].value, d - 1);
      if i in above {
        var e: nat :| e <= d - 1 && Reaches(parent, i, e);
        ReachesOnce(parent, i, d, e);
      }
      chain := above + {i};
      forall k | k in chain
        ensures k < |parent| && GroundedWithin(parent, k, d)
      {
        if k != i {
          var e: nat :| e <= d - 1 && Reaches(parent, k, e);
        } else {
          assert Reaches(parent, k, d);
        }
      }
    }
  }

  /** A way up that ends is shorter than the number of nodes. */
  lemma {:induction false} ReachesShort(parent: Relation, i: nat, d: nat)
    requires InRange(parent) && i < |parent| && Reaches(parent, i, d)
    ensures d < |parent|
  {
    var chain := ChainNodes(parent, i, d);
    Subset(chain, Below(|parent|));
  }

  /** The set of the first `n` indices. */
  ghost function Below(n: nat): (s: set<nat>)
    ensures |s| == n
    ensures forall i :: i in s <==> 0 <= i < n
  {
    if n == 0 then {} else Below(n - 1) + {n - 1}
  }

  lemma {:induction false} Subset<T>(a: set<T>, b: set<T>)
    requires a <= b
    ensures |a| <= |b|
  {
    if a != {} {
      var x :| x in a;
      Subset(a - {x}, b - {x});
    }
  }

  /** Cutting one node loose only shortens the ways up. */
  lemma {:induction false} CutKeepsGround(parent: Relation, m: nat, i: nat, d: nat)
    requires InRange(parent) && i < |parent| && m < |parent| && Reaches(parent, i, d)
    ensures InRange(parent[m := None]) && Grounded(parent[m := None], i)
    decreases d
  {
    var cut := parent[m := None];
    if i == m || parent[i].None? {
      assert Reaches(cut, i, 0);
    } else {
      CutKeepsGround(parent, m, parent[i].value, d - 1);
      var e: nat :| Reaches(cut, parent[i].value, e);
      assert Reaches(cut, i, e + 1);
    }
  }

  /** A relation that keeps the edge of every grounded node keeps every way up that ends. */
  lemma {:induction false} GroundKept(parent: Relation, kept: Relation, i: nat, d: nat)
    requires InRange(parent) && InRange(kept) && |kept| == |parent| && i < |parent|
    requires forall k :: 0 <= k < |parent| && Grounded(parent, k) ==> kept[k] == parent[k]
    requires Reaches(parent, i, d)
    ensures Reaches(kept, i, d)
    decreases d
  {
    assert Grounded(parent, i);
    if parent[i].Some? {
      GroundKept(parent, kept, parent[i].value, d - 1);
    }
  }

  /** Back at `node`, or past any possible end, the way up has none. */
  lemma NeverEnds(parent: Relation, node: nat, at: nat, steps: nat)
    requires InRange(parent) && node < |parent| && at < |parent| && parent[at].Some?
    requires forall d: nat :: Reaches(parent, node, d + steps) == Reaches(parent, at, d)
    requires forall d: nat :: Reaches(parent, node, d) ==> d >= steps
    requires parent[at].value == node || steps > |parent|
    ensures !Grounded(parent, node)
  {
    if d: nat :| Reaches(parent, node, d) {
      if parent[at].value == node {
        assert Reaches(parent, node, (d - steps) + steps);
        assert Reaches(parent, at, d - steps);
        ReachesOnce(parent, node, d, d - steps - 1);
      } else {
        ReachesShort(parent, node, d);
      }
    }
  }

  lemma OneStepOn(parent: Relation, node: nat, at: nat, steps: nat)
    requires InRange(parent) && node < |parent| && at < |parent| && parent[at].Some?
    requires forall d: nat :: Reaches(parent, node, d + steps) == Reaches(parent, at, d)
    ensures forall d: nat :: Reaches(parent, node, d + (steps + 1)) == Reaches(parent, parent[at].value, d)
    ensures !Reaches(parent, node, steps)
  {
    assert !Reaches(parent, at, 0) && !Reaches(parent, node, 0 + steps);
    forall d: nat
      ensures Reaches(parent, node, d + (steps + 1)) == Reaches(parent, parent[at].value, d)
    {
      assert Reaches(parent, node, (d + 1) + steps) == Reaches(parent, at, d + 1);
    }
  }

  /** Whether the way up from `node` ends. It is given up once it is back at `node`, or has gone on
      for more steps than there are nodes. */
  method WalkEnds(parent: Relation, node: nat) returns (ends: bool)
    requires InRange(parent) && node < |parent|
    ensures ends <==> Grounded(parent, node)
  {
    var at: nat := node;
    var steps: nat := 0;
    while parent[at].Some?
      invariant at < |parent|
      invariant forall d: nat :: Reaches(parent, node, d + steps) == Reaches(parent, at, d)
      invariant forall d: nat :: Reaches(parent, node, d) ==> d >= steps
      decreases |parent| + 1 - steps
    {
      var up := parent[at].value;
      if up == node || steps > |parent| {
        NeverEnds(parent, node, at, steps);
        return false;
      }
      OneStepOn(parent, node, at, steps);
      at := up;
      steps := steps + 1;
    }
    assert Reaches(parent, at, 0);
    assert Reaches(parent, node, 0 + steps);
    return true;
  }

  // ---- what is cut ----

  /** Exactly `d` steps up from `i` stand on `j`. */
  ghost predicate Comes(parent: Relation, i: nat, d: nat, j: nat)
    requires InRange(parent) && i < |parent|
    decreases d
  {
    if d == 0 then i == j else parent[i].Some? && Comes(parent, parent[i].value, d - 1, j)
  }

  /** No node on the way up from `i` has a lower number. */
  ghost predicate LeastOnWay(parent: Relation, i: nat)
    requires InRange(parent) && i < |parent|
  {
    forall d: nat, j: nat :: Comes(parent, i, d, j) ==> i <= j
  }

  /** What is left of the edge of node `i`: none when its way up does not end and meets no node before `i`.
      So a loop loses the edge of its first node, and what hangs on it keeps all that come after. */
  ghost function Uncut(parents: Relation, i: nat): Option<nat>
    requires InRange(parents) && i < |parents|
  {
    if !Grounded(parents, i) && LeastOnWay(parents, i) then None else parents[i]
  }

  /** The nodes before `n` have been looked at: each has what Uncut leaves it, and a root. */
  ghost predicate CutUpTo(parents: Relation, parent: Relation, n: nat)
    requires InRange(parents) && n <= |parents|
  {
    && |parent| == |parents| && InRange(parent)
    && (forall i :: 0 <= i < n ==> parent[i] == Uncut(parents, i) && Grounded(parent, i))
    && (forall i :: n <= i < |parent| ==> parent[i] == parents[i])
  }

  /** A way up that comes to a node with a root ends, wherever it has been cut short. */
  lemma {:induction false} ComesToGround(parents: Relation, parent: Relation, i: nat, d: nat, j: nat)
    requires InRange(parents) && InRange(parent) && |parent| == |parents| && i < |parents| && j < |parents|
    requires forall k :: 0 <= k < |parent| ==> parent[k] == parents[k] || parent[k].None?
    requires Comes(parents, i, d, j) && Grounded(parent, j)
    ensures Grounded(parent, i)
    decreases d
  {
    if parent[i].None? {
      assert Reaches(parent, i, 0);
    } else if d > 0 {
      ComesToGround(parents, parent, parents[i].value, d - 1, j);
      var e: nat :| Reaches(parent, parents[i].value, e);
      assert Reaches(parent, i, e + 1);
    }
  }

  /** Where nothing has been cut on the way up, it ends only if it did before. */
  lemma {:induction false} UncutWayEnds(parents: Relation, parent: Relation, n: nat, i: nat, d: nat)
    requires InRange(parents) && InRange(parent) && |parent| == |parents| && i < |parents|
    requires forall k :: n <= k < |parent| ==> parent[k] == parents[k]
    requires forall e: nat, j: nat :: Comes(parents, i, e, j) ==> n <= j
    requires Reaches(parent, i, d)
    ensures Reaches(parents, i, d)
    decreases d
  {
    assert Comes(parents, i, 0, i);
    if parent[i].Some? {
      forall e: nat, j: nat | Comes(parents, parents[i].value, e, j)
        ensures n <= j
      {
        assert Comes(parents, i, e + 1, j);
      }
      UncutWayEnds(parents, parent, n, parents[i].value, d - 1);
    }
  }

  /** The next node is to be cut exactly when its way up, as it is by then, does not end. */
  lemma CutNext(parents: Relation, parent: Relation, n: nat)
    requires InRange(parents) && n < |parents| && CutUpTo(parents, parent, n)
    ensures Grounded(parent, n) ==> CutUpTo(parents, parent, n + 1)
    ensures !Grounded(parent, n) ==> CutUpTo(parents, parent[n := None], n + 1)
  {
    NextIsCut(parents, parent, n);
    if !Grounded(parent, n) {
      var cut := parent[n := None];
      assert Reaches(cut, n, 0);
      forall i | 0 <= i < n
        ensures Grounded(cut, i)
      {
        var d: nat :| Reaches(parent, i, d);
        CutKeepsGround(parent, n, i, d);
      }
    }
  }

  lemma NextIsCut(parents: Relation, parent: Relation, n: nat)
    requires InRange(parents) && n < |parents| && CutUpTo(parents, parent, n)
    ensures Uncut(parents, n) == if Grounded(parent, n) then parents[n] else None
  {
    if Grounded(parents, n) {
      var d: nat :| Reaches(parents, n, d);
      GroundKept(parents, parent, n, d);
      assert Grounded(parent, n);
    } else if LeastOnWay(parents, n) {
      if d: nat :| Reaches(parent, n, d) {
        UncutWayEnds(parents, parent, n, n, d);
      }
    } else {
      var d: nat, j: nat :| Comes(parents, n, d, j) && j < n;
      ComesToGround(parents, parent, n, d, j);
    }
  }

  /** A relation cut to the end is a forest that leaves every edge of a node with a root of its own. */
  lemma AllCut(parents: Relation, parent: Relation)
    requires InRange(parents) && CutUpTo(parents, parent, |parents|)
    ensures Forest(parent) && (Forest(parents) ==> parent == parents)
    ensures forall i :: 0 <= i < |parent| ==> parent[i] == parents[i] || parent[i].None?
    ensures forall i :: 0 <= i < |parent| && Grounded(parents, i) ==> parent[i] == parents[i]
  {
  }

  /** Cuts the edge of every node from which no root is reached by then, one after the other. What is cut is
      exactly what Uncut says, and a forest is left. */
  method CutLoops(parents: Relation) returns (parent: Relation)
    requires InRange(parents)
    ensures |parent| == |parents| && Forest(parent)
    ensures forall i :: 0 <= i < |parent| ==> parent[i] == Uncut(parents, i)
    ensures forall i :: 0 <= i < |parent| && Grounded(parents, i) ==> parent[i] == parents[i]
    ensures Forest(parents) ==> parent == parents
  {
    hide Grounded, Uncut;
    parent := parents;
    for node := 0 to |parents|
      invariant CutUpTo(parents, parent, node)
    {
      CutNext(parents, parent, node);
      var ends := WalkEnds(parent, node);
      if !ends {
        parent := parent[node := None];
      }
    }
    AllCut(parents, parent);
  }

  /** Three nodes in one loop: only the first is cut loose, and the others hang under it in a row. */
  lemma ThreeInALoop()
    ensures var parents: Relation := [Some(2), Some(0), Some(1)];
            Uncut(parents, 0) == None && Uncut(parents, 1) == Some(0) && Uncut(parents, 2) == Some(1)
  {
    var parents: Relation := [Some(2), Some(0), Some(1)];
    forall i: nat, d: nat | i < 3
      ensures !Reaches(parents, i, d)
    {
      LoopOfThree(parents, i, d);
    }
    assert LeastOnWay(parents, 0) by {
      forall d: nat, j: nat | Comes(parents, 0, d, j)
        ensures 0 <= j
      {
      }
    }
    assert Comes(parents, 0, 0, 0);
    assert Comes(parents, 1, 1, 0);
    assert Comes(parents, 1, 1, 0) && Comes(parents, 2, 2, 0);
  }

  lemma {:induction false} LoopOfThree(parents: Relation, i: nat, d: nat)
    requires parents == [Some(2), Some(0), Some(1)] && i < 3
    ensures !Reaches(parents, i, d)
    decreases d
  {
    if d > 0 {
      LoopOfThree(parents, parents[i].value, d - 1);
    }
  }
}
