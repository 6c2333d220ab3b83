/** Union-find with path halving: its roots tell exactly which containers a chain of edges joins. */
module Families {
  import opened Options
  import Sorting

  type Edges = seq<Option<nat>>

  // ---- being connected ----

  /** An edge of the parent relation, read in either direction. */
  ghost predicate Edge(parents: Edges, count: nat, i: nat, j: nat) {
    && i < count && j < count
    && ((i < |parents| && parents[i] == Some(j)) || (j < |parents| && parents[j] == Some(i)))
  }

  ghost predicate Step(parents: Edges, count: nat, p: seq<nat>, k: nat)
    requires k + 1 < |p|
  {
    Edge(parents, count, p[k], p[k + 1])
  }

  /** Each step of `p` is an edge. */
  ghost predicate Walk(parents: Edges, count: nat, p: seq<nat>) {
    && p != [] && (forall k :: 0 <= k < |p| ==> p[k] < count)
    && (forall k :: 0 <= k < |p| - 1 ==> Step(parents, count, p, k))
  }

  ghost predicate Linked(parents: Edges, count: nat, i: nat, j: nat) {
    exists p :: Walk(parents, count, p) && p[0] == i && p[|p| - 1] == j
  }

  lemma LinkedSelf(parents: Edges, count: nat, i: nat)
    requires i < count
    ensures Linked(parents, count, i, i)
  {
    assert Walk(parents, count, [i]);
  }

  lemma EdgeLinks(parents: Edges, count: nat, i: nat, j: nat)
    requires Edge(parents, count, i, j)
    ensures Linked(parents, count, i, j)
  {
    assert Walk(parents, count, [i, j]);
  }

  lemma LinkedThrough(parents: Edges, count: nat, i: nat, j: nat, k: nat)
    requires Linked(parents, count, i, j) && Linked(parents, count, j, k)
    ensures Linked(parents, count, i, k)
  {
    var p :| Walk(parents, count, p) && p[0] == i && p[|p| - 1] == j;
    var q :| Walk(parents, count, q) && q[0] == j && q[|q| - 1] == k;
    var r := p + q[1..];
    forall m | 0 <= m < |r| - 1
      ensures Step(parents, count, r, m)
    {
      if m < |p| - 1 {
        assert Step(parents, count, p, m);
      } else {
        assert Step(parents, count, q, m - |p| + 1);
      }
    }
    assert Walk(parents, count, r) && r[0] == i && r[|r| - 1] == k;
  }

  lemma LinkedBack(parents: Edges, count: nat, i: nat, j: nat)
    requires Linked(parents, count, i, j)
    ensures Linked(parents, count, j, i)
  {
    var p :| Walk(parents, count, p) && p[0] == i && p[|p| - 1] == j;
    var n := |p|;
    var r := seq(n, k requires 0 <= k < n => p[n - 1 - k]);
    forall m | 0 <= m < n - 1
      ensures Step(parents, count, r, m)
    {
      assert Step(parents, count, p, n - 2 - m);
    }
    assert Walk(parents, count, r);
  }

  // ---- the union-find forest ----

  /** Every step up that is not a root's gains rank, so walking up ends. */
  ghost predicate Ranked(up: seq<nat>, rank: seq<nat>) {
    && |up| == |rank|
    && (forall i :: 0 <= i < |up| ==> up[i] < |up|)
    && (forall i :: 0 <= i < |up| && up[i] != i ==> rank[i] < rank[up[i]])
  }

  ghost function RootOf(up: seq<nat>, rank: seq<nat>, i: nat): (r: nat)
    requires Ranked(up, rank) && i < |up|
    ensures r < |up| && up[r] == r && rank[i] <= rank[r]
    decreases Sorting.Greatest(rank) - rank[i]
  {
    if up[i] == i then i else RootOf(up, rank, up[i])
  }

  /** Pointing a node at its grandparent changes no root. */
  lemma {:induction false} HalvingKeepsRoots(up: seq<nat>, rank: seq<nat>, at: nat, i: nat)
    requires Ranked(up, rank) && at < |up| && i < |up|
    ensures Ranked(up[at := up[up[at]]], rank)
    ensures RootOf(up[at := up[up[at]]], rank, i) == RootOf(up, rank, i)
    decreases Sorting.Greatest(rank) - rank[i]
  {
    var halved := up[at := up[up[at]]];
    if up[i] != i {
      HalvingKeepsRoots(up, rank, at, up[i]);
      if i == at && up[up[i]] != up[i] {
        HalvingKeepsRoots(up, rank, at, up[up[i]]);
      }
    }
  }

  /** Hanging root `a` under root `b` moves exactly the nodes of `a` to `b`. */
  lemma {:induction false} UnionMovesRoots(up: seq<nat>, rank: seq<nat>, rank': seq<nat>, a: nat, b: nat, i: nat)
    requires Ranked(up, rank) && a < |up| && b < |up| && a != b && up[a] == a && up[b] == b && i < |up|
    requires |rank'| == |rank| && rank' == rank[b := rank'[b]] && rank'[b] >= rank[b] && rank'[b] > rank[a]
    ensures Ranked(up[a := b], rank')
    ensures RootOf(up[a := b], rank', i) == if RootOf(up, rank, i) == a then b else RootOf(up, rank, i)
    decreases Sorting.Greatest(rank) - rank[i]
  {
    if up[i] != i {
      UnionMovesRoots(up, rank, rank', a, b, up[i]);
    }
  }

  method Find(up: array<nat>, at: nat, ghost rank: seq<nat>) returns (root: nat)
    requires Ranked(up[..], rank) && at < up.Length
    modifies up
    ensures Ranked(up[..], rank) && root == RootOf(up[..], rank, at)
    ensures forall i :: 0 <= i < up.Length ==> RootOf(up[..], rank, i) == RootOf(old(up[..]), rank, i)
  {
    root := at;
    while up[root] != root
      invariant Ranked(up[..], rank) && root < up.Length
      invariant RootOf(up[..], rank, root) == RootOf(old(up[..]), rank, at)
      invariant forall i :: 0 <= i < up.Length ==> RootOf(up[..], rank, i) == RootOf(old(up[..]), rank, i)
      decreases Sorting.Greatest(rank) - rank[root]
    {
      ghost var before := up[..];
      up[root] := up[up[root]];
      assert up[..] == before[root := before[before[root]]];
      forall i | 0 <= i < up.Length
        ensures RootOf(up[..], rank, i) == RootOf(before, rank, i)
      {
        HalvingKeepsRoots(before, rank, root, i);
      }
      root := up[root];
    }
  }

  /** The root of each node. */
  ghost function Roots(up: seq<nat>, rank: seq<nat>): (r: seq<nat>)
    requires Ranked(up, rank)
    ensures |r| == |up| && forall i :: 0 <= i < |r| ==> r[i] == RootOf(up, rank, i)
  {
    seq(|up|, i requires 0 <= i < |up| => RootOf(up, rank, i))
  }

  /** Roots only ever bring together linked nodes, and bring together the ends of the first `n` edges. */
  ghost predicate Merged(parents: Edges, root: seq<nat>, n: nat) {
    && (forall i :: 0 <= i < |root| ==> Linked(parents, |root|, i, root[i]))
    && (forall k :: 0 <= k < n && k < |parents| && k < |root| && parents[k].Some? && parents[k].value < |root|
          ==> root[k] == root[parents[k].value])
  }

  lemma UnionMerges(parents: Edges, root: seq<nat>, root': seq<nat>, n: nat, above: nat)
    requires n < |parents| && n < |root| && parents[n] == Some(above) && above < |root|
    requires Merged(parents, root, n)
    requires |root'| == |root|
    requires forall i :: 0 <= i < |root| ==> root'[i] == if root[i] == root[n] then root[above] else root[i]
    ensures Merged(parents, root', n + 1)
  {
    forall i | 0 <= i < |root|
      ensures Linked(parents, |root|, i, root'[i])
    {
      if root[i] == root[n] {
        LinkedBack(parents, |root|, n, root[n]);
        LinkedThrough(parents, |root|, i, root[n], n);
        EdgeLinks(parents, |root|, n, above);
        LinkedThrough(parents, |root|, i, n, above);
        LinkedThrough(parents, |root|, i, above, root[above]);
      }
    }
  }

  lemma {:induction false} WalkKeepsRoot(parents: Edges, root: seq<nat>, p: seq<nat>)
    requires Merged(parents, root, |parents|) && Walk(parents, |root|, p)
    ensures root[p[0]] == root[p[|p| - 1]]
  {
    if |p| > 1 {
      var n := |p| - 1;
      forall k | 0 <= k < n - 1
        ensures Step(parents, |root|, p[..n], k)
      {
        assert Step(parents, |root|, p, k);
      }
      WalkKeepsRoot(parents, root, p[..n]);
      assert Step(parents, |root|, p, n - 1);
    }
  }

  /** Two nodes have one root exactly when they are linked. */
  lemma RootsAreFamilies(parents: Edges, root: seq<nat>, i: nat, j: nat)
    requires Merged(parents, root, |parents|) && i < |root| && j < |root|
    ensures root[i] == root[j] <==> Linked(parents, |root|, i, j)
  {
    if root[i] == root[j] {
      LinkedBack(parents, |root|, j, root[j]);
      LinkedThrough(parents, |root|, i, root[i], j);
    }
    if Linked(parents, |root|, i, j) {
      var p :| Walk(parents, |root|, p) && p[0] == i && p[|p| - 1] == j;
      WalkKeepsRoot(parents, root, p);
    }
  }

  /** Hangs the root of `node` under the root of `above`. */
  method Join(up: array<nat>, node: nat, above: nat, ghost rank: seq<nat>) returns (ghost rank': seq<nat>)
    requires Ranked(up[..], rank) && node < up.Length && above < up.Length
    modifies up
    ensures Ranked(up[..], rank')
    ensures var root := Roots(old(up[..]), rank);
            forall i :: 0 <= i < up.Length ==>
              Roots(up[..], rank')[i] == if root[i] == root[node] then root[above] else root[i]
  {
    rank' := rank;
    var a: nat := Find(up, node, rank);
    var b: nat := Find(up, above, rank);
    if a != b {
      ghost var before := up[..];
      rank' := rank[b := rank[a] + rank[b] + 1];
      up[a] := b;
      assert up[..] == before[a := b];
      forall i | 0 <= i < up.Length
        ensures Ranked(up[..], rank')
        ensures RootOf(up[..], rank', i) == if RootOf(before, rank, i) == a then b else RootOf(before, rank, i)
      {
        UnionMovesRoots(before, rank, rank', a, b, i);
      }
    }
  }

  // ---- the groups ----

  /** `groups[k]` lists, in order, the nodes below `n` whose mark is `keys[k]`; no mark is left out. */
  ghost predicate Grouped(keys: seq<nat>, groups: seq<seq<nat>>, mark: seq<nat>, n: nat)
    requires n <= |mark|
  {
    && |keys| == |groups|
    && (forall j, k :: 0 <= j < k < |keys| ==> keys[j] != keys[k])
    && (forall k :: 0 <= k < |keys| ==> Group(groups[k], keys[k], mark, n))
    && (forall i :: 0 <= i < n ==> mark[i] in keys)
    && FirstMembersRise(groups)
  }

  /** The groups come in the order of their first members. */
  ghost predicate FirstMembersRise(groups: seq<seq<nat>>) {
    && (forall k :: 0 <= k < |groups| ==> groups[k] != [])
    && (forall j, k :: 0 <= j < k < |groups| ==> groups[j][0] < groups[k][0])
  }

  ghost predicate Group(group: seq<nat>, key: nat, mark: seq<nat>, n: nat)
    requires n <= |mark|
  {
    && group != []
    && (forall a, b :: 0 <= a < b < |group| ==> group[a] < group[b])
    && (forall i :: i in group <==> 0 <= i < n && mark[i] == key)
  }

  lemma GroupGrows(group: seq<nat>, key: nat, mark: seq<nat>, n: nat)
    requires n < |mark| && (group == [] || Group(group, key, mark, n))
    requires group == [] ==> forall i :: 0 <= i < n ==> mark[i] != key
    ensures mark[n] == key ==> Group(group + [n], key, mark, n + 1)
    ensures mark[n] != key && group != [] ==> Group(group, key, mark, n + 1)
  {
    assert forall a :: 0 <= a < |group| ==> group[a] in group;
  }

  lemma NewGroupRises(keys: seq<nat>, groups: seq<seq<nat>>, mark: seq<nat>, n: nat)
    requires n < |mark| && Grouped(keys, groups, mark, n)
    ensures FirstMembersRise(groups + [[n]])
  {
    forall k | 0 <= k < |groups|
      ensures groups[k][0] < n
    {
      assert Group(groups[k], keys[k], mark, n) && groups[k][0] in groups[k];
    }
  }

  lemma LongerGroupRises(groups: seq<seq<nat>>, k: nat, node: nat)
    requires FirstMembersRise(groups) && k < |groups|
    ensures FirstMembersRise(groups[k := groups[k] + [node]])
  {
  }

  method AddTo(keys: seq<nat>, groups: seq<seq<nat>>, key: nat, node: nat, ghost mark: seq<nat>)
    returns (keys': seq<nat>, groups': seq<seq<nat>>)
    requires node < |mark| && mark[node] == key && Grouped(keys, groups, mark, node)
    ensures Grouped(keys', groups', mark, node + 1)
  {
    hide FirstMembersRise;
    forall k | 0 <= k < |keys|
      ensures keys[k] == key ==> Group(groups[k] + [node], keys[k], mark, node + 1)
      ensures keys[k] != key ==> Group(groups[k], keys[k], mark, node + 1)
    {
      GroupGrows(groups[k], keys[k], mark, node);
    }
    var k := 0;
    while k < |keys| && keys[k] != key
      invariant 0 <= k <= |keys|
      invariant key !in keys[..k]
    {
      k := k + 1;
    }
    keys', groups' := keys, groups;
    if k == |keys| {
      assert key !in keys by {
        assert keys[..k] == keys;
      }
      GroupGrows([], key, mark, node);
      assert [] + [node] == [node];
      assert forall i :: 0 <= i < node ==> mark[i] != key;
      NewGroupRises(keys, groups, mark, node);
      keys', groups' := keys + [key], groups + [[node]];
    } else {
      LongerGroupRises(groups, k, node);
      groups' := groups[k := groups[k] + [node]];
    }
  }

  ghost predicate Held(groups: seq<seq<nat>>, i: nat) {
    exists k :: 0 <= k < |groups| && i in groups[k]
  }

  /** Every node is in exactly one group, once. */
  ghost predicate Partition(groups: seq<seq<nat>>, count: nat) {
    && (forall k, i :: 0 <= k < |groups| && i in groups[k] ==> i < count)
    && (forall i :: 0 <= i < count ==> Held(groups, i))
    && (forall j, k, i :: 0 <= j < k < |groups| && i in groups[j] ==> i !in groups[k])
    && (forall k, a, b :: 0 <= k < |groups| && 0 <= a < b < |groups[k]| ==> groups[k][a] < groups[k][b])
  }

  /** The groups are exactly the connected components of the parent relation, each in order, and the groups in
      the order of their first members. */
  method FamiliesOf(count: nat, parents: Edges) returns (groups: seq<seq<nat>>)
    requires |parents| <= count
    ensures Partition(groups, count) && FirstMembersRise(groups)
    ensures forall k, i, j :: 0 <= k < |groups| && i in groups[k] && 0 <= j < count ==>
      (j in groups[k] <==> Linked(parents, count, i, j))
  {
    var up := new nat[count](i => i);
    ghost var rank := JoinAll(up, parents);
    ghost var root := Roots(up[..], rank);
    var keys: seq<nat> := [];
    groups := [];
    for node := 0 to count
      invariant Ranked(up[..], rank) && Roots(up[..], rank) == root
      invariant Grouped(keys, groups, root, node)
    {
      var key := Find(up, node, rank);
      keys, groups := AddTo(keys, groups, key, node, root);
    }
    GroupsAreFamilies(parents, root, keys, groups);
  }

  /** Joins the two ends of every edge. */
  method JoinAll(up: array<nat>, parents: Edges) returns (ghost rank: seq<nat>)
    requires |parents| <= up.Length && forall i :: 0 <= i < up.Length ==> up[i] == i
    modifies up
    ensures Ranked(up[..], rank) && Merged(parents, Roots(up[..], rank), |parents|)
  {
    rank := seq(up.Length, _ => 0);
    forall i | 0 <= i < up.Length
      ensures Linked(parents, up.Length, i, i)
    {
      LinkedSelf(parents, up.Length, i);
    }
    for node := 0 to |parents|
      invariant Ranked(up[..], rank)
      invariant Merged(parents, Roots(up[..], rank), node)
    {
      var above := parents[node];
      if above.None? || above.value >= up.Length {
        continue;
      }
      ghost var root := Roots(up[..], rank);
      rank := Join(up, node, above.value, rank);
      UnionMerges(parents, root, Roots(up[..], rank), node, above.value);
    }
  }

  lemma GroupsAreFamilies(parents: Edges, root: seq<nat>, keys: seq<nat>, groups: seq<seq<nat>>)
    requires Merged(parents, root, |parents|) && Grouped(keys, groups, root, |root|)
    ensures Partition(groups, |root|) && FirstMembersRise(groups)
    ensures forall k, i, j :: 0 <= k < |groups| && i in groups[k] && 0 <= j < |root| ==>
      (j in groups[k] <==> Linked(parents, |root|, i, j))
  {
    assert forall k :: 0 <= k < |keys| ==> Group(groups[k], keys[k], root, |root|);
    forall i | 0 <= i < |root|
      ensures Held(groups, i)
    {
      var k :| 0 <= k < |keys| && keys[k] == root[i];
      assert i in groups[k];
    }
    forall k, i, j | 0 <= k < |groups| && i in groups[k] && 0 <= j < |root|
      ensures j in groups[k] <==> Linked(parents, |root|, i, j)
    {
      RootsAreFamilies(parents, root, i, j);
    }
  }
}
