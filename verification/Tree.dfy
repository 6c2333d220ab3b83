/** The tidy-tree packer: a forest of boxes, each parent centred over the row of its children. */
module Tree {
  import opened Geometry
  import opened Options
  import opened Parents
  import opened Sorting

  predicate AllBelow(kids: seq<nat>, n: nat) {
    forall j :: 0 <= j < |kids| ==> kids[j] < n
  }

  /** How wide a run of strips is when each is followed by a gap. */
  ghost function Offset(kids: seq<nat>, span: seq<real>, gap: real): real
    requires AllBelow(kids, |span|)
  {
    if kids == [] then 0.0
    else Offset(kids[..|kids| - 1], span, gap) + span[kids[|kids| - 1]] + gap
  }

  function Total(kids: seq<nat>, span: seq<real>): real
    requires AllBelow(kids, |span|)
  {
    if kids == [] then 0.0 else Total(kids[..|kids| - 1], span) + span[kids[|kids| - 1]]
  }

  /** The strips of the children side by side, with a gap between each two. */
  function Brood(kids: seq<nat>, span: seq<real>, gap: real): real
    requires AllBelow(kids, |span|)
  {
    if kids == [] then 0.0 else Total(kids, span) + gap * (|kids| - 1) as real
  }

  lemma {:induction false} BroodIsOffset(kids: seq<nat>, span: seq<real>, gap: real)
    requires AllBelow(kids, |span|)
    ensures kids != [] ==> Brood(kids, span, gap) == Offset(kids, span, gap) - gap
    ensures Offset(kids, span, gap) == Total(kids, span) + gap * |kids| as real
  {
    if kids != [] {
      var n := |kids| - 1;
      BroodIsOffset(kids[..n], span, gap);
      assert gap * (n + 1) as real == gap * n as real + gap;
    }
  }

  /** Offsets grow along the row, by at least the strip passed over. */
  lemma {:induction false} OffsetGrows(kids: seq<nat>, span: seq<real>, gap: real, i: nat, j: nat)
    requires AllBelow(kids, |span|)
    requires forall k :: 0 <= k < |span| ==> span[k] >= 0.0
    requires gap >= 0.0 && i < j <= |kids|
    ensures Offset(kids[..i], span, gap) + span[kids[i]] + gap <= Offset(kids[..j], span, gap)
    decreases j
  {
    assert kids[..j][..j - 1] == kids[..j - 1];
    if i < j - 1 {
      OffsetGrows(kids, span, gap, i, j - 1);
    }
  }

  lemma {:induction false} OffsetNatural(kids: seq<nat>, span: seq<real>, gap: real)
    requires AllBelow(kids, |span|)
    requires forall k :: 0 <= k < |span| ==> span[k] >= 0.0
    requires gap >= 0.0
    ensures Offset(kids, span, gap) >= 0.0
  {
    if kids != [] {
      OffsetNatural(kids[..|kids| - 1], span, gap);
    }
  }

  // ---- the shape of the forest ----

  ghost predicate Ascending(s: seq<nat>) {
    forall i, j :: 0 <= i < j < |s| ==> s[i] < s[j]
  }

  /** `kids` lists, in order, exactly the nodes below `n` hanging from `up`. */
  ghost predicate Lists(kids: seq<nat>, parent: Relation, up: Option<nat>, n: nat)
    requires n <= |parent|
  {
    && Ascending(kids)
    && AllBelow(kids, n)
    && (forall c :: c in kids <==> 0 <= c < n && parent[c] == up)
  }

  ghost predicate AllListed(children: seq<seq<nat>>, parent: Relation, n: nat)
    requires n <= |parent|
  {
    && |children| == |parent|
    && (forall p :: 0 <= p < |parent| ==> Lists(children[p], parent, Some(p), n))
  }

  lemma ListsNext(kids: seq<nat>, parent: Relation, up: Option<nat>, n: nat)
    requires n < |parent| && Lists(kids, parent, up, n)
    ensures Lists(if parent[n] == up then kids + [n] else kids, parent, up, n + 1)
  {
  }

  lemma AllListedNext(children: seq<seq<nat>>, next: seq<seq<nat>>, parent: Relation, n: nat)
    requires n < |parent| && AllListed(children, parent, n) && |next| == |parent|
    requires forall p :: 0 <= p < |parent| ==>
      next[p] == if parent[n] == Some(p) then children[p] + [n] else children[p]
    ensures AllListed(next, parent, n + 1)
  {
    forall p | 0 <= p < |parent|
      ensures Lists(next[p], parent, Some(p), n + 1)
    {
      ListsNext(children[p], parent, Some(p), n);
    }
  }

  method ChildrenOf(parent: Relation) returns (children: seq<seq<nat>>)
    requires InRange(parent)
    ensures AllListed(children, parent, |parent|)
  {
    children := seq(|parent|, _ => []);
    for node := 0 to |parent|
      invariant AllListed(children, parent, node)
    {
      ghost var before := children;
      if parent[node].Some? {
        var up := parent[node].value;
        children := children[up := children[up] + [node]];
      }
      AllListedNext(before, children, parent, node);
    }
  }

  /** How far below its root each node hangs. */
  ghost predicate Depths(depth: seq<nat>, parent: Relation)
    requires InRange(parent)
  {
    |depth| == |parent| && forall i :: 0 <= i < |parent| ==> Reaches(parent, i, depth[i])
  }

  method DepthsOf(parent: Relation) returns (depth: seq<nat>)
    requires Forest(parent)
    ensures Depths(depth, parent)
  {
    depth := seq(|parent|, _ => 0);
    for node := 0 to |parent|
      invariant |depth| == |parent|
      invariant forall i :: 0 <= i < node ==> Reaches(parent, i, depth[i])
      invariant forall i :: node <= i < |parent| ==> depth[i] == 0
    {
      assert Grounded(parent, node);
      ghost var d: nat :| Reaches(parent, node, d);
      var up: Option<nat> := parent[node];
      while up.Some?
        invariant |depth| == |parent| && depth[node] <= d
        invariant forall i :: 0 <= i < node ==> Reaches(parent, i, depth[i])
        invariant forall i :: node < i < |parent| ==> depth[i] == 0
        invariant up.None? ==> depth[node] == d
        invariant up.Some? ==> up.value < |parent| && depth[node] < d && Reaches(parent, up.value, d - (depth[node] + 1))
        decreases d - depth[node]
      {
        depth := depth[node := depth[node] + 1];
        up := parent[up.value];
      }
    }
  }

  // ---- rows ----

  /** The rows: each starts a gap under the tallest box of the row above. */
  ghost predicate Rows(rowH: seq<real>, rowY: seq<real>, sizes: seq<Size>, depth: seq<nat>, gap: real) {
    && |sizes| == |depth| && |rowH| == |rowY| && rowY != [] && rowY[0] == 0.0
    && (forall i :: 0 <= i < |depth| ==> depth[i] < |rowH| && sizes[i].h <= rowH[depth[i]])
    && (forall r :: 0 <= r < |rowH| ==>
          rowH[r] == 0.0 || exists i :: 0 <= i < |depth| && depth[i] == r && rowH[r] == sizes[i].h)
    && (forall r :: 0 <= r < |rowH| ==> rowH[r] >= 0.0)
    && (forall r :: 0 < r < |rowY| ==> rowY[r] == rowY[r - 1] + rowH[r - 1] + gap)
  }

  method RowsOf(sizes: seq<Size>, depth: seq<nat>, gap: real) returns (rowH: seq<real>, rowY: seq<real>)
    requires |sizes| == |depth| && AllNatural(sizes)
    ensures Rows(rowH, rowY, sizes, depth, gap)
  {
    hide Greatest;
    var deepest := Greatest(depth);
    rowH := seq(deepest + 1, _ => 0.0);
    for n := 0 to |sizes|
      invariant |rowH| == deepest + 1
      invariant forall i :: 0 <= i < n ==> sizes[i].h <= rowH[depth[i]]
      invariant forall r :: 0 <= r < |rowH| ==> rowH[r] >= 0.0
      invariant forall r :: 0 <= r < |rowH| ==>
        rowH[r] == 0.0 || exists i :: 0 <= i < n && depth[i] == r && rowH[r] == sizes[i].h
    {
      rowH := rowH[depth[n] := Max(rowH[depth[n]], sizes[n].h)];
    }
    rowY := seq(deepest + 1, _ => 0.0);
    for row := 1 to deepest + 1
      invariant |rowY| == deepest + 1 && rowY[0] == 0.0
      invariant forall r :: 0 < r < row ==> rowY[r] == rowY[r - 1] + rowH[r - 1] + gap
    {
      rowY := rowY[row := rowY[row - 1] + rowH[row - 1] + gap];
    }
  }

  lemma {:induction false} RowsDescend(rowH: seq<real>, rowY: seq<real>, sizes: seq<Size>, depth: seq<nat>, gap: real, r: nat, s: nat)
    requires Rows(rowH, rowY, sizes, depth, gap) && gap >= 0.0 && r < s < |rowY|
    ensures rowY[r] + rowH[r] + gap <= rowY[s]
    decreases s
  {
    if r < s - 1 {
      RowsDescend(rowH, rowY, sizes, depth, gap, r, s - 1);
    }
  }

  // ---- strips ----

  /** The width a node needs: its own box, or the row of its children when that is wider. */
  ghost predicate SpanIs(span: seq<real>, sizes: seq<Size>, kids: seq<nat>, gap: real, i: nat)
    requires i < |span| == |sizes| && AllBelow(kids, |span|)
  {
    span[i] == if kids == [] then sizes[i].w else Max(sizes[i].w, Brood(kids, span, gap))
  }

  lemma {:induction false} TotalSame(kids: seq<nat>, span: seq<real>, span': seq<real>)
    requires |span| == |span'| && AllBelow(kids, |span|)
    requires forall j :: 0 <= j < |kids| ==> span[kids[j]] == span'[kids[j]]
    ensures Total(kids, span) == Total(kids, span')
  {
    if kids != [] {
      TotalSame(kids[..|kids| - 1], span, span');
    }
  }

  function Shallow(depth: seq<nat>): nat -> real {
    (i: nat) => if i < |depth| then -(depth[i] as real) else 0.0
  }

  lemma ChildIsDeeper(parent: Relation, depth: seq<nat>, c: nat)
    requires InRange(parent) && Depths(depth, parent) && c < |parent| && parent[c].Some?
    ensures depth[c] == depth[parent[c].value] + 1
  {
    ReachesOnce(parent, parent[c].value, depth[c] - 1, depth[parent[c].value]);
  }

  /** Widening `node` leaves the strips of nodes it does not hang from as they are. */
  lemma SpanElsewhere(span: seq<real>, span': seq<real>, sizes: seq<Size>, kids: seq<nat>, gap: real, i: nat, node: nat)
    requires i < |span| == |sizes| == |span'| && AllBelow(kids, |span|)
    requires node < |span| && span' == span[node := span'[node]]
    requires node !in kids && (i == node || SpanIs(span, sizes, kids, gap, i))
    requires i == node ==> span'[i] == if kids == [] then sizes[i].w else Max(sizes[i].w, Brood(kids, span, gap))
    ensures SpanIs(span', sizes, kids, gap, i)
  {
    TotalSame(kids, span, span');
  }

  /** No node hangs from one that is as deep or deeper. */
  lemma NotAbove(parent: Relation, children: seq<seq<nat>>, depth: seq<nat>, i: nat, node: nat)
    requires InRange(parent) && AllListed(children, parent, |parent|) && Depths(depth, parent)
    requires i < |parent| && node < |parent| && depth[node] <= depth[i]
    ensures node !in children[i]
  {
    if node in children[i] {
      ChildIsDeeper(parent, depth, node);
    }
  }

  /** The nodes, deepest first. */
  method DeepestFirst(depth: seq<nat>) returns (order: seq<nat>)
    ensures Permutation(order, |depth|) && SortedBy(Shallow(depth), order)
    ensures forall k :: 0 <= k < |order| ==> order[k] < |depth|
  {
    order := SortBy(Shallow(depth), Range(|depth|));
    SortedRange(Shallow(depth), |depth|);
    assert forall k :: 0 <= k < |order| ==> order[k] in order;
  }

  lemma DeeperFirst(depth: seq<nat>, order: seq<nat>, i: nat, j: nat)
    requires SortedBy(Shallow(depth), order) && Permutation(order, |depth|)
    requires i <= j < |depth|
    ensures order[i] < |depth| && order[j] < |depth| && depth[order[j]] <= depth[order[i]]
  {
    assert order[i] in order && order[j] in order;
    if i < j {
      assert Shallow(depth)(order[i]) <= Shallow(depth)(order[j]);
    }
  }

  method SpansOf(sizes: seq<Size>, parent: Relation, children: seq<seq<nat>>, depth: seq<nat>, gap: real) returns (span: seq<real>)
    requires |sizes| == |parent| && AllNatural(sizes) && gap >= 0.0
    requires InRange(parent) && AllListed(children, parent, |parent|) && Depths(depth, parent)
    ensures |span| == |sizes| && forall i :: 0 <= i < |span| ==> span[i] >= sizes[i].w && SpanIs(span, sizes, children[i], gap, i)
  {
    span := seq(|sizes|, i requires 0 <= i < |sizes| => sizes[i].w);
    var order := DeepestFirst(depth);
    for n := 0 to |order|
      invariant |span| == |sizes|
      invariant forall i :: 0 <= i < |span| ==> span[i] >= sizes[i].w
      invariant forall k :: n <= k < |order| ==> order[k] < |span| && span[order[k]] == sizes[order[k]].w
      invariant forall k :: 0 <= k < n ==> order[k] < |span| && SpanIs(span, sizes, children[order[k]], gap, order[k])
    {
      var node := order[n];
      ghost var before := span;
      if children[node] != [] {
        span := span[node := Max(span[node], Brood(children[node], span, gap))];
      }
      forall k | 0 <= k <= n
        ensures SpanIs(span, sizes, children[order[k]], gap, order[k])
      {
        DeeperFirst(depth, order, k, n);
        NotAbove(parent, children, depth, order[k], node);
        SpanElsewhere(before, span, sizes, children[order[k]], gap, order[k], node);
      }
      assert forall k :: n < k < |order| ==> order[k] != node;
    }
    forall i | 0 <= i < |span|
      ensures SpanIs(span, sizes, children[i], gap, i)
    {
      assert i in order;
    }
  }

  // ---- placing ----

  /** A forest ready to be placed: its shape, the strip of each node and the top of each row. */
  datatype Grove = Grove(sizes: seq<Size>, parent: Relation, children: seq<seq<nat>>, depth: seq<nat>,
                         rowH: seq<real>, rowY: seq<real>, span: seq<real>, gap: real)

  ghost predicate Ready(g: Grove) {
    && AllNatural(g.sizes) && g.gap > 0.0
    && |g.sizes| == |g.parent| == |g.span| && Forest(g.parent)
    && AllListed(g.children, g.parent, |g.parent|)
    && Depths(g.depth, g.parent)
    && Rows(g.rowH, g.rowY, g.sizes, g.depth, g.gap)
    && (forall i :: 0 <= i < |g.span| ==> g.span[i] >= g.sizes[i].w && SpanIs(g.span, g.sizes, g.children[i], g.gap, i))
  }

  /** Left edge of the row of children of `p`, when the strip of `p` starts at `left`. */
  function RowLeft(g: Grove, p: nat, left: real): real
    requires p < |g.span| == |g.children| && AllBelow(g.children[p], |g.span|)
  {
    left + (g.span[p] - Brood(g.children[p], g.span, g.gap)) / 2.0
  }

  /** The strips of `kids` lie side by side from `from` on, a gap between each two. */
  ghost predicate SideBySide(g: Grove, kids: seq<nat>, from: real, left: seq<real>)
    requires AllBelow(kids, |g.span|) && |left| == |g.span|
  {
    forall k {:trigger kids[k]} :: 0 <= k < |kids| ==> left[kids[k]] == from + Offset(kids[..k], g.span, g.gap)
  }

  /** Where node `i` is drawn: in the middle of its strip, on the row of its depth. */
  ghost predicate DrawnAt(g: Grove, left: seq<real>, at: seq<Point>, i: nat)
    requires Ready(g) && i < |at| == |left| == |g.sizes|
  {
    at[i] == Point(left[i] + (g.span[i] - g.sizes[i].w) / 2.0, g.rowY[g.depth[i]])
  }

  /** The whole picture: the roots side by side, and under every node its children. */
  ghost predicate TidyTree(g: Grove, roots: seq<nat>, left: seq<real>, at: seq<Point>) {
    && Ready(g) && |at| == |left| == |g.sizes|
    && Lists(roots, g.parent, None, |g.parent|)
    && SideBySide(g, roots, 0.0, left)
    && (forall p :: 0 <= p < |at| ==> SideBySide(g, g.children[p], RowLeft(g, p, left[p]), left))
    && (forall i :: 0 <= i < |at| ==> DrawnAt(g, left, at, i))
  }

  datatype Pending = Pending(node: nat, left: real)

  /** `pending` holds each node of `waiting` once, with its place. */
  ghost predicate Stacked(g: Grove, pending: seq<Pending>, waiting: set<nat>, left: seq<real>) {
    && |left| == |g.span|
    && (forall k :: 0 <= k < |pending| ==>
          && pending[k].node in waiting && pending[k].node < |left|
          && pending[k].left == left[pending[k].node])
    && (forall j, k :: 0 <= j < k < |pending| ==> pending[j].node != pending[k].node)
    && (forall w :: w in waiting ==> exists k :: 0 <= k < |pending| && pending[k].node == w)
  }

  ghost function Nodes(kids: seq<nat>): set<nat> {
    set k | k in kids
  }

  /** The first `k` strips of `kids` are placed, and nothing but those is. */
  ghost predicate Hung(g: Grove, kids: seq<nat>, k: nat, under: real, left: seq<real>, left': seq<real>)
    requires k <= |kids| && AllBelow(kids, |g.span|)
  {
    && |left| == |left'| == |g.span|
    && (forall j {:trigger kids[j]} :: 0 <= j < k ==> left'[kids[j]] == under + Offset(kids[..j], g.span, g.gap))
    && (forall i :: 0 <= i < |left'| && i !in kids[..k] ==> left'[i] == left[i])
  }

  lemma OffsetNext(g: Grove, kids: seq<nat>, k: nat)
    requires k < |kids| && AllBelow(kids, |g.span|)
    ensures Offset(kids[..k + 1], g.span, g.gap) == Offset(kids[..k], g.span, g.gap) + g.span[kids[k]] + g.gap
  {
    assert kids[..k + 1][..k] == kids[..k];
  }

  lemma NodesNext(kids: seq<nat>, k: nat)
    requires k < |kids| && Ascending(kids)
    ensures Nodes(kids[..k + 1]) == Nodes(kids[..k]) + {kids[k]}
    ensures kids[k] !in kids[..k]
    ensures forall i :: i in kids[..k + 1] <==> i in kids[..k] || i == kids[k]
  {
    assert kids[..k + 1] == kids[..k] + [kids[k]];
  }

  lemma HungNext(g: Grove, kids: seq<nat>, k: nat, under: real, left: seq<real>, left': seq<real>, x: real)
    requires k < |kids| && AllBelow(kids, |g.span|) && Ascending(kids)
    requires Hung(g, kids, k, under, left, left') && x == under + Offset(kids[..k], g.span, g.gap)
    ensures Hung(g, kids, k + 1, under, left, left'[kids[k] := x])
  {
    hide Offset;
    var next := left'[kids[k] := x];
    NodesNext(kids, k);
    assert forall j {:trigger kids[j]} :: 0 <= j < k ==> kids[j] != kids[k] && next[kids[j]] == left'[kids[j]];
  }

  /** Puts the strips of `kids` on the stack, from `under` on. */
  method HangRow(g: Grove, pending: seq<Pending>, kids: seq<nat>, under: real, ghost waiting: set<nat>, ghost left: seq<real>)
    returns (pending': seq<Pending>, ghost left': seq<real>)
    requires Stacked(g, pending, waiting, left) && AllBelow(kids, |g.span|)
    requires Ascending(kids) && forall k :: k in kids ==> k !in waiting
    ensures Stacked(g, pending', waiting + Nodes(kids), left')
    ensures SideBySide(g, kids, under, left')
    ensures forall i :: 0 <= i < |left'| && i !in kids ==> left'[i] == left[i]
  {
    pending', left' := pending, left;
    var x := under;
    assert Nodes(kids[..0]) == {};
    for k := 0 to |kids|
      invariant x == under + Offset(kids[..k], g.span, g.gap)
      invariant Stacked(g, pending', waiting + Nodes(kids[..k]), left')
      invariant Hung(g, kids, k, under, left, left')
    {
      var child := kids[k];
      OffsetNext(g, kids, k);
      NodesNext(kids, k);
      HungNext(g, kids, k, under, left, left', x);
      StackOne(g, pending', waiting + Nodes(kids[..k]), left', child, x);
      assert waiting + Nodes(kids[..k + 1]) == waiting + Nodes(kids[..k]) + {child};
      pending' := pending' + [Pending(child, x)];
      left' := left'[child := x];
      x := x + g.span[child] + g.gap;
    }
    assert kids[..|kids|] == kids;
  }

  lemma StackOne(g: Grove, pending: seq<Pending>, waiting: set<nat>, left: seq<real>, child: nat, x: real)
    requires Stacked(g, pending, waiting, left) && child < |left| && child !in waiting
    ensures Stacked(g, pending + [Pending(child, x)], waiting + {child}, left[child := x])
  {
    var pending' := pending + [Pending(child, x)];
    forall w | w in waiting + {child}
      ensures exists k :: 0 <= k < |pending'| && pending'[k].node == w
    {
      if w == child {
        assert pending'[|pending|].node == w;
      } else {
        var k :| 0 <= k < |pending| && pending[k].node == w;
        assert pending'[k].node == w;
      }
    }
  }

  lemma PopOne(g: Grove, pending: seq<Pending>, waiting: set<nat>, left: seq<real>)
    requires Stacked(g, pending, waiting, left) && pending != []
    ensures Stacked(g, pending[..|pending| - 1], waiting - {pending[|pending| - 1].node}, left)
  {
    var rest := pending[..|pending| - 1];
    forall w | w in waiting && w != pending[|pending| - 1].node
      ensures exists k :: 0 <= k < |rest| && rest[k].node == w
    {
      var k :| 0 <= k < |pending| && pending[k].node == w;
      assert rest[k].node == w;
    }
  }

  /** `done` is closed upwards, and everything right under it, or a root, waits or is done. */
  ghost predicate Frontier(parent: Relation, children: seq<seq<nat>>, waiting: set<nat>, done: set<nat>) {
    && |children| == |parent|
    && waiting !! done
    && (forall c :: c in waiting || c in done ==> c < |parent| && (parent[c].None? || parent[c].value in done))
    && (forall c :: 0 <= c < |parent| && parent[c].None? ==> c in waiting || c in done)
    && (forall p, c :: p in done && p < |parent| && c in children[p] ==> c in waiting || c in done)
  }

  ghost predicate Laid(g: Grove, roots: seq<nat>, done: set<nat>, left: seq<real>, at: seq<Point>)
    requires Ready(g) && done <= Below(|g.parent|) && AllBelow(roots, |g.parent|)
  {
    && |left| == |at| == |g.sizes|
    && SideBySide(g, roots, 0.0, left)
    && (forall p :: p in done ==> SideBySide(g, g.children[p], RowLeft(g, p, left[p]), left))
    && (forall i :: i in done ==> DrawnAt(g, left, at, i))
  }

  /** The children of a node that still waits are not on the stack, and not drawn. */
  lemma KidsAreNew(parent: Relation, children: seq<seq<nat>>, waiting: set<nat>, done: set<nat>, node: nat, c: nat)
    requires Frontier(parent, children, waiting, done) && node in waiting
    requires Lists(children[node], parent, Some(node), |parent|) && c in children[node]
    ensures c !in waiting && c !in done
  {
  }

  lemma FrontierStep(parent: Relation, children: seq<seq<nat>>, waiting: set<nat>, done: set<nat>, node: nat)
    requires Frontier(parent, children, waiting, done) && node in waiting
    requires Lists(children[node], parent, Some(node), |parent|)
    ensures Frontier(parent, children, (waiting - {node}) + Nodes(children[node]), done + {node})
  {
    if node in children[node] {
      KidsAreNew(parent, children, waiting, done, node, node);
    }
  }

  lemma NodesUntouched(g: Grove, waiting: set<nat>, done: set<nat>, node: nat, left: seq<real>, left': seq<real>)
    requires Ready(g) && done <= Below(|g.parent|) && node < |g.parent| && node in waiting && node !in done
    requires |left'| == |left| == |g.span| && forall i :: 0 <= i < |left| && i !in g.children[node] ==> left'[i] == left[i]
    requires forall c :: c in g.children[node] ==> c !in waiting && c !in done
    ensures forall i :: i in done || i == node ==> left'[i] == left[i]
  {
  }

  lemma DrawnStays(g: Grove, left: seq<real>, left': seq<real>, at: seq<Point>, at': seq<Point>, node: nat, i: nat)
    requires Ready(g) && |left'| == |left| == |at| == |at'| == |g.sizes| && node < |at| && i < |at| && left'[i] == left[i]
    requires at' == at[node := at'[node]] && (if i == node then DrawnAt(g, left, at', i) else DrawnAt(g, left, at, i))
    ensures DrawnAt(g, left', at', i)
  {
  }

  /** The rows hung before, and the nodes drawn, have nothing to do with the children of a node that waits. */
  lemma RowUntouched(g: Grove, kids: seq<nat>, up: Option<nat>, node: nat, from: real, left: seq<real>, left': seq<real>)
    requires Ready(g) && Lists(kids, g.parent, up, |g.parent|) && node < |g.parent| && up != Some(node)
    requires |left'| == |left| == |g.span| && forall i :: 0 <= i < |left| && i !in g.children[node] ==> left'[i] == left[i]
    requires SideBySide(g, kids, from, left)
    ensures SideBySide(g, kids, from, left')
  {
    forall k | 0 <= k < |kids|
      ensures left'[kids[k]] == left[kids[k]]
    {
      assert kids[k] in kids;
      assert Lists(g.children[node], g.parent, Some(node), |g.parent|);
    }
  }

  /** The row of a node whose children were all untouched stays as it was when others are hung. */
  lemma LaidStep(g: Grove, roots: seq<nat>, waiting: set<nat>, done: set<nat>, node: nat, left: seq<real>, left': seq<real>, at: seq<Point>, at': seq<Point>)
    requires Ready(g) && Frontier(g.parent, g.children, waiting, done) && node in waiting
    requires Lists(roots, g.parent, None, |g.parent|)
    requires done <= Below(|g.parent|)
    requires Laid(g, roots, done, left, at)
    requires |left'| == |left| && forall i :: 0 <= i < |left| && i !in g.children[node] ==> left'[i] == left[i]
    requires forall c :: c in g.children[node] ==> c !in waiting && c !in done
    requires SideBySide(g, g.children[node], RowLeft(g, node, left[node]), left')
    requires |at'| == |at| && at' == at[node := at'[node]] && DrawnAt(g, left, at', node)
    ensures Laid(g, roots, done + {node}, left', at')
  {
    hide SideBySide, DrawnAt, AllNatural, Rows, Depths, SpanIs, Forest;
    NodesUntouched(g, waiting, done, node, left, left');
    RowUntouched(g, roots, None, node, 0.0, left, left');
    forall p | p in done
      ensures SideBySide(g, g.children[p], RowLeft(g, p, left'[p]), left')
    {
      assert SideBySide(g, g.children[p], RowLeft(g, p, left[p]), left);
      assert Lists(g.children[p], g.parent, Some(p), |g.parent|);
      RowUntouched(g, g.children[p], Some(p), node, RowLeft(g, p, left[p]), left, left');
    }
    forall i | i in done + {node}
      ensures DrawnAt(g, left', at', i)
    {
      DrawnStays(g, left, left', at, at', node, i);
    }
  }

  method RootsOf(parent: Relation) returns (roots: seq<nat>)
    ensures Lists(roots, parent, None, |parent|)
  {
    roots := [];
    for node := 0 to |parent|
      invariant Lists(roots, parent, None, node)
    {
      ListsNext(roots, parent, None, node);
      if parent[node].None? {
        roots := roots + [node];
      }
    }
  }

  /** Works the stack off: each node is drawn in the middle of its strip, and its children are hung. */
  method PlaceForest(g: Grove, roots: seq<nat>) returns (at: seq<Point>, extent: Size, ghost left: seq<real>)
    requires Ready(g) && Lists(roots, g.parent, None, |g.parent|)
    ensures TidyTree(g, roots, left, at)
    ensures Spread(at, g.sizes, Indices(g.sizes), extent)
  {
    hide AllNatural, Rows, Depths, SpanIs, Forest, SideBySide, Stacked, Frontier, Laid, DrawnAt, Spread, TidyTree;
    at := seq(|g.sizes|, _ => Point(0.0, 0.0));
    extent := Size(0.0, 0.0);
    left := seq(|g.sizes|, _ => 0.0);
    var pending: seq<Pending> := [];
    pending, left := HangRow(g, pending, roots, 0.0, {}, left);
    ghost var waiting, done: set<nat> := {} + Nodes(roots), {};
    NothingDrawn(g, roots, left, at);
    while pending != []
      invariant |at| == |g.sizes| && done <= Indices(g.sizes)
      invariant Stacked(g, pending, waiting, left)
      invariant Frontier(g.parent, g.children, waiting, done)
      invariant Laid(g, roots, done, left, at)
      invariant Spread(at, g.sizes, done, extent)
      decreases Below(|g.parent|) - done
    {
      ghost var node := pending[|pending| - 1].node;
      at, extent, pending, left := PlaceOne(g, roots, at, extent, pending, waiting, done, left);
      waiting, done := (waiting - {node}) + Nodes(g.children[node]), done + {node};
    }
    NothingLeft(g, pending, waiting, done, left);
    AllDrawn(g, roots, left, at, done);
  }

  lemma AllDrawn(g: Grove, roots: seq<nat>, left: seq<real>, at: seq<Point>, done: set<nat>)
    requires Ready(g) && Lists(roots, g.parent, None, |g.parent|)
    requires done == Indices(g.sizes) && Laid(g, roots, done, left, at)
    ensures TidyTree(g, roots, left, at)
  {
    hide SideBySide, DrawnAt, AllNatural, Rows, Depths, SpanIs, Forest;
  }

  lemma NothingDrawn(g: Grove, roots: seq<nat>, left: seq<real>, at: seq<Point>)
    requires Ready(g) && Lists(roots, g.parent, None, |g.parent|) && |left| == |at| == |g.sizes| && SideBySide(g, roots, 0.0, left)
    ensures Frontier(g.parent, g.children, {} + Nodes(roots), {}) && Laid(g, roots, {}, left, at)
    ensures Spread(at, g.sizes, {}, Size(0.0, 0.0))
  {
    hide SideBySide, AllNatural, Rows, Depths, SpanIs, Forest;
  }

  /** Once the stack is empty every node has been drawn. */
  lemma NothingLeft(g: Grove, pending: seq<Pending>, waiting: set<nat>, done: set<nat>, left: seq<real>)
    requires Ready(g) && pending == [] && done <= Indices(g.sizes)
    requires Stacked(g, pending, waiting, left) && Frontier(g.parent, g.children, waiting, done)
    ensures done == Indices(g.sizes)
  {
    assert waiting == {};
    forall i | 0 <= i < |g.parent|
      ensures i in done
    {
      AllReached(g.parent, g.children, done, i, g.depth[i]);
    }
  }

  /** Takes the last node off the stack, draws it, and hangs its children. */
  method PlaceOne(g: Grove, roots: seq<nat>, at: seq<Point>, extent: Size, pending: seq<Pending>,
                  ghost waiting: set<nat>, ghost done: set<nat>, ghost left: seq<real>)
    returns (at': seq<Point>, extent': Size, pending': seq<Pending>, ghost left': seq<real>)
    requires Ready(g) && Lists(roots, g.parent, None, |g.parent|) && pending != []
    requires |at| == |g.sizes| && done <= Indices(g.sizes)
    requires Stacked(g, pending, waiting, left) && Frontier(g.parent, g.children, waiting, done)
    requires Laid(g, roots, done, left, at) && Spread(at, g.sizes, done, extent)
    ensures |at'| == |g.sizes|
    ensures var node := pending[|pending| - 1].node;
            && node in waiting && node !in done && node < |g.parent|
            && Stacked(g, pending', (waiting - {node}) + Nodes(g.children[node]), left')
            && Frontier(g.parent, g.children, (waiting - {node}) + Nodes(g.children[node]), done + {node})
            && Laid(g, roots, done + {node}, left', at')
            && Spread(at', g.sizes, done + {node}, extent')
  {
    var node, from := pending[|pending| - 1].node, pending[|pending| - 1].left;
    var x := from + (g.span[node] - g.sizes[node].w) / 2.0;
    var y := g.rowY[g.depth[node]];
    at' := at[node := Point(x, y)];
    extent' := Size(Max(extent.w, x + g.sizes[node].w), Max(extent.h, y + g.sizes[node].h));
    PopOne(g, pending, waiting, left);
    var kids := g.children[node];
    assert Lists(kids, g.parent, Some(node), |g.parent|);
    FrontierStep(g.parent, g.children, waiting, done, node);
    forall c | c in kids
      ensures c !in waiting && c !in done
    {
      KidsAreNew(g.parent, g.children, waiting, done, node, c);
    }
    pending', left' := HangRow(g, pending[..|pending| - 1], kids, RowLeft(g, node, from), waiting - {node}, left);
    LaidStep(g, roots, waiting, done, node, left, left', at, at');
    SpreadStep(at, g.sizes, done, extent, node, Point(x, y));
  }

  lemma {:induction false} AllReached(parent: Relation, children: seq<seq<nat>>, done: set<nat>, i: nat, d: nat)
    requires InRange(parent) && AllListed(children, parent, |parent|)
    requires Frontier(parent, children, {}, done)
    requires i < |parent| && Reaches(parent, i, d)
    ensures i in done
    decreases d
  {
    if parent[i].Some? {
      var up := parent[i].value;
      AllReached(parent, children, done, up, d - 1);
      assert Lists(children[up], parent, Some(up), |parent|);
    }
  }

  // ---- what the picture is good for ----

  /** In a row, a strip ends a gap before the next begins. */
  lemma SiblingsApart(g: Grove, kids: seq<nat>, from: real, left: seq<real>, i: nat, j: nat)
    requires Ready(g) && AllBelow(kids, |g.span|) && |left| == |g.span|
    requires SideBySide(g, kids, from, left) && i < j < |kids|
    ensures left[kids[i]] + g.span[kids[i]] + g.gap <= left[kids[j]]
  {
    OffsetGrows(kids, g.span, g.gap, i, j);
  }

  /** A row of strips starts at `from` and ends where its brood does. */
  lemma RowExtent(g: Grove, kids: seq<nat>, from: real, left: seq<real>, i: nat)
    requires AllBelow(kids, |g.span|) && |left| == |g.span| && g.gap >= 0.0
    requires forall k :: 0 <= k < |g.span| ==> g.span[k] >= 0.0
    requires SideBySide(g, kids, from, left) && i < |kids|
    ensures from == left[kids[0]]
    ensures left[kids[|kids| - 1]] + g.span[kids[|kids| - 1]] == from + Brood(kids, g.span, g.gap)
    ensures from <= left[kids[i]] && left[kids[i]] + g.span[kids[i]] <= from + Brood(kids, g.span, g.gap)
  {
    var n := |kids|;
    BroodIsOffset(kids, g.span, g.gap);
    assert kids[..n] == kids;
    OffsetNext(g, kids, n - 1);
    if i > 0 {
      OffsetGrows(kids, g.span, g.gap, 0, i);
    }
    if i < n - 1 {
      OffsetGrows(kids, g.span, g.gap, i, n - 1);
    }
  }

  /** The strips of the children lie within the strip of their parent, their row in its middle. */
  lemma RowInStrip(g: Grove, roots: seq<nat>, left: seq<real>, at: seq<Point>, p: nat, i: nat)
    requires TidyTree(g, roots, left, at) && p < |at| && i < |g.children[p]|
    ensures var c := g.children[p][i];
            left[p] <= left[c] && left[c] + g.span[c] <= left[p] + g.span[p]
    ensures left[g.children[p][0]] - left[p] == left[p] + g.span[p]
              - (left[g.children[p][|g.children[p]| - 1]] + g.span[g.children[p][|g.children[p]| - 1]])
  {
    hide Forest, Depths, Rows, DrawnAt, Offset, Brood;
    assert SpanIs(g.span, g.sizes, g.children[p], g.gap, p);
    RowExtent(g, g.children[p], RowLeft(g, p, left[p]), left, i);
  }

  /** The row that node `a` is in. */
  lemma RowAround(g: Grove, roots: seq<nat>, left: seq<real>, at: seq<Point>, a: nat) returns (kids: seq<nat>, from: real)
    requires TidyTree(g, roots, left, at) && a < |at|
    ensures Ready(g) && |at| == |left| == |g.span| == |g.parent| && AllBelow(kids, |g.span|) && SideBySide(g, kids, from, left)
    ensures forall c :: c in kids <==> 0 <= c < |g.parent| && g.parent[c] == g.parent[a]
  {
    hide SideBySide, Rows, AllNatural, SpanIs, DrawnAt, Depths;
    var up := g.parent[a];
    if up.None? {
      kids, from := roots, 0.0;
    } else {
      assert Lists(g.children[up.value], g.parent, up, |g.parent|);
      kids, from := g.children[up.value], RowLeft(g, up.value, left[up.value]);
    }
  }

  /** Strips of two nodes under one parent, or of two roots, are apart. */
  lemma SiblingStrips(g: Grove, roots: seq<nat>, left: seq<real>, at: seq<Point>, a: nat, b: nat)
    requires TidyTree(g, roots, left, at) && a < |at| && b < |at| && a != b && g.parent[a] == g.parent[b]
    ensures left[a] + g.span[a] + g.gap <= left[b] || left[b] + g.span[b] + g.gap <= left[a]
  {
    hide SideBySide, Ready, TidyTree;
    var kids, from := RowAround(g, roots, left, at, a);
    assert a in kids && b in kids;
    var i :| 0 <= i < |kids| && kids[i] == a;
    var j :| 0 <= j < |kids| && kids[j] == b;
    if i < j {
      SiblingsApart(g, kids, from, left, i, j);
    } else {
      SiblingsApart(g, kids, from, left, j, i);
    }
  }

  /** Nodes of one depth have strips at least a gap apart. */
  lemma {:induction false} StripsApart(g: Grove, roots: seq<nat>, left: seq<real>, at: seq<Point>, a: nat, b: nat)
    requires TidyTree(g, roots, left, at) && a < |at| && b < |at|
    requires a != b && g.depth[a] == g.depth[b]
    ensures left[a] + g.span[a] + g.gap <= left[b] || left[b] + g.span[b] + g.gap <= left[a]
    decreases g.depth[a]
  {
    hide SideBySide, Rows, AllNatural, SpanIs, DrawnAt, AllListed, Lists;
    if g.parent[a] == g.parent[b] {
      SiblingStrips(g, roots, left, at, a, b);
    } else {
      assert Reaches(g.parent, a, g.depth[a]) && Reaches(g.parent, b, g.depth[b]);
      var p, q := g.parent[a].value, g.parent[b].value;
      ChildIsDeeper(g.parent, g.depth, a);
      ChildIsDeeper(g.parent, g.depth, b);
      StripsApart(g, roots, left, at, p, q);
      StripInParent(g, roots, left, at, a);
      StripInParent(g, roots, left, at, b);
    }
  }

  lemma StripInParent(g: Grove, roots: seq<nat>, left: seq<real>, at: seq<Point>, c: nat)
    requires TidyTree(g, roots, left, at) && c < |at| && g.parent[c].Some?
    ensures var p := g.parent[c].value;
            left[p] <= left[c] && left[c] + g.span[c] <= left[p] + g.span[p]
  {
    var p := g.parent[c].value;
    assert Lists(g.children[p], g.parent, Some(p), |g.parent|);
    var i :| 0 <= i < |g.children[p]| && g.children[p][i] == c;
    RowInStrip(g, roots, left, at, p, i);
  }

  lemma BoxesApart(g: Grove, roots: seq<nat>, left: seq<real>, at: seq<Point>, a: nat, b: nat)
    requires TidyTree(g, roots, left, at) && a < |at| && b < |at| && a != b
    ensures Apart(Box(at[a], g.sizes[a]), Box(at[b], g.sizes[b]), g.gap)
  {
    assert DrawnAt(g, left, at, a) && DrawnAt(g, left, at, b);
    if g.depth[a] == g.depth[b] {
      StripsApart(g, roots, left, at, a, b);
    } else if g.depth[a] < g.depth[b] {
      RowsDescend(g.rowH, g.rowY, g.sizes, g.depth, g.gap, g.depth[a], g.depth[b]);
    } else {
      RowsDescend(g.rowH, g.rowY, g.sizes, g.depth, g.gap, g.depth[b], g.depth[a]);
    }
  }

  lemma {:induction false} StripNatural(g: Grove, roots: seq<nat>, left: seq<real>, at: seq<Point>, c: nat)
    requires TidyTree(g, roots, left, at) && c < |at|
    ensures left[c] >= 0.0
    decreases g.depth[c]
  {
    if g.parent[c].None? {
      assert c in roots;
      var i :| 0 <= i < |roots| && roots[i] == c;
      OffsetNatural(roots[..i], g.span, g.gap);
    } else {
      StripInParent(g, roots, left, at, c);
      ChildIsDeeper(g.parent, g.depth, c);
      StripNatural(g, roots, left, at, g.parent[c].value);
    }
  }

  /** Node `p` is centred over the row of its children, which hangs below it. */
  ghost predicate CentredOverChildren(g: Grove, left: seq<real>, at: seq<Point>, p: nat)
    requires |g.children| == |g.sizes| == |g.span| == |left| == |at| && p < |at| && AllBelow(g.children[p], |at|)
  {
    var kids := g.children[p];
    kids != [] ==>
      && at[p].x + g.sizes[p].w / 2.0 == (left[kids[0]] + (left[kids[|kids| - 1]] + g.span[kids[|kids| - 1]])) / 2.0
      && (forall i {:trigger kids[i]} :: 0 <= i < |kids| ==>
            && at[p].y + g.sizes[p].h + g.gap <= at[kids[i]].y
            && at[kids[i]].x + g.sizes[kids[i]].w / 2.0 == left[kids[i]] + g.span[kids[i]] / 2.0)
  }

  lemma ParentIsCentred(g: Grove, roots: seq<nat>, left: seq<real>, at: seq<Point>, p: nat)
    requires TidyTree(g, roots, left, at) && p < |at|
    ensures CentredOverChildren(g, left, at, p)
  {
    var kids := g.children[p];
    assert Lists(kids, g.parent, Some(p), |g.parent|);
    if kids != [] {
      RowInStrip(g, roots, left, at, p, 0);
      assert DrawnAt(g, left, at, p);
      forall i | 0 <= i < |kids|
        ensures at[p].y + g.sizes[p].h + g.gap <= at[kids[i]].y
        ensures at[kids[i]].x + g.sizes[kids[i]].w / 2.0 == left[kids[i]] + g.span[kids[i]] / 2.0
      {
        assert kids[i] in kids;
        assert DrawnAt(g, left, at, kids[i]);
        ChildIsDeeper(g.parent, g.depth, kids[i]);
        RowsDescend(g.rowH, g.rowY, g.sizes, g.depth, g.gap, g.depth[p], g.depth[kids[i]]);
      }
    }
  }

  /** Whatever the parents are, loops and self-parents included: they are cut down to exactly the forest
      Uncut describes; every box is placed; no two are closer than
      `gap`; every parent is centred over its children; and the extent is exact. */
  method PackTree(sizes: seq<Size>, parents: Relation, gap: real)
    returns (at: seq<Point>, extent: Size, ghost g: Grove, ghost roots: seq<nat>, ghost left: seq<real>)
    requires gap > 0.0 && AllNatural(sizes)
    requires |parents| == |sizes| && InRange(parents)
    ensures |at| == |sizes|
    ensures Separated(at, sizes, gap)
    ensures ExactExtent(at, sizes, extent, Indices(sizes))
    ensures g.sizes == sizes && g.gap == gap && TidyTree(g, roots, left, at)
    ensures forall i :: 0 <= i < |at| ==> g.parent[i] == Uncut(parents, i)
    ensures forall p :: 0 <= p < |at| ==> CentredOverChildren(g, left, at, p)
  {
    var parent := CutLoops(parents);
    var children := ChildrenOf(parent);
    var depth := DepthsOf(parent);
    var rowH, rowY := RowsOf(sizes, depth, gap);
    var span := SpansOf(sizes, parent, children, depth, gap);
    var tops := RootsOf(parent);
    roots := tops;
    g := Grove(sizes, parent, children, depth, rowH, rowY, span, gap);
    at, extent, left := PlaceForest(Grove(sizes, parent, children, depth, rowH, rowY, span, gap), tops);
    TreeIsGood(g, roots, left, at, extent);
  }

  lemma TreeIsGood(g: Grove, roots: seq<nat>, left: seq<real>, at: seq<Point>, extent: Size)
    requires TidyTree(g, roots, left, at) && Spread(at, g.sizes, Indices(g.sizes), extent)
    ensures Separated(at, g.sizes, g.gap)
    ensures ExactExtent(at, g.sizes, extent, Indices(g.sizes))
    ensures forall p :: 0 <= p < |at| ==> CentredOverChildren(g, left, at, p)
  {
    forall i, j | 0 <= i < j < |at|
      ensures Apart(Box(at[i], g.sizes[i]), Box(at[j], g.sizes[j]), g.gap)
    {
      BoxesApart(g, roots, left, at, i, j);
    }
    forall p | 0 <= p < |at|
      ensures CentredOverChildren(g, left, at, p)
      ensures at[p].x >= 0.0 && at[p].y >= 0.0
    {
      ParentIsCentred(g, roots, left, at, p);
      StripNatural(g, roots, left, at, p);
      assert DrawnAt(g, left, at, p);
      if g.depth[p] > 0 {
        RowsDescend(g.rowH, g.rowY, g.sizes, g.depth, g.gap, 0, g.depth[p]);
      }
    }
  }
}
