/** The cards of one container, by hand-off depth, in centred rows that lose none and keep them apart. */
module Rows {
  import opened Constants
  import opened Geometry
  import opened Options
  import opened Sorting
  import Parents

  datatype Agent = Agent(id: string, session: string, task: Option<string>, parent: Option<string>, delegates: nat)

  function Ids(members: seq<Agent>): (ids: seq<string>)
    ensures |ids| == |members| && forall k :: 0 <= k < |ids| ==> ids[k] == members[k].id
  {
    seq(|members|, k requires 0 <= k < |members| => members[k].id)
  }

  ghost predicate DistinctIds(members: seq<Agent>) {
    forall i, j :: 0 <= i < j < |members| ==> members[i].id != members[j].id
  }

  // ---- hand-off depth ----

  /** `parents` knows the parent of `m` exactly when it is a member too. */
  ghost predicate Knows(parents: map<string, string>, members: seq<Agent>, m: Agent) {
    if m.parent.Some? && m.parent.value in Ids(members) then m.id in parents && parents[m.id] == m.parent.value
    else m.id !in parents
  }

  /** `parents` holds the hand-offs within `members`, and nothing else. */
  ghost predicate AreHandOffs(parents: map<string, string>, members: seq<Agent>) {
    && (forall k :: 0 <= k < |members| ==> Knows(parents, members, members[k]))
    && (forall id :: id in parents ==> id in Ids(members) && parents[id] in Ids(members))
  }

  /** Who spawned whom, where both are among the members. */
  method HandOffs(members: seq<Agent>) returns (parents: map<string, string>)
    requires DistinctIds(members)
    ensures AreHandOffs(parents, members)
  {
    parents := map[];
    for n := 0 to |members|
      invariant forall k :: 0 <= k < n ==> Knows(parents, members, members[k])
      invariant forall id :: id in parents ==> id in Ids(members[..n]) && parents[id] in Ids(members)
    {
      var m := members[n];
      assert Ids(members[..n + 1]) == Ids(members[..n]) + [m.id];
      assert m.id !in Ids(members[..n]);
      if m.parent.Some? && m.parent.value in Ids(members) {
        parents := parents[m.id := m.parent.value];
      }
    }
    assert members[..|members|] == members;
  }

  /** Exactly `d` hand-offs up from `at` there is no further parent. */
  ghost predicate Chain(parents: map<string, string>, at: string, d: nat)
    decreases d
  {
    if at in parents then d > 0 && Chain(parents, parents[at], d - 1) else d == 0
  }

  lemma {:induction false} ChainOnce(parents: map<string, string>, at: string, d: nat, e: nat)
    requires Chain(parents, at, d) && Chain(parents, at, e)
    ensures d == e
    decreases d
  {
    if at in parents {
      ChainOnce(parents, parents[at], d - 1, e - 1);
    }
  }

  ghost predicate ChainWithin(parents: map<string, string>, at: string, d: nat) {
    exists e: nat :: e <= d && Chain(parents, at, e)
  }

  /** The keys met on the way up are all different. */
  lemma {:induction false} ChainKeys(parents: map<string, string>, at: string, d: nat) returns (keys: set<string>)
    requires Chain(parents, at, d)
    ensures |keys| == d && keys <= parents.Keys
    ensures forall k :: k in keys ==> ChainWithin(parents, k, d)
    decreases d
  {
    keys := {};
    if at in parents {
      var above := ChainKeys(parents, parents[at], d - 1);
      if at in above {
        var e: nat :| e <= d - 1 && Chain(parents, at, e);
        ChainOnce(parents, at, d, e);
      }
      keys := above + {at};
      forall k | k in keys
        ensures ChainWithin(parents, k, d)
      {
        if k != at {
          var e: nat :| e <= d - 1 && Chain(parents, k, e);
        } else {
          assert Chain(parents, k, d);
        }
      }
    }
  }

  lemma {:induction false} ChainShort(parents: map<string, string>, at: string, d: nat)
    requires Chain(parents, at, d)
    ensures d <= |parents|
  {
    var keys := ChainKeys(parents, at, d);
    Parents.Subset(keys, parents.Keys);
  }

  /** The hand-off depth of a card, or one past every real depth when its chain loops. */
  ghost function Depth(parents: map<string, string>, at: string): nat {
    if exists d: nat :: Chain(parents, at, d) then var d: nat :| Chain(parents, at, d); d else |parents| + 1
  }

  method DepthOf(agent: string, parents: map<string, string>) returns (depth: nat)
    ensures depth == Depth(parents, agent)
  {
    depth := 0;
    var at := agent;
    while at in parents
      invariant forall d: nat :: Chain(parents, agent, d + depth) == Chain(parents, at, d)
      invariant forall d: nat :: Chain(parents, agent, d) ==> d >= depth
      invariant depth <= |parents|
      decreases |parents| + 1 - depth
    {
      assert !Chain(parents, at, 0) && !Chain(parents, agent, 0 + depth);
      forall d: nat
        ensures Chain(parents, agent, d + (depth + 1)) == Chain(parents, parents[at], d)
      {
        assert Chain(parents, agent, (d + 1) + depth) == Chain(parents, at, d + 1);
      }
      depth := depth + 1;
      at := parents[at];
      if depth > |parents| {
        forall d: nat | Chain(parents, agent, d)
          ensures false
        {
          ChainShort(parents, agent, d);
        }
        return;
      }
    }
    assert Chain(parents, at, 0);
    assert Chain(parents, agent, 0 + depth);
    ChainOnce(parents, agent, depth, Depth(parents, agent));
  }

  /** A card whose chain ends sits exactly one row below its parent. */
  lemma {:induction false} HandOffGoesDown(parents: map<string, string>, child: string, d: nat)
    requires child in parents && Chain(parents, child, d)
    ensures Depth(parents, child) == Depth(parents, parents[child]) + 1
  {
    assert Chain(parents, parents[child], d - 1);
    ChainOnce(parents, child, d, Depth(parents, child));
    ChainOnce(parents, parents[child], d - 1, Depth(parents, parents[child]));
  }

  // ---- rows ----

  function Flatten<T>(rows: seq<seq<T>>): seq<T> {
    if rows == [] then [] else Flatten(rows[..|rows| - 1]) + rows[|rows| - 1]
  }

  lemma {:induction false} FlattenLast<T>(rows: seq<seq<T>>)
    ensures rows == [] ==> Flatten(rows) == []
    ensures rows != [] ==> Flatten(rows) == Flatten(rows[..|rows| - 1]) + rows[|rows| - 1]
  {
  }

  lemma {:induction false} FlattenAppends<T>(a: seq<seq<T>>, b: seq<seq<T>>)
    ensures Flatten(a + b) == Flatten(a) + Flatten(b)
  {
    hide Flatten;
    FlattenLast(a + b);
    FlattenLast(b);
    if b == [] {
      assert a + b == a;
    } else {
      assert (a + b)[..|a + b| - 1] == a + b[..|b| - 1];
      FlattenAppends(a, b[..|b| - 1]);
    }
  }

  lemma {:induction false} FlattenGrows<T>(rows: seq<seq<T>>, d: nat, x: T)
    requires d < |rows|
    ensures multiset(Flatten(rows[d := rows[d] + [x]])) == multiset(Flatten(rows)) + multiset{x}
  {
    hide Flatten;
    var n := |rows| - 1;
    var grown := rows[d := rows[d] + [x]];
    FlattenLast(rows);
    FlattenLast(grown);
    if d == n {
      assert grown[..n] == rows[..n];
    } else {
      assert grown[..n] == rows[..n][d := rows[..n][d] + [x]];
      FlattenGrows(rows[..n], d, x);
    }
  }

  /** The cards of depth `d` among the first `n` members, in order. */
  ghost function AtDepth(members: seq<Agent>, parents: map<string, string>, d: nat, n: nat): seq<string>
    requires n <= |members|
  {
    if n == 0 then []
    else if Depth(parents, members[n - 1].id) == d then AtDepth(members, parents, d, n - 1) + [members[n - 1].id]
    else AtDepth(members, parents, d, n - 1)
  }

  /** What is on row `d`, which may not have been opened yet. */
  ghost function RowAt(rows: seq<seq<string>>, d: nat): seq<string> {
    if d < |rows| then rows[d] else []
  }

  /** Puts a card on row `depth`, opening the rows down to it. */
  method AddToRow(rows: seq<seq<string>>, depth: nat, id: string) returns (rows': seq<seq<string>>)
    ensures |rows'| == if |rows| <= depth then depth + 1 else |rows|
    ensures forall d :: 0 <= d < |rows'| ==> rows'[d] == RowAt(rows, d) + if d == depth then [id] else []
    ensures multiset(Flatten(rows')) == multiset(Flatten(rows)) + multiset{id}
  {
    rows' := rows;
    while |rows'| <= depth
      invariant |rows'| == |rows| || |rows| <= |rows'| <= depth + 1
      invariant forall d :: 0 <= d < |rows'| ==> rows'[d] == RowAt(rows, d)
      invariant Flatten(rows') == Flatten(rows)
    {
      assert (rows' + [[]])[..|rows'|] == rows';
      rows' := rows' + [[]];
    }
    FlattenGrows(rows', depth, id);
    rows' := rows'[depth := rows'[depth] + [id]];
  }

  ghost predicate RowsSoFar(members: seq<Agent>, parents: map<string, string>, rows: seq<seq<string>>, n: nat)
    requires n <= |members|
  {
    && (forall d: nat {:trigger RowAt(rows, d)} :: RowAt(rows, d) == AtDepth(members, parents, d, n))
    && (forall k :: 0 <= k < n ==> Depth(parents, members[k].id) < |rows|)
    && (rows != [] ==> Inhabited(members, parents, |rows| - 1, n))
  }

  /** One of the first `n` members has depth `d`. */
  ghost predicate Inhabited(members: seq<Agent>, parents: map<string, string>, d: nat, n: nat)
    requires n <= |members|
  {
    exists k :: 0 <= k < n && Depth(parents, members[k].id) == d
  }

  lemma RowsNext(members: seq<Agent>, parents: map<string, string>, rows: seq<seq<string>>, rows': seq<seq<string>>, n: nat, depth: nat, id: string)
    requires n < |members| && RowsSoFar(members, parents, rows, n)
    requires id == members[n].id && depth == Depth(parents, id)
    requires |rows'| == if |rows| <= depth then depth + 1 else |rows|
    requires forall d :: 0 <= d < |rows'| ==> rows'[d] == RowAt(rows, d) + if d == depth then [id] else []
    ensures RowsSoFar(members, parents, rows', n + 1)
  {
    forall d: nat
      ensures RowAt(rows', d) == AtDepth(members, parents, d, n + 1)
    {
      assert RowAt(rows, d) == AtDepth(members, parents, d, n);
    }
    if |rows| <= depth {
      assert Depth(parents, members[n].id) == |rows'| - 1;
    } else {
      var k :| 0 <= k < n && Depth(parents, members[k].id) == |rows| - 1;
      assert Depth(parents, members[k].id) == |rows'| - 1;
    }
  }

  lemma IdsNext(members: seq<Agent>, n: nat)
    requires n < |members|
    ensures multiset(Ids(members)[..n + 1]) == multiset(Ids(members)[..n]) + multiset{members[n].id}
  {
    assert Ids(members)[..n + 1] == Ids(members)[..n] + [members[n].id];
  }

  method RowNext(members: seq<Agent>, up: map<string, string>, rows: seq<seq<string>>, n: nat) returns (rows': seq<seq<string>>)
    requires n < |members| && RowsSoFar(members, up, rows, n)
    requires multiset(Flatten(rows)) == multiset(Ids(members)[..n])
    ensures RowsSoFar(members, up, rows', n + 1)
    ensures multiset(Flatten(rows')) == multiset(Ids(members)[..n + 1])
  {
    var id := members[n].id;
    var depth := DepthOf(id, up);
    rows' := AddToRow(rows, depth, id);
    RowsNext(members, up, rows, rows', n, depth, id);
    IdsNext(members, n);
  }

  /** One row per depth, down to the deepest: row `d` lists the cards of depth `d` in member order. */
  ghost predicate AreRows(rows: seq<seq<string>>, members: seq<Agent>, parents: map<string, string>) {
    && (forall d :: 0 <= d < |rows| ==> rows[d] == AtDepth(members, parents, d, |members|))
    && (forall k :: 0 <= k < |members| ==> Depth(parents, members[k].id) < |rows|)
    && (rows != [] ==> Inhabited(members, parents, |rows| - 1, |members|))
  }

  /** The rows of the members, every one of them in one row, once. */
  method RowsByDepth(members: seq<Agent>) returns (rows: seq<seq<string>>, ghost parents: map<string, string>)
    requires DistinctIds(members)
    ensures AreHandOffs(parents, members) && AreRows(rows, members, parents)
    ensures multiset(Flatten(rows)) == multiset(Ids(members))
  {
    var up := HandOffs(members);
    parents := up;
    rows := [];
    for n := 0 to |members|
      invariant RowsSoFar(members, up, rows, n)
      invariant multiset(Flatten(rows)) == multiset(Ids(members)[..n])
    {
      rows := RowNext(members, up, rows, n);
    }
    assert Ids(members)[..|members|] == Ids(members);
    assert forall d :: 0 <= d < |rows| ==> rows[d] == RowAt(rows, d);
  }

  /** `runs` is `row` cut into runs of `per` cards, of which only the last may have fewer. */
  ghost predicate Runs(runs: seq<seq<string>>, row: seq<string>, per: nat) {
    && Flatten(runs) == row
    && (forall k :: 0 <= k < |runs| ==> 0 < |runs[k]| <= per)
    && (forall k :: 0 <= k < |runs| - 1 ==> |runs[k]| == per)
  }

  method FoldRow(row: seq<string>, per: nat) returns (out: seq<seq<string>>)
    requires per >= 1
    ensures Runs(out, row, per)
  {
    out := [];
    var at := 0;
    while at < |row|
      invariant 0 <= at <= |row|
      invariant Runs(out, row[..at], per)
      invariant at < |row| && out != [] ==> |out[|out| - 1]| == per
      decreases |row| - at
    {
      var end := if at + per <= |row| then at + per else |row|;
      assert (out + [row[at..end]])[..|out|] == out;
      out := out + [row[at..end]];
      at := end;
    }
  }

  /** How many cards of this row go to a line. */
  function PerLine(per: seq<string> --> nat, row: seq<string>): nat
    requires per.requires(row)
  {
    per(row)
  }

  /** The lines are the rows', each row cut into runs of as many as the rule says for it. */
  ghost predicate FoldedRows(lines: seq<seq<string>>, rows: seq<seq<string>>, per: seq<string> --> nat) {
    exists folds: seq<seq<seq<string>>> :: |folds| == |rows| && Flatten(folds) == lines && AllRuns(folds, rows, per)
  }

  ghost predicate AllRuns(folds: seq<seq<seq<string>>>, rows: seq<seq<string>>, per: seq<string> --> nat)
    requires |folds| <= |rows|
  {
    forall n :: 0 <= n < |folds| ==> per.requires(rows[n]) && Runs(folds[n], rows[n], PerLine(per, rows[n]))
  }

  lemma NoRuns(rows: seq<seq<string>>, per: seq<string> --> nat)
    ensures AllRuns([], rows, per)
  {
  }

  lemma MoreRuns(folds: seq<seq<seq<string>>>, rows: seq<seq<string>>, per: seq<string> --> nat, next: seq<seq<string>>)
    requires |folds| < |rows| && AllRuns(folds, rows, per)
    requires per.requires(rows[|folds|]) && Runs(next, rows[|folds|], PerLine(per, rows[|folds|]))
    ensures AllRuns(folds + [next], rows, per)
  {
    hide Runs, PerLine;
  }

  lemma {:induction false} FlattenNext(folds: seq<seq<seq<string>>>, next: seq<seq<string>>)
    ensures Flatten(folds + [next]) == Flatten(folds) + next
  {
    FlattenLast(folds + [next]);
    assert (folds + [next])[..|folds|] == folds;
  }

  lemma {:induction false} NotEmpty(runs: seq<seq<string>>, row: seq<string>, per: nat)
    requires Runs(runs, row, per)
    ensures Flatten(runs) == row && forall k :: 0 <= k < |runs| ==> runs[k] != []
  {
  }

  /** Each row folded; the cards keep their order. */
  method Chunks(rows: seq<seq<string>>, per: seq<string> --> nat) returns (out: seq<seq<string>>)
    requires forall n :: 0 <= n < |rows| ==> per.requires(rows[n]) && per(rows[n]) >= 1
    ensures FoldedRows(out, rows, per)
    ensures Flatten(out) == Flatten(rows)
    ensures forall k :: 0 <= k < |out| ==> out[k] != []
  {
    hide Runs, AllRuns;
    out := [];
    ghost var folds: seq<seq<seq<string>>> := [];
    NoRuns(rows, per);
    for n := 0 to |rows|
      invariant Flatten(out) == Flatten(rows[..n])
      invariant forall k :: 0 <= k < |out| ==> out[k] != []
      invariant |folds| == n && Flatten(folds) == out && AllRuns(folds, rows, per)
    {
      var folded := FoldRow(rows[n], PerLine(per, rows[n]));
      FlattenAppends(out, folded);
      assert rows[..n + 1][..n] == rows[..n];
      MoreRuns(folds, rows, per, folded);
      FlattenNext(folds, folded);
      NotEmpty(folded, rows[n], PerLine(per, rows[n]));
      out := out + folded;
      folds := folds + [folded];
    }
    assert rows[..|rows|] == rows;
  }

  // ---- when a row is empty ----

  ghost predicate Loops(parents: map<string, string>, id: string) {
    forall d: nat :: !Chain(parents, id, d)
  }

  lemma {:induction false} OwnParentLoops(parents: map<string, string>, id: string)
    requires id in parents && parents[id] == id
    ensures Loops(parents, id)
  {
    forall d: nat
      ensures !Chain(parents, id, d)
    {
      NeverEnds(parents, id, d);
    }
  }

  lemma {:induction false} NeverEnds(parents: map<string, string>, id: string, d: nat)
    requires id in parents && parents[id] == id
    ensures !Chain(parents, id, d)
  {
    if d > 0 {
      NeverEnds(parents, id, d - 1);
    }
  }

  lemma {:induction false} AtDepthNotEmpty(members: seq<Agent>, parents: map<string, string>, d: nat, n: nat)
    requires n <= |members|
    ensures AtDepth(members, parents, d, n) != [] <==> Inhabited(members, parents, d, n)
  {
    if n > 0 {
      AtDepthNotEmpty(members, parents, d, n - 1);
      assert Inhabited(members, parents, d, n - 1) ==> Inhabited(members, parents, d, n);
    }
  }

  /** Where no chain loops, every depth above an inhabited one is inhabited too. */
  lemma {:induction false} DepthsDescend(members: seq<Agent>, parents: map<string, string>, d: nat, e: nat)
    requires forall id :: id in parents ==> parents[id] in Ids(members)
    requires forall k :: 0 <= k < |members| ==> !Loops(parents, members[k].id)
    requires Inhabited(members, parents, d, |members|) && e <= d
    ensures Inhabited(members, parents, e, |members|)
    decreases d
  {
    if e < d {
      var k :| 0 <= k < |members| && Depth(parents, members[k].id) == d;
      var id := members[k].id;
      var c: nat :| Chain(parents, id, c);
      ChainOnce(parents, id, c, d);
      HandOffGoesDown(parents, id, d);
      var up := parents[id];
      var j :| 0 <= j < |members| && Ids(members)[j] == up;
      assert Depth(parents, members[j].id) == d - 1;
      DepthsDescend(members, parents, d - 1, e);
    }
  }

  lemma {:induction false} DepthIsChain(parents: map<string, string>, id: string)
    ensures Depth(parents, id) <= |parents| ==> Chain(parents, id, Depth(parents, id))
    ensures Depth(parents, id) <= |parents| <==> !Loops(parents, id)
  {
    if d: nat :| Chain(parents, id, d) {
      ChainOnce(parents, id, d, Depth(parents, id));
      ChainShort(parents, id, d);
    }
  }

  /** A card at each of the depths 1 to `d`, all with a parent and none on a loop. */
  lemma {:induction false} CardsAtDepths(members: seq<Agent>, parents: map<string, string>, d: nat) returns (keys: set<string>)
    requires d <= |parents|
    requires forall e :: 0 < e <= d ==> Inhabited(members, parents, e, |members|)
    ensures |keys| == d && keys <= parents.Keys
    ensures forall id :: id in keys ==> !Loops(parents, id) && Depth(parents, id) <= d
  {
    keys := {};
    if d > 0 {
      var fewer := CardsAtDepths(members, parents, d - 1);
      assert Inhabited(members, parents, d, |members|);
      var k :| 0 <= k < |members| && Depth(parents, members[k].id) == d;
      DepthIsChain(parents, members[k].id);
      keys := fewer + {members[k].id};
    }
  }

  /** A depth no card has leaves its row empty, and the fold that reads the largest card of each row
      has nothing to read there. That happens exactly when some chain of parents loops. */
  lemma EmptyRowMeansLoop(members: seq<Agent>, parents: map<string, string>, rows: seq<seq<string>>)
    requires AreHandOffs(parents, members) && AreRows(rows, members, parents)
    ensures (exists d :: 0 <= d < |rows| && rows[d] == []) <==> (exists k :: 0 <= k < |members| && Loops(parents, members[k].id))
  {
    forall d | 0 <= d < |rows|
      ensures rows[d] != [] <==> Inhabited(members, parents, d, |members|)
    {
      AtDepthNotEmpty(members, parents, d, |members|);
    }
    if exists k :: 0 <= k < |members| && Loops(parents, members[k].id) {
      var k :| 0 <= k < |members| && Loops(parents, members[k].id);
      LoopLeavesGap(members, parents, members[k].id, |rows|);
    } else if exists d :: 0 <= d < |rows| && rows[d] == [] {
      var d :| 0 <= d < |rows| && rows[d] == [];
      DepthsDescend(members, parents, |rows| - 1, d);
    }
  }

  /** One agent that names itself as its parent: two empty rows above the one it is on. */
  lemma OwnParentLeavesGaps(m: Agent, rows: seq<seq<string>>, parents: map<string, string>)
    requires m.parent == Some(m.id)
    requires AreHandOffs(parents, [m]) && AreRows(rows, [m], parents)
    ensures rows == [[], [], [m.id]]
  {
    assert Ids([m])[0] == m.id && [m][0] == m;
    assert Knows(parents, [m], [m][0]);
    assert parents == map[m.id := m.id];
    OwnParentLoops(parents, m.id);
    forall d: nat
      ensures AtDepth([m], parents, d, 1) == if d == 2 then [m.id] else []
    {
    }
  }

  lemma LoopHasParent(parents: map<string, string>, id: string)
    requires Loops(parents, id)
    ensures id in parents && Depth(parents, id) == |parents| + 1
  {
    assert !Chain(parents, id, 0);
  }

  lemma LoopLeavesGap(members: seq<Agent>, parents: map<string, string>, id: string, n: nat)
    requires Loops(parents, id) && Depth(parents, id) < n
    ensures exists d :: 0 <= d < n && !Inhabited(members, parents, d, |members|)
  {
    LoopHasParent(parents, id);
    if forall d :: 0 <= d < n ==> Inhabited(members, parents, d, |members|) {
      var keys := CardsAtDepths(members, parents, |parents|);
      assert id !in keys && |keys + {id}| == |parents| + 1;
      Parents.Subset(keys + {id}, parents.Keys);
    }
  }

  // ---- laying the rows out ----

  /** A card and where its own corner goes, in the frame of the container. */
  datatype Seat = Seat(id: string, at: Point)

  datatype Contents = Contents(cards: seq<Seat>, width: real, height: real)

  /** What each card takes up with its delegates, in its own frame: at least the card itself. */
  type Rooms = string -> Rect

  ghost predicate Roomy(room: Rooms) {
    forall id :: room(id).w >= CARD_WIDTH && room(id).h >= CARD_HEIGHT
  }

  function Taken(room: Rooms, s: Seat): Rect {
    Shift(room(s.id), s.at)
  }

  function Widths(row: seq<string>, room: Rooms): real {
    if row == [] then 0.0 else Widths(row[..|row| - 1], room) + room(row[|row| - 1]).w
  }

  /** The rooms of the cards side by side, with a gap between each two. */
  function RowSpan(row: seq<string>, room: Rooms): real {
    if row == [] then 0.0 else Widths(row, room) + CARD_GAP_X * (|row| - 1) as real
  }

  function Tallest(row: seq<string>, room: Rooms): (h: real)
    requires Roomy(room)
    ensures h >= 0.0 && forall k :: 0 <= k < |row| ==> room(row[k]).h <= h
    ensures row == [] ==> h == 0.0
    ensures row != [] ==> exists k :: 0 <= k < |row| && room(row[k]).h == h
  {
    if row == [] then 0.0 else Max(Tallest(row[..|row| - 1], room), room(row[|row| - 1]).h)
  }

  /** The seats of `row`, side by side from `x` on, all with their top at `y`. */
  ghost predicate InRow(seats: seq<Seat>, row: seq<string>, room: Rooms, x: real, y: real) {
    && |seats| == |row|
    && (forall k :: 0 <= k < |row| ==> seats[k].id == row[k] && Taken(room, seats[k]).y == y)
    && (row != [] ==> Taken(room, seats[0]).x == x)
    && (forall k :: 0 < k < |row| ==>
          Taken(room, seats[k]).x == Taken(room, seats[k - 1]).x + room(row[k - 1]).w + CARD_GAP_X)
  }

  /** How far the first free place of a row is from its left end. */
  ghost function RowOffset(row: seq<string>, room: Rooms): real {
    if row == [] then 0.0 else RowOffset(row[..|row| - 1], room) + room(row[|row| - 1]).w + CARD_GAP_X
  }

  ghost function RowSeats(row: seq<string>, room: Rooms, x: real, y: real): seq<Seat> {
    if row == [] then []
    else
      var n := |row| - 1;
      RowSeats(row[..n], room, x, y) + [Seat(row[n], Point(x + RowOffset(row[..n], room) - room(row[n]).x, y - room(row[n]).y))]
  }

  method LayRow(row: seq<string>, room: Rooms, x0: real, y: real) returns (seats: seq<Seat>)
    ensures seats == RowSeats(row, room, x0, y)
  {
    seats := [];
    var x := x0;
    for k := 0 to |row|
      invariant seats == RowSeats(row[..k], room, x0, y) && x == x0 + RowOffset(row[..k], room)
    {
      var lead := Point(-room(row[k]).x, -room(row[k]).y);
      assert row[..k + 1][..k] == row[..k];
      seats := seats + [Seat(row[k], Point(x + lead.x, y + lead.y))];
      x := x + room(row[k]).w + CARD_GAP_X;
    }
    assert row[..|row|] == row;
  }

  lemma {:induction false} SeatsInRow(row: seq<string>, room: Rooms, x: real, y: real)
    ensures InRow(RowSeats(row, room, x, y), row, room, x, y)
    ensures row != [] ==>
      Taken(room, RowSeats(row, room, x, y)[|row| - 1]).x == x + RowOffset(row[..|row| - 1], room)
  {
    if row != [] {
      SeatsInRow(row[..|row| - 1], room, x, y);
    }
  }

  lemma SpanNext(row: seq<string>, room: Rooms)
    requires row != []
    ensures var n := |row| - 1;
            RowSpan(row, room) == (if n == 0 then 0.0 else RowSpan(row[..n], room) + CARD_GAP_X) + room(row[n]).w
  {
    var n := |row| - 1;
    assert Widths(row, room) == Widths(row[..n], room) + room(row[n]).w;
    assert n > 0 ==> CARD_GAP_X * n as real == CARD_GAP_X * (n - 1) as real + CARD_GAP_X;
  }

  /** A row runs to exactly its span, and its cards stand in order, a gap between each two. */
  lemma {:induction false} RowRuns(seats: seq<Seat>, row: seq<string>, room: Rooms, x: real, y: real, a: nat)
    requires InRow(seats, row, room, x, y) && Roomy(room) && a < |row|
    ensures x <= Taken(room, seats[a]).x
    ensures Taken(room, seats[|row| - 1]).x + room(row[|row| - 1]).w == x + RowSpan(row, room)
    ensures Taken(room, seats[a]).x + room(row[a]).w <= x + RowSpan(row, room)
    ensures a < |row| - 1 ==> Taken(room, seats[a]).x + room(row[a]).w + CARD_GAP_X <= Taken(room, seats[|row| - 1]).x
  {
    var n := |row| - 1;
    if n > 0 {
      RowRuns(seats[..n], row[..n], room, x, y, if a < n then a else n - 1);
    }
    SpanNext(row, room);
  }

  lemma RowInOrder(seats: seq<Seat>, row: seq<string>, room: Rooms, x: real, y: real, a: nat, b: nat)
    requires InRow(seats, row, room, x, y) && Roomy(room) && a < b < |row|
    ensures Taken(room, seats[a]).x + room(row[a]).w + CARD_GAP_X <= Taken(room, seats[b]).x
  {
    RowRuns(seats[..b + 1], row[..b + 1], room, x, y, a);
  }

  /** `b` is read after `a`: to its right on the same row, or on a row under all of it. */
  ghost predicate ReadAfter(a: Rect, b: Rect) {
    || (a.y == b.y && a.x + a.w + CARD_GAP_X <= b.x)
    || a.y + a.h + CARD_GAP_Y <= b.y
  }

  /** The cards of a block lie within it and are read in the order they are listed. */
  ghost predicate Block(c: Contents, room: Rooms) {
    && (forall i :: 0 <= i < |c.cards| ==> Inside(Taken(room, c.cards[i]), Rect(0.0, 0.0, c.width, c.height)))
    && (forall i, j :: 0 <= i < j < |c.cards| ==> ReadAfter(Taken(room, c.cards[i]), Taken(room, c.cards[j])))
  }

  function SeatIds(seats: seq<Seat>): (ids: seq<string>)
    ensures |ids| == |seats| && forall k :: 0 <= k < |ids| ==> ids[k] == seats[k].id
  {
    seq(|seats|, k requires 0 <= k < |seats| => seats[k].id)
  }

  /** The cards so far are in order within `height`, and the next row, at `y`, is under all of them. */
  ghost predicate Stacked(cards: seq<Seat>, y: real, height: real, room: Rooms, width: real) {
    && 0.0 <= height <= y
    && Block(Contents(cards, width, height), room)
    && (forall i :: 0 <= i < |cards| ==> Taken(room, cards[i]).y + Taken(room, cards[i]).h + CARD_GAP_Y <= y)
  }

  /** One more row under a block: it is read after all that is there. */
  lemma RowComesLater(cards: seq<Seat>, seats: seq<Seat>, row: seq<string>, room: Rooms, x: real, y: real, height: real, width: real)
    requires Roomy(room) && InRow(seats, row, room, x, y) && Stacked(cards, y, height, room, width)
    ensures forall i, j :: 0 <= i < j < |cards + seats| ==> ReadAfter(Taken(room, (cards + seats)[i]), Taken(room, (cards + seats)[j]))
  {
    hide RowSpan, Roomy;
    var all := cards + seats;
    forall i, j | 0 <= i < j < |all|
      ensures ReadAfter(Taken(room, all[i]), Taken(room, all[j]))
    {
      if i >= |cards| {
        RowInOrder(seats, row, room, x, y, i - |cards|, j - |cards|);
      } else if j >= |cards| {
        assert all[i] == cards[i] && all[j] == seats[j - |cards|];
      } else {
        assert ReadAfter(Taken(room, cards[i]), Taken(room, cards[j]));
      }
    }
  }

  /** The block with the row is as tall as the row needs. */
  lemma {:induction false} BlockGrows(cards: seq<Seat>, seats: seq<Seat>, row: seq<string>, room: Rooms, width: real, y: real, height: real)
    requires Roomy(room) && RowSpan(row, room) <= width && 0.0 <= y
    requires InRow(seats, row, room, (width - RowSpan(row, room)) / 2.0, y)
    requires Stacked(cards, y, height, room, width)
    ensures Stacked(cards + seats, y + Tallest(row, room) + CARD_GAP_Y, y + Tallest(row, room), room, width)
  {
    hide RowSpan, ReadAfter;
    var all := cards + seats;
    var x := (width - RowSpan(row, room)) / 2.0;
    RowComesLater(cards, seats, row, room, x, y, height, width);
    forall i | 0 <= i < |all|
      ensures Inside(Taken(room, all[i]), Rect(0.0, 0.0, width, y + Tallest(row, room)))
    {
      if i >= |cards| {
        RowRuns(seats, row, room, x, y, i - |cards|);
      } else {
        assert Inside(Taken(room, cards[i]), Rect(0.0, 0.0, width, height));
      }
    }
  }

  lemma SeatIdsAppend(a: seq<Seat>, b: seq<Seat>, ids: seq<string>)
    requires |b| == |ids| && forall k :: 0 <= k < |ids| ==> b[k].id == ids[k]
    ensures SeatIds(a + b) == SeatIds(a) + ids
  {
    forall k | 0 <= k < |a + b|
      ensures SeatIds(a + b)[k] == (SeatIds(a) + ids)[k]
    {
    }
  }

  /** One more row under a block: centred, a gap under the tallest card of the last row. */
  ghost function AddRow(above: Contents, first: bool, row: seq<string>, room: Rooms): Contents
    requires Roomy(room)
  {
    var y := if first then 0.0 else above.height + CARD_GAP_Y;
    Contents(above.cards + RowSeats(row, room, (above.width - RowSpan(row, room)) / 2.0, y), above.width, y + Tallest(row, room))
  }

  ghost function LaidOut(chunks: seq<seq<string>>, room: Rooms, width: real): (c: Contents)
    requires Roomy(room)
    ensures c.width == width
  {
    if chunks == [] then Contents([], width, 0.0)
    else AddRow(LaidOut(chunks[..|chunks| - 1], room, width), |chunks| == 1, chunks[|chunks| - 1], room)
  }

  lemma AddRowLists(above: Contents, first: bool, row: seq<string>, room: Rooms)
    requires Roomy(room)
    ensures SeatIds(AddRow(above, first, row, room).cards) == SeatIds(above.cards) + row
  {
    var y := if first then 0.0 else above.height + CARD_GAP_Y;
    var x := (above.width - RowSpan(row, room)) / 2.0;
    SeatsInRow(row, room, x, y);
    SeatIdsAppend(above.cards, RowSeats(row, room, x, y), row);
  }

  /** However the rows are folded, the block lists every card of them once, in order. */
  lemma {:induction false} LaidOutLists(chunks: seq<seq<string>>, room: Rooms, width: real)
    requires Roomy(room)
    ensures SeatIds(LaidOut(chunks, room, width).cards) == Flatten(chunks)
  {
    if chunks != [] {
      var n := |chunks| - 1;
      LaidOutLists(chunks[..n], room, width);
      AddRowLists(LaidOut(chunks[..n], room, width), n == 0, chunks[n], room);
    }
  }

  lemma AddRowStacks(above: Contents, first: bool, row: seq<string>, room: Rooms)
    requires Roomy(room) && RowSpan(row, room) <= above.width
    requires Stacked(above.cards, above.height + CARD_GAP_Y, above.height, room, above.width)
    requires first ==> above.cards == [] && above.height == 0.0
    ensures var c := AddRow(above, first, row, room);
            Stacked(c.cards, c.height + CARD_GAP_Y, c.height, room, above.width)
  {
    hide RowSeats, RowSpan, Tallest, InRow;
    var y := if first then 0.0 else above.height + CARD_GAP_Y;
    var x := (above.width - RowSpan(row, room)) / 2.0;
    SeatsInRow(row, room, x, y);
    BlockGrows(above.cards, RowSeats(row, room, x, y), row, room, above.width, y, above.height);
  }

  /** It keeps its cards apart, and holds them all. */
  lemma {:induction false} LaidOutIsBlock(chunks: seq<seq<string>>, room: Rooms, width: real)
    requires Roomy(room) && forall k :: 0 <= k < |chunks| ==> RowSpan(chunks[k], room) <= width
    ensures var c := LaidOut(chunks, room, width);
            Stacked(c.cards, c.height + CARD_GAP_Y, c.height, room, width)
  {
    if chunks != [] {
      var n := |chunks| - 1;
      LaidOutIsBlock(chunks[..n], room, width);
      AddRowStacks(LaidOut(chunks[..n], room, width), n == 0, chunks[n], room);
    }
  }

  /** The two ends of a row are as far from the two sides of the block. */
  lemma RowIsCentred(row: seq<string>, room: Rooms, width: real, y: real)
    requires Roomy(room) && row != []
    ensures var seats := RowSeats(row, room, (width - RowSpan(row, room)) / 2.0, y);
            && |seats| == |row|
            && Taken(room, seats[0]).x == width - (Taken(room, seats[|row| - 1]).x + Taken(room, seats[|row| - 1]).w)
  {
    var x := (width - RowSpan(row, room)) / 2.0;
    SeatsInRow(row, room, x, y);
    RowRuns(RowSeats(row, room, x, y), row, room, x, y, 0);
  }

  /** The loop lays out exactly the block LaidOut specifies. */
  method Lay(chunks: seq<seq<string>>, room: Rooms, width: real) returns (c: Contents)
    requires Roomy(room)
    ensures c == LaidOut(chunks, room, width)
  {
    var cards: seq<Seat> := [];
    var y, height := 0.0, 0.0;
    for n := 0 to |chunks|
      invariant Contents(cards, width, height) == LaidOut(chunks[..n], room, width)
      invariant y == if n == 0 then 0.0 else height + CARD_GAP_Y
    {
      assert chunks[..n + 1][..n] == chunks[..n];
      var seats := LayRow(chunks[n], room, (width - RowSpan(chunks[n], room)) / 2.0, y);
      cards := cards + seats;
      height := y + Tallest(chunks[n], room);
      y := y + Tallest(chunks[n], room) + CARD_GAP_Y;
    }
    assert chunks[..|chunks|] == chunks;
    c := Contents(cards, width, height);
  }

  // ---- one container's contents ----

  /** How the depth rows are folded: as they are, or in runs of so many cards as a rule says for each. */
  datatype Fold = Unfolded | Folded(per: seq<string> --> nat)

  /** The rule answers for every row that has cards, with one or more to a line. A rule that counts the
      cards answers for an empty row too; one that reads the largest card of the row does not. */
  ghost predicate SoundFold(fold: Fold) {
    fold.Folded? ==> forall row :: row != [] ==> fold.per.requires(row) && fold.per(row) >= 1
  }

  ghost predicate ReadsEmptyRows(fold: Fold) {
    fold.Folded? ==> fold.per.requires([]) && fold.per([]) >= 1
  }

  /** Nobody among the members was handed off, further up, by themselves. */
  ghost predicate NoLoops(members: seq<Agent>) {
    forall parents, k :: AreHandOffs(parents, members) && 0 <= k < |members| ==> !Loops(parents, members[k].id)
  }

  /** The rule answers for every row these members make. */
  ghost predicate Folds(fold: Fold, members: seq<Agent>) {
    SoundFold(fold) && (ReadsEmptyRows(fold) || NoLoops(members))
  }

  function Broadest(chunks: seq<seq<string>>, room: Rooms): (w: real)
    ensures forall k :: 0 <= k < |chunks| ==> RowSpan(chunks[k], room) <= w
    ensures w >= 0.0
  {
    if chunks == [] then 0.0 else Max(Broadest(chunks[..|chunks| - 1], room), RowSpan(chunks[|chunks| - 1], room))
  }

  // ---- the block is as small as its cards allow ----

  /** Some card reaches the left side, some the right, and some the bottom. */
  ghost predicate Snug(c: Contents, room: Rooms) {
    && (exists i :: 0 <= i < |c.cards| && Taken(room, c.cards[i]).x == 0.0)
    && (exists i :: 0 <= i < |c.cards| && Taken(room, c.cards[i]).x + Taken(room, c.cards[i]).w == c.width)
    && (exists i :: 0 <= i < |c.cards| && Taken(room, c.cards[i]).y + Taken(room, c.cards[i]).h == c.height)
  }

  ghost predicate FromTop(c: Contents, room: Rooms) {
    exists i :: 0 <= i < |c.cards| && Taken(room, c.cards[i]).y == 0.0
  }

  lemma {:induction false} SpanIsPositive(row: seq<string>, room: Rooms)
    requires Roomy(room) && row != []
    ensures RowSpan(row, room) > 0.0
  {
    hide RowSpan;
    SpanNext(row, room);
    if |row| > 1 {
      SpanIsPositive(row[..|row| - 1], room);
    }
  }

  /** The broadest row is one of the rows, unless none has a card. */
  lemma {:induction false} BroadestIsARow(chunks: seq<seq<string>>, room: Rooms) returns (m: nat)
    requires Roomy(room) && exists k :: 0 <= k < |chunks| && chunks[k] != []
    ensures m < |chunks| && chunks[m] != [] && RowSpan(chunks[m], room) == Broadest(chunks, room)
  {
    hide RowSpan;
    var n := |chunks| - 1;
    assert RowSpan([], room) == 0.0 by {
      NoSpan(room);
    }
    if exists k :: 0 <= k < n && chunks[..n][k] != [] {
      m := BroadestIsARow(chunks[..n], room);
      SpanIsPositive(chunks[m], room);
      if RowSpan(chunks[n], room) > RowSpan(chunks[m], room) {
        m := n;
      }
    } else {
      assert forall k :: 0 <= k < n ==> chunks[..n][k] == chunks[k];
      NoneBroad(chunks[..n], room);
      SpanIsPositive(chunks[n], room);
      m := n;
    }
  }

  lemma NoSpan(room: Rooms)
    ensures RowSpan([], room) == 0.0
  {
  }

  lemma {:induction false} NoneBroad(chunks: seq<seq<string>>, room: Rooms)
    requires forall k :: 0 <= k < |chunks| ==> chunks[k] == []
    ensures Broadest(chunks, room) == 0.0
  {
    if chunks != [] {
      NoneBroad(chunks[..|chunks| - 1], room);
      NoSpan(room);
    }
  }

  /** The seats of a row stay where they are as more rows are laid under it. */
  lemma {:induction false} SeatsStay(chunks: seq<seq<string>>, room: Rooms, width: real, m: nat)
    requires Roomy(room) && 0 < m <= |chunks|
    ensures LaidOut(chunks[..m], room, width).cards <= LaidOut(chunks, room, width).cards
    decreases |chunks|
  {
    hide RowSeats, RowSpan, Tallest;
    if m < |chunks| {
      SeatsStay(chunks[..|chunks| - 1], room, width, m);
      assert chunks[..|chunks| - 1][..m] == chunks[..m];
    } else {
      assert chunks[..m] == chunks;
    }
  }

  /** A row of its own, once it has been added: a card at its left end, at its right end, on its top and
      one that reaches its bottom. */
  lemma AddedRowReaches(above: Contents, first: bool, row: seq<string>, room: Rooms)
    requires Roomy(room) && row != []
    ensures var c := AddRow(above, first, row, room);
            && (first ==> above.cards == [] ==> FromTop(c, room))
            && (exists i :: 0 <= i < |c.cards| && Taken(room, c.cards[i]).y + Taken(room, c.cards[i]).h == c.height)
    ensures var c := AddRow(above, first, row, room);
            RowSpan(row, room) == above.width ==>
              && (exists i :: 0 <= i < |c.cards| && Taken(room, c.cards[i]).x == 0.0)
              && (exists i :: 0 <= i < |c.cards| && Taken(room, c.cards[i]).x + Taken(room, c.cards[i]).w == above.width)
  {
    hide RowSeats, RowSpan;
    var y := if first then 0.0 else above.height + CARD_GAP_Y;
    var x := (above.width - RowSpan(row, room)) / 2.0;
    var seats := RowSeats(row, room, x, y);
    SeatsInRow(row, room, x, y);
    RowRuns(seats, row, room, x, y, 0);
    var c := AddRow(above, first, row, room);
    var n, last := |above.cards|, |row| - 1;
    var k :| 0 <= k < |row| && room(row[k]).h == Tallest(row, room);
    assert c.cards[n] == seats[0] && c.cards[n + k] == seats[k] && c.cards[n + last] == seats[last];
    assert Taken(room, seats[0]).y == y;
  }

  lemma {:induction false} ReachesSides(chunks: seq<seq<string>>, room: Rooms, width: real, m: nat)
    requires Roomy(room) && m < |chunks| && chunks[m] != [] && RowSpan(chunks[m], room) == width
    ensures var c := LaidOut(chunks, room, width);
            && (exists i :: 0 <= i < |c.cards| && Taken(room, c.cards[i]).x == 0.0)
            && (exists i :: 0 <= i < |c.cards| && Taken(room, c.cards[i]).x + Taken(room, c.cards[i]).w == width)
  {
    hide RowSpan, AddRow, Taken;
    assert chunks[..m + 1][..m] == chunks[..m];
    AddedRowReaches(LaidOut(chunks[..m], room, width), m == 0, chunks[m], room);
    SeatsStay(chunks, room, width, m + 1);
    hide LaidOut;
    var c, part := LaidOut(chunks, room, width), LaidOut(chunks[..m + 1], room, width);
    var i :| 0 <= i < |part.cards| && Taken(room, part.cards[i]).x == 0.0;
    var j :| 0 <= j < |part.cards| && Taken(room, part.cards[j]).x + Taken(room, part.cards[j]).w == width;
    assert c.cards[i] == part.cards[i] && c.cards[j] == part.cards[j];
  }

  lemma {:induction false} ReachesTop(chunks: seq<seq<string>>, room: Rooms, width: real)
    requires Roomy(room) && chunks != [] && chunks[0] != []
    ensures FromTop(LaidOut(chunks, room, width), room)
  {
    hide RowSpan, AddRow, Taken;
    assert chunks[..1][..0] == [];
    AddedRowReaches(LaidOut([], room, width), true, chunks[0], room);
    SeatsStay(chunks, room, width, 1);
    var c, part := LaidOut(chunks, room, width), LaidOut(chunks[..1], room, width);
    var i :| 0 <= i < |part.cards| && Taken(room, part.cards[i]).y == 0.0;
    assert c.cards[i] == part.cards[i];
  }

  /** Laid out as wide as their broadest row, the rows leave no room unused at the sides or the bottom,
      nor at the top when the first has cards. */
  lemma {:induction false} LaidOutIsSnug(chunks: seq<seq<string>>, room: Rooms)
    requires Roomy(room) && chunks != [] && chunks[|chunks| - 1] != []
    ensures var c := LaidOut(chunks, room, Broadest(chunks, room));
            Snug(c, room) && (chunks[0] != [] ==> FromTop(c, room))
  {
    hide RowSpan, AddRow, Broadest, FromTop, Taken;
    var width, n := Broadest(chunks, room), |chunks| - 1;
    AddedRowReaches(LaidOut(chunks[..n], room, width), n == 0, chunks[n], room);
    var m := BroadestIsARow(chunks, room);
    ReachesSides(chunks, room, width, m);
    if chunks[0] != [] {
      ReachesTop(chunks, room, width);
    }
  }

  /** The last row has cards, and so has the first when no hand-offs loop. */
  lemma {:induction false} RowsHaveCards(members: seq<Agent>, parents: map<string, string>, rows: seq<seq<string>>)
    requires AreHandOffs(parents, members) && AreRows(rows, members, parents) && rows != []
    ensures rows[|rows| - 1] != [] && Flatten(rows) != []
    ensures NoLoops(members) ==> forall d :: 0 <= d < |rows| ==> rows[d] != []
  {
    AtDepthNotEmpty(members, parents, |rows| - 1, |members|);
    EmptyRowMeansLoop(members, parents, rows);
  }

  ghost predicate LinesOf(lines: seq<seq<string>>, rows: seq<seq<string>>, fold: Fold) {
    match fold
    case Unfolded => lines == rows
    case Folded(per) => FoldedRows(lines, rows, per)
  }

  /** The contents are the members' depth rows, folded by the rule and laid out as wide as the broadest line. */
  ghost predicate AsFolded(members: seq<Agent>, room: Rooms, fold: Fold, c: Contents)
    requires Roomy(room)
  {
    exists parents: map<string, string>, rows: seq<seq<string>>, lines: seq<seq<string>> ::
      && AreHandOffs(parents, members) && AreRows(rows, members, parents) && LinesOf(lines, rows, fold)
      && c == LaidOut(lines, room, Broadest(lines, room))
  }

  lemma NothingFolded(members: seq<Agent>, parents: map<string, string>, rows: seq<seq<string>>, room: Rooms, fold: Fold)
    requires Roomy(room) && AreHandOffs(parents, members) && AreRows(rows, members, parents) && rows == []
    ensures AsFolded(members, room, fold, Contents([], 0.0, 0.0))
  {
    hide AreHandOffs, AreRows;
    var folds: seq<seq<seq<string>>> := [];
    var lines: seq<seq<string>> := [];
    assert Flatten(folds) == lines;
    assert fold.Folded? ==> AllRuns(folds, rows, fold.per);
    assert LinesOf(lines, rows, fold);
  }

  /** The lines the rows are laid out in. */
  method FoldRows(rows: seq<seq<string>>, fold: Fold, ghost members: seq<Agent>, ghost parents: map<string, string>)
    returns (chunks: seq<seq<string>>)
    requires Folds(fold, members) && AreHandOffs(parents, members) && AreRows(rows, members, parents) && rows != []
    ensures Flatten(chunks) == Flatten(rows)
    ensures chunks != [] && chunks[|chunks| - 1] != [] && (NoLoops(members) ==> chunks[0] != [])
    ensures LinesOf(chunks, rows, fold)
  {
    hide AreHandOffs, AreRows, NoLoops, FoldedRows;
    RowsHaveCards(members, parents, rows);
    chunks := rows;
    if fold.Folded? {
      chunks := Chunks(rows, fold.per);
    }
  }

  /** The cards of one container. Whatever the rings and the folding, every member has exactly one
      seat, no two cards with their delegates are close, and all lie within the contents, which are no
      wider, and reach no further down, than they must. */
  method InsideOf(members: seq<Agent>, room: Rooms, fold: Fold) returns (c: Contents)
    requires DistinctIds(members) && Roomy(room) && Folds(fold, members)
    ensures multiset(SeatIds(c.cards)) == multiset(Ids(members))
    ensures Block(c, room) && c.width >= 0.0 && c.height >= 0.0
    ensures members != [] ==> Snug(c, room) && (NoLoops(members) ==> FromTop(c, room))
    ensures AsFolded(members, room, fold, c)
  {
    hide AreRows, AreHandOffs, NoLoops, Folds, LaidOut, Broadest, Snug, FromTop, LinesOf;
    var rows, parents := RowsByDepth(members);
    if rows == [] {
      NobodyThere(members);
      NothingFolded(members, parents, rows, room, fold);
      return Contents([], 0.0, 0.0);
    }
    var chunks := FoldRows(rows, fold, members, parents);
    var width := Broadest(chunks, room);
    c := Lay(chunks, room, width);
    LaidOutLists(chunks, room, width);
    LaidOutIsBlock(chunks, room, width);
    LaidOutIsSnug(chunks, room);
  }

  lemma NobodyThere(members: seq<Agent>)
    requires multiset(Ids(members)) == multiset(Flatten([]))
    ensures members == []
  {
    assert |multiset(Ids(members))| == |members|;
  }
}
