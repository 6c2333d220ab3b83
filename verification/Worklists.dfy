/** Two worklists that close a set under links: packages that are built, and scripts that are fetched. */
module Worklists {

  // ---- reachability ----

  /** `path` follows links from a seed. */
  ghost predicate Path(links: string -> seq<string>, seeds: seq<string>, path: seq<string>) {
    && path != [] && path[0] in seeds
    && forall i {:trigger links(path[i])} :: 0 <= i < |path| - 1 ==> path[i + 1] in links(path[i])
  }

  ghost predicate Reachable(links: string -> seq<string>, seeds: seq<string>, x: string) {
    exists path :: Path(links, seeds, path) && path[|path| - 1] == x
  }

  ghost predicate Closed(links: string -> seq<string>, seen: set<string>) {
    forall x, y :: x in seen && y in links(x) ==> y in seen
  }

  lemma SeedIsReachable(links: string -> seq<string>, seeds: seq<string>, x: string)
    requires x in seeds
    ensures Reachable(links, seeds, x)
  {
    assert Path(links, seeds, [x]) && [x][|[x]| - 1] == x;
  }

  lemma LinkIsReachable(links: string -> seq<string>, seeds: seq<string>, x: string, y: string)
    requires Reachable(links, seeds, x) && y in links(x)
    ensures Reachable(links, seeds, y)
  {
    var path :| Path(links, seeds, path) && path[|path| - 1] == x;
    var more := path + [y];
    forall i | 0 <= i < |more| - 1
      ensures more[i + 1] in links(more[i])
    {
      assert more[i] == path[i];
      if i + 1 < |path| {
        assert more[i + 1] == path[i + 1];
        assert path[i + 1] in links(path[i]);
      }
    }
    assert Path(links, seeds, more) && more[|more| - 1] == y;
  }

  /** A closed set that holds the seeds holds everything reachable: it is the least one there can be. */
  lemma ClosedHoldsReachable(links: string -> seq<string>, seeds: seq<string>, seen: set<string>)
    requires Closed(links, seen) && forall s :: s in seeds ==> s in seen
    ensures forall x :: Reachable(links, seeds, x) ==> x in seen
  {
    forall x | Reachable(links, seeds, x)
      ensures x in seen
    {
      var path :| Path(links, seeds, path) && path[|path| - 1] == x;
      PathStaysIn(links, seeds, seen, path, |path| - 1);
    }
  }

  lemma {:induction false} PathStaysIn(links: string -> seq<string>, seeds: seq<string>, seen: set<string>, path: seq<string>, i: nat)
    requires Closed(links, seen) && (forall s :: s in seeds ==> s in seen) && Path(links, seeds, path) && i < |path|
    ensures path[i] in seen
  {
    if i > 0 {
      PathStaysIn(links, seeds, seen, path, i - 1);
      assert path[i] in links(path[i - 1]);
    }
  }

  /** Half done: what is seen is reachable, what waits is too, and every link of what is seen is one of these. */
  ghost predicate Closing(links: string -> seq<string>, seeds: seq<string>, seen: set<string>, waiting: seq<string>) {
    && (forall x :: x in seen || x in waiting ==> Reachable(links, seeds, x))
    && (forall s :: s in seeds ==> s in seen || s in waiting)
    && (forall x, y :: x in seen && y in links(x) ==> y in seen || y in waiting)
  }

  lemma ClosingStarts(links: string -> seq<string>, seeds: seq<string>)
    ensures Closing(links, seeds, {}, seeds)
  {
    forall x | x in seeds
      ensures Reachable(links, seeds, x)
    {
      SeedIsReachable(links, seeds, x);
    }
  }

  lemma ClosingEnds(links: string -> seq<string>, seeds: seq<string>, seen: set<string>)
    requires Closing(links, seeds, seen, [])
    ensures forall x :: x in seen <==> Reachable(links, seeds, x)
  {
    ClosedHoldsReachable(links, seeds, seen);
  }

  // ---- the packages a build can reach ----

  datatype Kind = Normal | BuildScript | DevOnly

  datatype Dep = Dep(pkg: string, kinds: seq<Kind>)

  /** The packages that each package's normal and build edges name. */
  function Built(deps: seq<Dep>): (pkgs: seq<string>)
    ensures forall p :: p in pkgs <==> exists d :: d in deps && d.pkg == p && (Normal in d.kinds || BuildScript in d.kinds)
  {
    if deps == [] then []
    else
      var rest, d := Built(deps[..|deps| - 1]), deps[|deps| - 1];
      assert deps == deps[..|deps| - 1] + [d];
      if Normal in d.kinds || BuildScript in d.kinds then rest + [d.pkg] else rest
  }

  function BuiltLinks(nodes: map<string, seq<Dep>>): string -> seq<string> {
    (p: string) => if p in nodes then Built(nodes[p]) else []
  }

  /** Exactly the packages that some chain of normal and build edges leads to from a workspace member;
      a test-only edge leads nowhere. */
  method ReachablePackages(nodes: map<string, seq<Dep>>, members: seq<string>) returns (seen: set<string>)
    requires forall m :: m in members ==> m in nodes
    requires forall p, d :: p in nodes && d in nodes[p] ==> d.pkg in nodes
    ensures forall p :: p in seen <==> Reachable(BuiltLinks(nodes), members, p)
  {
    hide Reachable, Built, Closing, BuiltLinks;
    seen := {};
    var stack := members;
    ghost var links := BuiltLinks(nodes);
    ClosingStarts(links, members);
    while stack != []
      invariant seen <= nodes.Keys && forall p :: p in stack ==> p in nodes
      invariant Closing(links, members, seen, stack)
      decreases nodes.Keys - seen, |stack|
    {
      var pid := stack[|stack| - 1];
      assert stack == stack[..|stack| - 1] + [pid];
      stack := stack[..|stack| - 1];
      if pid in seen {
        AlreadySeen(links, members, seen, stack, pid);
        continue;
      }
      var deps := Built(nodes[pid]);
      DepsAreNodes(nodes, pid);
      TakenUp(links, members, seen, stack, pid);
      seen := seen + {pid};
      stack := stack + deps;
    }
    ClosingEnds(links, members, seen);
  }

  lemma AlreadySeen(links: string -> seq<string>, seeds: seq<string>, seen: set<string>, rest: seq<string>, x: string)
    requires Closing(links, seeds, seen, rest + [x]) && x in seen
    ensures Closing(links, seeds, seen, rest)
  {
    hide Reachable;
    assert forall y :: y in rest + [x] <==> y in rest || y == x;
  }

  lemma TakenUp(links: string -> seq<string>, seeds: seq<string>, seen: set<string>, rest: seq<string>, x: string)
    requires Closing(links, seeds, seen, rest + [x])
    ensures Closing(links, seeds, seen + {x}, rest + links(x))
  {
    hide Reachable;
    assert forall y :: y in rest + [x] <==> y in rest || y == x;
    NextReachable(links, seeds, x);
  }

  lemma DepsAreNodes(nodes: map<string, seq<Dep>>, pid: string)
    requires pid in nodes && forall p, d :: p in nodes && d in nodes[p] ==> d.pkg in nodes
    ensures BuiltLinks(nodes)(pid) == Built(nodes[pid]) && forall p :: p in Built(nodes[pid]) ==> p in nodes
  {
    forall p | p in Built(nodes[pid])
      ensures p in nodes
    {
      var d :| d in nodes[pid] && d.pkg == p;
    }
  }

  lemma NextReachable(links: string -> seq<string>, seeds: seq<string>, x: string)
    requires Reachable(links, seeds, x)
    ensures forall y :: y in links(x) ==> Reachable(links, seeds, y)
  {
    forall y | y in links(x)
      ensures Reachable(links, seeds, y)
    {
      LinkIsReachable(links, seeds, x, y);
    }
  }

  // ---- the scripts an import can reach ----

  /** The urls not yet seen, each once, in the order they first come up. */
  function Fresh(queue: seq<string>, seen: set<string>): (batch: seq<string>)
    ensures forall u :: u in batch <==> u in queue && u !in seen
    ensures forall i, j :: 0 <= i < j < |batch| ==> batch[i] != batch[j]
  {
    if queue == [] then []
    else
      var front, u := Fresh(queue[..|queue| - 1], seen), queue[|queue| - 1];
      assert queue == queue[..|queue| - 1] + [u];
      if u in seen || u in front then front else front + [u]
  }

  /** Fetches the batch and gathers what it links to that is not seen yet. */
  method FetchBatch(fetch: string -> string, links: string -> seq<string>, batch: seq<string>, seen: set<string>, bodies: map<string, string>)
    returns (bodies': map<string, string>, queue: seq<string>)
    requires bodies.Keys + SetOf(batch) == seen && forall u :: u in bodies ==> bodies[u] == fetch(u)
    ensures bodies'.Keys == seen && forall u :: u in bodies' ==> bodies'[u] == fetch(u)
    ensures forall u :: u in queue ==> exists b :: b in batch && u in links(b)
    ensures forall b, u :: b in batch && u in links(b) ==> u in seen || u in queue
  {
    bodies', queue := bodies, [];
    for i := 0 to |batch|
      invariant bodies'.Keys == bodies.Keys + SetOf(batch[..i])
      invariant forall u :: u in bodies' ==> bodies'[u] == fetch(u)
      invariant forall u :: u in queue ==> exists b :: b in batch && u in links(b)
      invariant forall k, u :: 0 <= k < i && u in links(batch[k]) ==> u in seen || u in queue
    {
      var url := batch[i];
      assert batch[..i + 1] == batch[..i] + [url] && url in batch;
      bodies' := bodies'[url := fetch(url)];
      var found := links(url);
      ghost var before := queue;
      for k := 0 to |found|
        invariant forall u :: u in before ==> u in queue
        invariant forall u :: u in queue ==> u in before || u in found
        invariant forall j :: 0 <= j < k ==> found[j] in seen || found[j] in queue
      {
        if found[k] !in seen {
          queue := queue + [found[k]];
        }
      }
    }
    assert batch[..|batch|] == batch;
  }

  function SetOf(s: seq<string>): set<string> {
    set x | x in s
  }

  /** Everything the seeds lead to by links is fetched, each url once, and nothing else is. `universe` is
      any finite set that the links stay in; `log` lists the urls as they were fetched. */
  method CloseDependencies(fetch: string -> string, links: string -> seq<string>, seeds: seq<string>, ghost universe: set<string>)
    returns (bodies: map<string, string>, ghost log: seq<string>)
    requires Closed(links, universe) && forall s :: s in seeds ==> s in universe
    ensures forall u :: u in bodies <==> Reachable(links, seeds, u)
    ensures forall u :: u in bodies ==> bodies[u] == fetch(u)
    ensures SetOf(log) == bodies.Keys && forall i, j :: 0 <= i < j < |log| ==> log[i] != log[j]
  {
    hide Reachable;
    var seen: set<string> := {};
    var queue := Fresh(seeds, {});
    bodies, log := map[], [];
    ClosingStarts(links, seeds);
    assert Closing(links, seeds, seen, queue);
    while queue != []
      invariant seen <= universe && (forall u :: u in queue ==> u in universe)
      invariant Closing(links, seeds, seen, queue)
      invariant bodies.Keys == seen && forall u :: u in bodies ==> bodies[u] == fetch(u)
      invariant SetOf(log) == seen && forall i, j :: 0 <= i < j < |log| ==> log[i] != log[j]
      decreases universe - seen, |queue|
    {
      var batch := Fresh(queue, seen);
      ghost var was := seen;
      seen := seen + SetOf(batch);
      if batch == [] {
        assert Closing(links, seeds, seen, []);
        queue := [];
        break;
      }
      assert batch[0] in seen && batch[0] !in was;
      LogGrows(log, batch, was);
      log := log + batch;
      var found;
      bodies, found := FetchBatch(fetch, links, batch, seen, bodies);
      ClosingNext(links, seeds, was, queue, batch, found);
      queue := found;
    }
    ClosingEnds(links, seeds, seen);
  }

  lemma LogGrows(log: seq<string>, batch: seq<string>, seen: set<string>)
    requires SetOf(log) == seen && (forall i, j :: 0 <= i < j < |log| ==> log[i] != log[j])
    requires (forall i, j :: 0 <= i < j < |batch| ==> batch[i] != batch[j]) && forall u :: u in batch ==> u !in seen
    ensures SetOf(log + batch) == seen + SetOf(batch)
    ensures forall i, j :: 0 <= i < j < |log + batch| ==> (log + batch)[i] != (log + batch)[j]
  {
    forall i, j | 0 <= i < |log| && 0 <= j < |batch|
      ensures log[i] != batch[j]
    {
      assert log[i] in SetOf(log) && batch[j] in batch;
    }
  }

  lemma ClosingNext(links: string -> seq<string>, seeds: seq<string>, seen: set<string>, queue: seq<string>, batch: seq<string>, found: seq<string>)
    requires Closing(links, seeds, seen, queue)
    requires forall u :: u in batch <==> u in queue && u !in seen
    requires forall u :: u in found ==> exists b :: b in batch && u in links(b)
    requires forall b, u :: b in batch && u in links(b) ==> u in seen + SetOf(batch) || u in found
    ensures Closing(links, seeds, seen + SetOf(batch), found)
    ensures forall universe :: Closed(links, universe) && (forall u :: u in queue ==> u in universe) ==> forall u :: u in found ==> u in universe
  {
    hide Reachable;
    forall b | b in batch
      ensures forall u :: u in links(b) ==> Reachable(links, seeds, u)
    {
      NextReachable(links, seeds, b);
    }
  }
}
