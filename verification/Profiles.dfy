/** Profiles that extend one another: the chain that is walked, and what it folds to. */
module Profiles {
  import opened Options

  // ---- the records ----

  datatype Isolate = Off | Sandboxed(policy: string)

  datatype Defaults = Defaults(mcps: Option<seq<string>>, skills: Option<seq<string>>, model: Option<string>,
                               hooks: Option<seq<string>>, instructions: Option<string>, thinking: Option<string>,
                               prompt: Option<string>)

  /** `parent` is the name the profile extends, if any. */
  datatype Profile = Profile(id: string, parent: Option<string>, account: Option<string>, harness: Option<string>,
                             defaults: Defaults, isolate: Option<Isolate>, mode: Option<string>,
                             maxSubagents: Option<int>, missionAssistant: Option<bool>, tags: seq<string>,
                             disabled: Option<bool>, description: Option<string>, extraRw: seq<string>)

  const NO_DEFAULTS := Defaults(None, None, None, None, None, None, None)
  const BLANK := Profile("", None, None, None, NO_DEFAULTS, None, None, None, None, [], None, None, [])

  datatype Scope = Global | Project

  /** The profiles that can be seen: one project's own over the global ones. */
  datatype Store = Store(global: map<string, Profile>, project: Option<map<string, Profile>>) {
    predicate InProject(id: string) {
      project.Some? && id in project.value
    }

    function Lookup(id: string): Option<Profile> {
      if InProject(id) then Some(project.value[id])
      else if id in global then Some(global[id])
      else None
    }

    function ScopeOf(id: string): Scope {
      if InProject(id) then Project else Global
    }

    function Extends(id: string): Option<string> {
      var p := Lookup(id);
      if p.None? then None else p.value.parent
    }
  }

  // ---- the chain ----

  const MAX_EXTENDS_DEPTH: nat := 16

  datatype Error =
    | TooDeep(seen: seq<string>)
    | Cycle(path: seq<string>)
    | Missing(id: string)
    | Upward(child: string, parent: string)

  datatype Chain = Resolved(profiles: seq<Profile>) | Refused(error: Error)

  /** A global profile does not extend a project's. */
  predicate MayExtend(store: Store, child: string, parent: string) {
    !(store.ScopeOf(child) == Global && store.ScopeOf(parent) == Project)
  }

  /** Each of `ids` exists, and extends the one after it, which it may. */
  ghost predicate Walk(store: Store, ids: seq<string>) {
    && ids != []
    && (forall i :: 0 <= i < |ids| ==> store.Lookup(ids[i]).Some?)
    && (forall i {:trigger store.Extends(ids[i])} :: 0 <= i < |ids| - 1 ==>
          store.Extends(ids[i]) == Some(ids[i + 1]) && MayExtend(store, ids[i], ids[i + 1]))
  }

  /** The whole walk from `name` to a profile that extends nothing, within the depth allowed. */
  ghost predicate Resolves(store: Store, name: string, ids: seq<string>) {
    && Walk(store, ids) && ids[0] == name
    && store.Extends(ids[|ids| - 1]).None?
    && |ids| <= 16
  }

  ghost predicate NoRepeats(ids: seq<string>) {
    forall i, j :: 0 <= i < j < |ids| ==> ids[i] != ids[j]
  }

  /** The profiles of a walk, the last one first. */
  function RootToLeaf(store: Store, ids: seq<string>): (chain: seq<Profile>)
    requires forall i :: 0 <= i < |ids| ==> store.Lookup(ids[i]).Some?
    ensures |chain| == |ids|
    ensures forall i :: 0 <= i < |ids| ==> chain[i] == store.Lookup(ids[|ids| - 1 - i]).value
  {
    seq(|ids|, i requires 0 <= i < |ids| => store.Lookup(ids[|ids| - 1 - i]).value)
  }

  ghost predicate Reached(store: Store, name: string, ids: seq<string>) {
    Walk(store, ids) && ids[0] == name && NoRepeats(ids) && |ids| <= MAX_EXTENDS_DEPTH
  }

  /** The walk `ids` from `name` leads on to `next`, which its last profile may extend. */
  ghost predicate LeadsTo(store: Store, name: string, ids: seq<string>, next: string) {
    Reached(store, name, ids) && store.Extends(ids[|ids| - 1]) == Some(next) && MayExtend(store, ids[|ids| - 1], next)
  }

  /** What each refusal says of the walk `ids`, which is as far as one gets. */
  ghost predicate Justified(store: Store, name: string, error: Error, ids: seq<string>) {
    match error
    case TooDeep(seen) =>
      seen == ids && |ids| == 16 && exists next :: LeadsTo(store, name, ids, next)
    case Cycle(path) =>
      |ids| < 16 && exists at: nat :: at < |ids| && LeadsTo(store, name, ids, ids[at]) && path == ids[at..] + [ids[at]]
    case Missing(id) =>
      && store.Lookup(id).None?
      && (if ids == [] then id == name else |ids| < 16 && LeadsTo(store, name, ids, id))
    case Upward(child, parent) =>
      && Reached(store, name, ids) && ids[|ids| - 1] == child
      && store.Extends(child) == Some(parent) && !MayExtend(store, child, parent)
  }

  /** `profiles` is the whole walk from `name`, root first. */
  ghost predicate IsChain(store: Store, name: string, profiles: seq<Profile>) {
    exists ids :: Resolves(store, name, ids) && profiles == RootToLeaf(store, ids)
  }

  ghost predicate CanResolve(store: Store, name: string) {
    exists ids :: Resolves(store, name, ids)
  }

  ghost predicate WellRefused(store: Store, name: string, error: Error) {
    exists ids :: Justified(store, name, error, ids)
  }

  /** Where the loop of the source has got to. */
  ghost predicate Walking(store: Store, name: string, visited: seq<string>, current: string) {
    if visited == [] then current == name
    else Reached(store, name, visited) && store.Extends(visited[|visited| - 1]) == Some(current)
         && MayExtend(store, visited[|visited| - 1], current)
  }

  method PositionOf(s: seq<string>, x: string) returns (at: Option<nat>)
    ensures at.None? ==> x !in s
    ensures at.Some? ==> at.value < |s| && s[at.value] == x
  {
    for i := 0 to |s|
      invariant x !in s[..i]
    {
      if s[i] == x {
        return Some(i);
      }
    }
    at := None;
  }

  /** The chain from the root to `name`, if and only if the walk up from `name` comes to a profile that
      extends nothing, every profile on it exists and may extend the next, and there are at most sixteen. */
  method ResolveChain(store: Store, name: string) returns (r: Chain)
    ensures r.Resolved? <==> CanResolve(store, name)
    ensures r.Resolved? ==> IsChain(store, name, r.profiles)
    ensures r.Refused? ==> WellRefused(store, name, r.error)
  {
    hide RootToLeaf;
    var chain: seq<Profile> := [];
    var visited: seq<string> := [];
    var current := name;
    while true
      invariant Walking(store, name, visited, current)
      invariant (forall i :: 0 <= i < |visited| ==> store.Lookup(visited[i]).Some?) && |chain| == |visited|
      invariant forall i :: 0 <= i < |chain| ==> chain[i] == store.Lookup(visited[i]).value
      decreases MAX_EXTENDS_DEPTH - |visited|
    {
      if |visited| >= MAX_EXTENDS_DEPTH {
        r := Refused(TooDeep(visited));
        NotResolvedTooDeep(store, name, visited);
        assert LeadsTo(store, name, visited, current);
        assert Justified(store, name, r.error, visited);
        return;
      }
      var at := PositionOf(visited, current);
      if at.Some? {
        r := Refused(Cycle(visited[at.value..] + [current]));
        CycleIsWalk(store, name, visited, current, at.value);
        return;
      }
      var profile := store.Lookup(current);
      if profile.None? {
        r := Refused(Missing(current));
        NotResolvedMissing(store, name, visited, current);
        assert Justified(store, name, r.error, visited);
        return;
      }
      VisitOne(store, name, visited, current);
      visited, chain := visited + [current], chain + [profile.value];
      var parent := profile.value.parent;
      if parent.None? {
        break;
      }
      if store.ScopeOf(current) == Global && store.ScopeOf(parent.value) == Project {
        r := Refused(Upward(current, parent.value));
        NotResolvedUpward(store, name, visited, parent.value);
        assert Justified(store, name, r.error, visited);
        return;
      }
      current := parent.value;
    }
    r := Resolved(Reversed(chain));
    ReversedIsRootToLeaf(store, visited, chain);
    assert Resolves(store, name, visited);
  }

  /** A profile on the chain is the project's own when the project has one of that name. */
  lemma ChainIsOwnFirst(store: Store, name: string, ids: seq<string>, i: nat)
    requires Resolves(store, name, ids) && i < |ids|
    ensures var p := RootToLeaf(store, ids)[|ids| - 1 - i];
            if store.project.Some? && ids[i] in store.project.value then p == store.project.value[ids[i]]
            else ids[i] in store.global && p == store.global[ids[i]]
  {
  }

  /** A global profile that the project has one of the same name for makes no difference to any chain. */
  lemma {:induction false} HiddenIsUnseen(a: Store, b: Store, name: string, ids: seq<string>)
    requires a.project == b.project
    requires forall id :: a.project.None? || id !in a.project.value ==>
      (id in a.global <==> id in b.global) && (id in a.global ==> a.global[id] == b.global[id])
    ensures Resolves(a, name, ids) <==> Resolves(b, name, ids)
    ensures Resolves(a, name, ids) ==> RootToLeaf(a, ids) == RootToLeaf(b, ids)
  {
    forall id: string
      ensures a.Lookup(id) == b.Lookup(id) && a.ScopeOf(id) == b.ScopeOf(id) && a.Extends(id) == b.Extends(id)
    {
    }
  }

  function Reversed<T>(s: seq<T>): (r: seq<T>)
    ensures |r| == |s| && forall i :: 0 <= i < |s| ==> r[i] == s[|s| - 1 - i]
  {
    seq(|s|, i requires 0 <= i < |s| => s[|s| - 1 - i])
  }

  lemma ReversedIsRootToLeaf(store: Store, ids: seq<string>, chain: seq<Profile>)
    requires (forall i :: 0 <= i < |ids| ==> store.Lookup(ids[i]).Some?) && |chain| == |ids|
    requires forall i :: 0 <= i < |chain| ==> chain[i] == store.Lookup(ids[i]).value
    ensures Reversed(chain) == RootToLeaf(store, ids)
  {
  }

  /** Stepping to a profile that exists and was not met yet. */
  lemma VisitOne(store: Store, name: string, visited: seq<string>, current: string)
    requires Walking(store, name, visited, current) && current !in visited && store.Lookup(current).Some?
    requires |visited| < MAX_EXTENDS_DEPTH
    ensures Reached(store, name, visited + [current])
  {
    var more := visited + [current];
    forall i | 0 <= i < |more| - 1
      ensures store.Extends(more[i]) == Some(more[i + 1]) && MayExtend(store, more[i], more[i + 1])
    {
      assert more[i] == visited[i];
      if i + 1 < |visited| {
        assert store.Extends(visited[i]) == Some(visited[i + 1]);
      }
    }
  }

  lemma CycleIsWalk(store: Store, name: string, visited: seq<string>, current: string, at: nat)
    requires Walking(store, name, visited, current) && at < |visited| < 16 && visited[at] == current
    ensures Justified(store, name, Cycle(visited[at..] + [current]), visited)
    ensures forall other :: !Resolves(store, name, other)
  {
    assert LeadsTo(store, name, visited, visited[at]);
    forall other | Resolves(store, name, other)
      ensures false
    {
      WalkIsPrefix(store, visited, other);
      WalksNeverReturn(store, name, other);
      NextAgrees(store, visited, other, current);
    }
  }

  // ---- one walk only ----

  /** Two walks from the same profile agree as far as both go. */
  lemma {:induction false} WalksAgree(store: Store, a: seq<string>, b: seq<string>, i: nat)
    requires Walk(store, a) && Walk(store, b) && a[0] == b[0] && i < |a| && i < |b|
    ensures a[i] == b[i]
  {
    if i > 0 {
      WalksAgree(store, a, b, i - 1);
      assert store.Extends(a[i - 1]) == Some(a[i]);
      assert store.Extends(b[i - 1]) == Some(b[i]);
    }
  }

  /** A walk is the beginning of the walk that goes all the way, if there is one. */
  lemma WalkIsPrefix(store: Store, a: seq<string>, b: seq<string>)
    requires Walk(store, a) && Walk(store, b) && a[0] == b[0] && store.Extends(b[|b| - 1]).None?
    ensures a <= b
  {
    forall i | 0 <= i < |a| && i < |b|
      ensures a[i] == b[i]
    {
      WalksAgree(store, a, b, i);
    }
  }

  lemma NextAgrees(store: Store, a: seq<string>, b: seq<string>, next: string)
    requires Walk(store, a) && Walk(store, b) && a <= b
    requires store.Extends(a[|a| - 1]) == Some(next) && store.Extends(b[|b| - 1]).None?
    ensures |a| < |b| && b[|a|] == next && MayExtend(store, a[|a| - 1], next) && store.Lookup(next).Some?
  {
    assert a[|a| - 1] == b[|a| - 1];
    assert store.Extends(b[|a| - 1]) == Some(next);
  }

  /** A walk that ends comes to no profile twice. */
  lemma WalksNeverReturn(store: Store, name: string, ids: seq<string>)
    requires Resolves(store, name, ids)
    ensures NoRepeats(ids)
  {
    forall i, j | 0 <= i < j < |ids|
      ensures ids[i] != ids[j]
    {
      SameFrom(store, ids, i, j, |ids| - 1 - j);
      assert store.Extends(ids[|ids| - 1 - (j - i)]) == Some(ids[|ids| - (j - i)]);
    }
  }

  lemma {:induction false} SameFrom(store: Store, ids: seq<string>, i: nat, j: nat, k: nat)
    requires Walk(store, ids) && i < j && j + k < |ids|
    ensures ids[i] == ids[j] ==> ids[i + k] == ids[j + k]
  {
    if k > 0 {
      SameFrom(store, ids, i, j, k - 1);
      assert store.Extends(ids[i + k - 1]) == Some(ids[i + k]);
      assert store.Extends(ids[j + k - 1]) == Some(ids[j + k]);
    }
  }

  lemma NotResolvedTooDeep(store: Store, name: string, visited: seq<string>)
    requires Reached(store, name, visited) && |visited| == MAX_EXTENDS_DEPTH && store.Extends(visited[|visited| - 1]).Some?
    ensures forall other :: !Resolves(store, name, other)
  {
    forall other | Resolves(store, name, other)
      ensures false
    {
      WalkIsPrefix(store, visited, other);
      NextAgrees(store, visited, other, store.Extends(visited[|visited| - 1]).value);
    }
  }

  lemma NotResolvedMissing(store: Store, name: string, visited: seq<string>, current: string)
    requires Walking(store, name, visited, current) && store.Lookup(current).None?
    ensures forall other :: !Resolves(store, name, other)
  {
    forall other | Resolves(store, name, other)
      ensures false
    {
      if visited != [] {
        WalkIsPrefix(store, visited, other);
        NextAgrees(store, visited, other, current);
      }
    }
  }

  lemma NotResolvedUpward(store: Store, name: string, visited: seq<string>, parent: string)
    requires Reached(store, name, visited) && store.Extends(visited[|visited| - 1]) == Some(parent)
    requires !MayExtend(store, visited[|visited| - 1], parent)
    ensures forall other :: !Resolves(store, name, other)
  {
    forall other | Resolves(store, name, other)
      ensures false
    {
      WalkIsPrefix(store, visited, other);
      NextAgrees(store, visited, other, parent);
    }
  }

  /** The resolved walk is the only one, so the chain of a name is a matter of the store alone. */
  lemma OneChain(store: Store, name: string, a: seq<string>, b: seq<string>)
    requires Resolves(store, name, a) && Resolves(store, name, b)
    ensures a == b
  {
    WalkIsPrefix(store, a, b);
    WalkIsPrefix(store, b, a);
  }

  /** A walk that leads on no further than it has got: no longer one exists. */
  lemma NoLongerWalk(store: Store, name: string, error: Error, a: seq<string>, b: seq<string>)
    requires Justified(store, name, error, a) && Reached(store, name, b)
    ensures |b| <= |a|
  {
    if |a| < |b| && a != [] {
      var n := |a|;
      forall i | 0 <= i < n
        ensures a[i] == b[i]
      {
        WalksAgree(store, a, b, i);
      }
    }
  }

  /** A name that does not resolve is refused for one reason only. */
  lemma OneRefusal(store: Store, name: string, e: Error, a: seq<string>, f: Error, b: seq<string>)
    requires Justified(store, name, e, a) && Justified(store, name, f, b)
    ensures e == f && a == b
  {
    SameReach(store, name, e, a, f, b);
    if e.Cycle? && f.Cycle? {
      var i: nat :| i < |a| && LeadsTo(store, name, a, a[i]) && e.path == a[i..] + [a[i]];
      var j: nat :| j < |a| && LeadsTo(store, name, a, a[j]) && f.path == a[j..] + [a[j]];
      assert a[i] == a[j];
      assert i == j;
    }
  }

  lemma SameReach(store: Store, name: string, e: Error, a: seq<string>, f: Error, b: seq<string>)
    requires Justified(store, name, e, a) && Justified(store, name, f, b)
    ensures a == b
  {
    if a != [] {
      NoLongerWalk(store, name, f, b, a);
    }
    if b != [] {
      NoLongerWalk(store, name, e, a, b);
    }
    if a != [] {
      forall i | 0 <= i < |a|
        ensures a[i] == b[i]
      {
        WalksAgree(store, a, b, i);
      }
    }
  }

  // ---- what a chain is like ----

  /** From root to leaf, the global profiles come before the project's. */
  lemma {:induction false} GlobalsFirst(store: Store, name: string, ids: seq<string>, i: nat, j: nat)
    requires Resolves(store, name, ids) && i <= j < |ids| && store.ScopeOf(ids[j]) == Project
    ensures store.ScopeOf(ids[i]) == Project
    decreases j - i
  {
    if i < j {
      GlobalsFirst(store, name, ids, i + 1, j);
      assert store.Extends(ids[i]) == Some(ids[i + 1]);
    }
  }

  /** A child resolves through its own name and then `ids` exactly when it exists, may extend its parent,
      and the parent resolves through `ids`, one short of too deep at most. Its chain is then its parent's
      and the child itself. */
  lemma ChildsChain(store: Store, child: string, parent: string, ids: seq<string>)
    requires store.Extends(child) == Some(parent)
    ensures Resolves(store, child, [child] + ids)
      <==> MayExtend(store, child, parent) && Resolves(store, parent, ids) && |ids| < MAX_EXTENDS_DEPTH
    ensures Resolves(store, child, [child] + ids) ==>
      RootToLeaf(store, [child] + ids) == RootToLeaf(store, ids) + [store.Lookup(child).value]
  {
    var more := [child] + ids;
    assert forall i :: 0 < i < |more| ==> more[i] == ids[i - 1];
    if Walk(store, ids) && ids[0] == parent && MayExtend(store, child, parent) {
      forall i | 0 <= i < |more| - 1
        ensures store.Extends(more[i]) == Some(more[i + 1]) && MayExtend(store, more[i], more[i + 1])
      {
        if i > 0 {
          assert store.Extends(ids[i - 1]) == Some(ids[i]);
        }
      }
    }
    if Resolves(store, child, more) {
      assert store.Extends(more[0]) == Some(more[1]);
      forall i | 0 <= i < |ids|
        ensures store.Lookup(ids[i]).Some?
      {
        assert store.Lookup(more[i + 1]).Some?;
      }
      forall i | 0 <= i < |ids| - 1
        ensures store.Extends(ids[i]) == Some(ids[i + 1]) && MayExtend(store, ids[i], ids[i + 1])
      {
        assert store.Extends(more[i + 1]) == Some(more[i + 2]);
      }
    }
  }

  /** A profile that extends its own name never resolves, not even a project's over the global one of
      that name: the name leads back to itself. */
  lemma OwnNameNeverResolves(store: Store, name: string)
    requires store.Extends(name) == Some(name)
    ensures forall ids :: !Resolves(store, name, ids)
  {
    forall ids | Resolves(store, name, ids)
      ensures false
    {
      NameAgain(store, name, ids, |ids| - 1);
    }
  }

  lemma {:induction false} NameAgain(store: Store, name: string, ids: seq<string>, i: nat)
    requires store.Extends(name) == Some(name) && Walk(store, ids) && ids[0] == name && i < |ids|
    ensures ids[i] == name
  {
    if i > 0 {
      NameAgain(store, name, ids, i - 1);
      assert store.Extends(ids[i - 1]) == Some(ids[i]);
    }
  }

  // ---- folding a chain ----

  function Over<T>(low: Option<T>, high: Option<T>): Option<T> {
    if high.Some? then high else low
  }

  function Listed<T>(low: seq<T>, high: seq<T>): seq<T> {
    if high != [] then high else low
  }

  function OverDefaults(low: Defaults, high: Defaults): Defaults {
    Defaults(Over(low.mcps, high.mcps), Over(low.skills, high.skills), Over(low.model, high.model),
             Over(low.hooks, high.hooks), Over(low.instructions, high.instructions), Over(low.thinking, high.thinking),
             Over(low.prompt, high.prompt))
  }

  /** `high` laid over `low`: what it mentions replaces, and the rest shows through. */
  function Merge(low: Profile, high: Profile): Profile {
    Profile(high.id, high.parent, Over(low.account, high.account), Over(low.harness, high.harness),
            OverDefaults(low.defaults, high.defaults), Over(low.isolate, high.isolate), Over(low.mode, high.mode),
            Over(low.maxSubagents, high.maxSubagents), Over(low.missionAssistant, high.missionAssistant),
            Listed(low.tags, high.tags), Over(low.disabled, high.disabled), Over(low.description, high.description),
            Listed(low.extraRw, high.extraRw))
  }

  function Flattened(chain: seq<Profile>): Profile {
    if chain == [] then BLANK else Merge(Flattened(chain[..|chain| - 1]), chain[|chain| - 1])
  }

  method Overlay(low: Defaults, high: Defaults) returns (d: Defaults)
    ensures d == OverDefaults(low, high)
  {
    d := low;
    if high.mcps.Some? { d := d.(mcps := high.mcps); }
    if high.skills.Some? { d := d.(skills := high.skills); }
    if high.model.Some? { d := d.(model := high.model); }
    if high.hooks.Some? { d := d.(hooks := high.hooks); }
    if high.instructions.Some? { d := d.(instructions := high.instructions); }
    if high.thinking.Some? { d := d.(thinking := high.thinking); }
    if high.prompt.Some? { d := d.(prompt := high.prompt); }
  }

  method LayIdentity(acc: Profile, p: Profile) returns (r: Profile)
    ensures r == acc.(account := Over(acc.account, p.account), harness := Over(acc.harness, p.harness),
                      isolate := Over(acc.isolate, p.isolate), mode := Over(acc.mode, p.mode))
  {
    r := acc;
    if p.account.Some? { r := r.(account := p.account); }
    if p.harness.Some? { r := r.(harness := p.harness); }
    if p.isolate.Some? { r := r.(isolate := p.isolate); }
    if p.mode.Some? { r := r.(mode := p.mode); }
  }

  /** One profile laid over what has been gathered, which keeps its own id and parent. */
  method LayOver(acc: Profile, p: Profile) returns (r: Profile)
    ensures r == Merge(acc, p).(id := acc.id, parent := acc.parent)
  {
    r := LayIdentity(acc, p);
    if p.maxSubagents.Some? { r := r.(maxSubagents := p.maxSubagents); }
    if p.missionAssistant.Some? { r := r.(missionAssistant := p.missionAssistant); }
    if p.tags != [] { r := r.(tags := p.tags); }
    if p.disabled.Some? { r := r.(disabled := p.disabled); }
    if p.description.Some? { r := r.(description := p.description); }
    if p.extraRw != [] { r := r.(extraRw := p.extraRw); }
    var defaults := Overlay(r.defaults, p.defaults);
    r := r.(defaults := defaults);
  }

  method Flatten(chain: seq<Profile>) returns (acc: Profile)
    ensures acc == Flattened(chain)
  {
    acc := BLANK;
    for i := 0 to |chain|
      invariant acc == Flattened(chain[..i]).(id := "", parent := None)
    {
      assert chain[..i + 1][..i] == chain[..i];
      acc := LayOver(acc, chain[i]);
    }
    assert chain[..|chain|] == chain;
    if chain != [] {
      acc := acc.(id := chain[|chain| - 1].id, parent := chain[|chain| - 1].parent);
    }
  }

  /** Folding two stretches of a chain one after the other is merging what each folds to. */
  lemma {:induction false} FlattenApart(a: seq<Profile>, b: seq<Profile>)
    requires b != []
    ensures Flattened(a + b) == Merge(Flattened(a), Flattened(b))
  {
    var n := |b| - 1;
    assert (a + b)[..|a + b| - 1] == a + b[..n];
    if n == 0 {
      assert a + b[..0] == a;
      MergeBlank(Flattened(a), b[0]);
    } else {
      FlattenApart(a, b[..n]);
      MergeTogether(Flattened(a), Flattened(b[..n]), b[n]);
    }
  }

  lemma MergeTogether(a: Profile, b: Profile, c: Profile)
    ensures Merge(Merge(a, b), c) == Merge(a, Merge(b, c))
  {
  }

  lemma MergeBlank(a: Profile, p: Profile)
    ensures Merge(a, Merge(BLANK, p)) == Merge(a, p) && Merge(BLANK, p) == p
  {
  }

  /** What a profile says for each thing it can mention, whatever its type. */
  datatype Value = Text(text: string) | Texts(texts: seq<string>) | Number(number: int) | Flag(flag: bool) | Isolation(isolate: Isolate)

  datatype Field = Account | Harness | IsolateField | Mode | MaxSubagents | MissionAssistant | Tags | Disabled
    | Description | ExtraRw | Mcps | Skills | Model | Hooks | Instructions | Thinking | Prompt

  function AsText(o: Option<string>): Option<Value> {
    if o.Some? then Some(Text(o.value)) else None
  }

  function AsTexts(o: Option<seq<string>>): Option<Value> {
    if o.Some? then Some(Texts(o.value)) else None
  }

  function AsFlag(o: Option<bool>): Option<Value> {
    if o.Some? then Some(Flag(o.value)) else None
  }

  /** None when the profile does not mention the field; an empty list of tags or paths mentions nothing. */
  function Says(p: Profile, f: Field): Option<Value> {
    match f
    case Account => AsText(p.account)
    case Harness => AsText(p.harness)
    case IsolateField => if p.isolate.Some? then Some(Isolation(p.isolate.value)) else None
    case Mode => AsText(p.mode)
    case MaxSubagents => if p.maxSubagents.Some? then Some(Number(p.maxSubagents.value)) else None
    case MissionAssistant => AsFlag(p.missionAssistant)
    case Tags => if p.tags != [] then Some(Texts(p.tags)) else None
    case Disabled => AsFlag(p.disabled)
    case Description => AsText(p.description)
    case ExtraRw => if p.extraRw != [] then Some(Texts(p.extraRw)) else None
    case Mcps => AsTexts(p.defaults.mcps)
    case Skills => AsTexts(p.defaults.skills)
    case Model => AsText(p.defaults.model)
    case Hooks => AsTexts(p.defaults.hooks)
    case Instructions => AsText(p.defaults.instructions)
    case Thinking => AsText(p.defaults.thinking)
    case Prompt => AsText(p.defaults.prompt)
  }

  /** What the most specific profile that mentions the field says: the search starts at the leaf. */
  function LeafMention(chain: seq<Profile>, f: Field): (said: Option<Value>)
    ensures said.None? <==> forall i :: 0 <= i < |chain| ==> Says(chain[i], f).None?
  {
    if chain == [] then None
    else if Says(chain[|chain| - 1], f).Some? then Says(chain[|chain| - 1], f)
    else LeafMention(chain[..|chain| - 1], f)
  }

  /** Field by field, the effective profile says what the most specific profile that mentions it says. */
  lemma {:induction false} LeafWins(chain: seq<Profile>, f: Field)
    ensures Says(Flattened(chain), f) == LeafMention(chain, f)
  {
    if chain != [] {
      var n := |chain| - 1;
      LeafWins(chain[..n], f);
      MergeSays(Flattened(chain[..n]), chain[n], f);
    }
  }

  lemma MergeSays(low: Profile, high: Profile, f: Field)
    ensures Says(Merge(low, high), f) == Over(Says(low, f), Says(high, f))
  {
  }
}
