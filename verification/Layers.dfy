/** What a run ends up with when several layers have a say: the ids it uses, and the files it finds. */
module Layers {
  import opened Options
  import opened Profiles
  import Sorting

  // ---- which ids ----

  /** The first of the four layers that mentions the key, whatever it says; nothing at all if none does. */
  function Pick<T>(cli: Option<T>, profile: Option<T>, perHarness: Option<T>, settings: Option<T>, blank: T): T {
    if cli.Some? then cli.value
    else if profile.Some? then profile.value
    else if perHarness.Some? then perHarness.value
    else if settings.Some? then settings.value
    else blank
  }

  /** The first value given, from the front of the list on. */
  function FirstMention<T>(layers: seq<Option<T>>): (r: Option<T>)
    ensures r.None? <==> forall i :: 0 <= i < |layers| ==> layers[i].None?
  {
    if layers == [] then None else if layers[0].Some? then layers[0] else FirstMention(layers[1..])
  }

  /** What each profile says about a field, from the leaf to the root. */
  function Mentions<T>(chain: seq<Profile>, said: Profile -> Option<T>): seq<Option<T>> {
    if chain == [] then [] else [said(chain[|chain| - 1])] + Mentions(chain[..|chain| - 1], said)
  }

  /** A field that merging replaces whenever the higher profile mentions it. */
  ghost predicate Replaces<T(!new)>(said: Profile -> Option<T>) {
    said(BLANK).None? && forall low, high :: said(Merge(low, high)) == Over(said(low), said(high))
  }

  lemma {:induction false} FlattenedMention<T(!new)>(chain: seq<Profile>, said: Profile -> Option<T>)
    requires Replaces(said)
    ensures said(Flattened(chain)) == FirstMention(Mentions(chain, said))
  {
    if chain != [] {
      var n := |chain| - 1;
      FlattenedMention(chain[..n], said);
      assert said(Merge(Flattened(chain[..n]), chain[n])) == Over(said(Flattened(chain[..n])), said(chain[n]));
      assert Mentions(chain, said)[1..] == Mentions(chain[..n], said);
    }
  }

  lemma {:induction false} MentionApart<T>(a: seq<Option<T>>, b: seq<Option<T>>)
    ensures FirstMention(a + b) == if FirstMention(a).Some? then FirstMention(a) else FirstMention(b)
  {
    if a == [] {
      assert a + b == b;
    } else {
      MentionApart(a[1..], b);
      assert (a + b)[1..] == a[1..] + b;
    }
  }

  /** What is picked for a run is what the first layer that mentions it says, in one list: the flags, the
      profiles from the leaf up to the root, the harness's settings, the defaults. */
  lemma {:induction false} PickedFromLayers<T(!new)>(cli: Option<T>, chain: seq<Profile>, said: Profile -> Option<T>,
                                  perHarness: Option<T>, settings: Option<T>, blank: T)
    requires Replaces(said)
    ensures var first := FirstMention([cli] + Mentions(chain, said) + [perHarness, settings]);
            Pick(cli, said(Flattened(chain)), perHarness, settings, blank) == if first.Some? then first.value else blank
  {
    var mentions := Mentions(chain, said);
    FlattenedMention(chain, said);
    MentionApart([cli] + mentions, [perHarness, settings]);
    MentionApart([cli], mentions);
    OneMention(cli);
    TwoMentions(perHarness, settings);
  }

  lemma OneMention<T>(a: Option<T>)
    ensures FirstMention([a]) == a
  {
    assert [a][1..] == [];
  }

  lemma TwoMentions<T>(a: Option<T>, b: Option<T>)
    ensures FirstMention([a, b]) == if a.Some? then a else b
  {
    assert [a, b][1..] == [b];
    OneMention(b);
  }

  /** The three lists of ids a run takes from its layers are all such fields. */
  lemma IdListsReplace()
    ensures Replaces((p: Profile) => p.defaults.mcps)
    ensures Replaces((p: Profile) => p.defaults.skills)
    ensures Replaces((p: Profile) => p.defaults.hooks)
  {
  }

  // ---- looking the ids up ----

  datatype Problem = Unknown(id: string)

  /** The ids of a list that pass, in order. */
  function Passing(ids: seq<string>, known: set<string>, want: bool): (r: seq<string>)
    ensures forall id :: id in r <==> id in ids && (id in known) == want
  {
    if ids == [] then []
    else
      var front, last := Passing(ids[..|ids| - 1], known, want), ids[|ids| - 1];
      assert forall id :: id in ids <==> id in ids[..|ids| - 1] || id == last;
      if (last in known) == want then front + [last] else front
  }

  lemma {:induction false} NonePassing(known: set<string>)
    ensures Passing([], known, true) == [] && Passing([], known, false) == []
  {
  }

  lemma {:induction false} PassingGrows(ids: seq<string>, i: nat, known: set<string>, want: bool)
    requires i < |ids|
    ensures Passing(ids[..i + 1], known, want)
            == Passing(ids[..i], known, want) + if (ids[i] in known) == want then [ids[i]] else []
  {
    assert ids[..i + 1][..i] == ids[..i];
  }

  /** The entries found, in the order asked for, and one problem for each id that was dropped. */
  method LookUp<Entry>(ids: seq<string>, catalog: map<string, Entry>) returns (found: seq<Entry>, problems: seq<Problem>)
    ensures |found| == |Passing(ids, catalog.Keys, true)| && |problems| == |Passing(ids, catalog.Keys, false)|
    ensures forall k :: 0 <= k < |found| ==> found[k] == catalog[Passing(ids, catalog.Keys, true)[k]]
    ensures forall k :: 0 <= k < |problems| ==> problems[k] == Unknown(Passing(ids, catalog.Keys, false)[k])
    ensures |found| + |problems| == |ids|
  {
    hide Passing;
    found, problems := [], [];
    NonePassing(catalog.Keys);
    for i := 0 to |ids|
      invariant |found| == |Passing(ids[..i], catalog.Keys, true)| && |problems| == |Passing(ids[..i], catalog.Keys, false)|
      invariant forall k :: 0 <= k < |found| ==> found[k] == catalog[Passing(ids[..i], catalog.Keys, true)[k]]
      invariant forall k :: 0 <= k < |problems| ==> problems[k] == Unknown(Passing(ids[..i], catalog.Keys, false)[k])
      invariant |found| + |problems| == i
    {
      PassingGrows(ids, i, catalog.Keys, true);
      PassingGrows(ids, i, catalog.Keys, false);
      if ids[i] in catalog {
        found := found + [catalog[ids[i]]];
      } else {
        problems := problems + [Unknown(ids[i])];
      }
    }
    assert ids[..|ids|] == ids;
  }

  // ---- the files of a run ----

  /** The content at each path. */
  type Files = map<string, string>

  /** Every file of `base` put in its place, but only where there is none yet. */
  method Place(dir: Files, base: Files) returns (dir': Files)
    ensures dir' == base + dir
  {
    dir' := dir;
    var rest := base.Keys;
    while rest != {}
      invariant rest <= base.Keys
      invariant dir' == (base - rest) + dir
    {
      ghost var some := Sorting.Member(rest);
      var path :| path in rest;
      if path !in dir' {
        dir' := dir'[path := base[path]];
      }
      rest := rest - {path};
    }
  }

  function At(dir: Files, path: string): Option<string> {
    if path in dir then Some(dir[path]) else None
  }

  /** The content that the last of the bases that has the path gives it. */
  function LastWith(bases: seq<Files>, path: string): (content: Option<string>)
    ensures content.None? <==> forall i :: 0 <= i < |bases| ==> path !in bases[i]
  {
    if bases == [] then None
    else if path in bases[|bases| - 1] then Some(bases[|bases| - 1][path])
    else LastWith(bases[..|bases| - 1], path)
  }

  /** The bases from the leaf to the root, none overwriting: what was in the run's directory stays, and
      every other path holds what the leaf-most base that has it says. */
  method Materialize(dir: Files, bases: seq<Files>) returns (dir': Files)
    ensures forall path :: path in dir ==> At(dir', path) == At(dir, path)
    ensures forall path :: path !in dir ==> At(dir', path) == LastWith(bases, path)
    ensures dir' == Overwritten(bases) + dir
  {
    hide Overwritten, LastWith;
    dir' := dir;
    var i := |bases|;
    assert bases[i..] == [] && Overwritten([]) == map[] by {
      NothingOverwritten();
    }
    while i > 0
      invariant 0 <= i <= |bases|
      invariant dir' == Overwritten(bases[i..]) + dir
    {
      i := i - 1;
      dir' := Place(dir', bases[i]);
      FirstBase(bases[i], bases[i + 1..]);
      assert bases[i..] == [bases[i]] + bases[i + 1..];
    }
    assert bases[0..] == bases;
    OverwrittenIsLast(bases);
  }

  /** The bases from the root to the leaf, each overwriting the ones before it. */
  function Overwritten(bases: seq<Files>): Files {
    if bases == [] then map[] else Overwritten(bases[..|bases| - 1]) + bases[|bases| - 1]
  }

  lemma NothingOverwritten()
    ensures Overwritten([]) == map[]
  {
  }

  lemma {:induction false} FirstBase(first: Files, rest: seq<Files>)
    ensures Overwritten([first] + rest) == first + Overwritten(rest)
  {
    hide Overwritten;
    var bases := [first] + rest;
    LastBase(bases);
    NothingOverwritten();
    if rest == [] {
      assert bases[..0] == [];
    } else {
      var n := |rest| - 1;
      assert bases[..n + 1] == [first] + rest[..n] && bases[n + 1] == rest[n];
      LastBase(rest);
      FirstBase(first, rest[..n]);
      InTurn(first, Overwritten(rest[..n]), rest[n]);
    }
  }

  lemma {:induction false} LastBase(bases: seq<Files>)
    requires bases != []
    ensures Overwritten(bases) == Overwritten(bases[..|bases| - 1]) + bases[|bases| - 1]
  {
  }

  lemma InTurn(a: Files, b: Files, c: Files)
    ensures (a + b) + c == a + (b + c)
  {
  }

  lemma {:induction false} OverwrittenIsLast(bases: seq<Files>)
    ensures forall path :: At(Overwritten(bases), path) == LastWith(bases, path)
  {
    if bases != [] {
      OverwrittenIsLast(bases[..|bases| - 1]);
    }
  }
}
