/** Several installers of one version at once: each unpacks aside, then races to move its copy into
    place. The state is the version's directory entries; a step is one atomic rename, one half of a
    removal, or the end of an unpacking. */
module Install {
  import opened Options
  import Parents

  /** Whose copy a directory is. */
  datatype Source = Before | Installer(id: nat)

  /** A directory holds a whole copy, or is still being filled or already being removed. */
  datatype Dir = Complete(of: Source) | Partial

  /** `<version>`, `<version>.tmp-<tag>`, `<version>.old-<tag>`; no two installers share a tag. */
  datatype Name = Dest | Tmp(tag: nat) | Old(tag: nat)

  type Entries = map<Name, Dir>

  /** Renaming a directory succeeds when it is there and nothing is where it goes. */
  predicate Renames(fs: Entries, from: Name, to: Name) {
    from in fs && to !in fs
  }

  function Renamed(fs: Entries, from: Name, to: Name): Entries
    requires Renames(fs, from, to)
  {
    (fs - {from})[to := fs[from]]
  }

  datatype Outcome = Installed | UnpackFailed | Refused | GaveUp

  /** Where an installer is: what it does next. */
  datatype Point =
    | Unpacking
    | MovingAside
    | MovingIn(had: bool)
    | PuttingBack
    | RemovingOld(moved: bool)
    | CleaningUp(outcome: Outcome)
    | Done(outcome: Outcome)

  datatype Proc = Proc(at: Point, attempts: nat)

  datatype State = State(fs: Entries, procs: seq<Proc>)

  const MAX_ATTEMPTS: nat := 8

  /** The end of one attempt: done when the copy is in place, given up after the eighth, else again. */
  function AfterAttempt(moved: bool, attempts: nat): Point {
    if moved then CleaningUp(Installed)
    else if attempts >= MAX_ATTEMPTS then CleaningUp(GaveUp)
    else MovingAside
  }

  /** What the system does to an installer at its next step: lets it go on, or refuses the rename or the
      removal for a reason of its own (or, while unpacking, finds the archive bad). */
  datatype Event = Event(who: nat, refused: bool)

  predicate Enabled(s: State, e: Event) {
    e.who < |s.procs| && !s.procs[e.who].at.Done?
  }

  /** A removal takes two steps: the directory is no longer whole, then it is gone. */
  function Removal(fs: Entries, name: Name): (r: (Entries, bool))
    ensures r.1 ==> r.0 == fs - {name}
    ensures !r.1 ==> name in fs && r.0 == fs[name := Partial]
  {
    if name in fs && fs[name].Complete? then (fs[name := Partial], false) else (fs - {name}, true)
  }

  function Step(fs: Entries, p: Proc, i: nat, refused: bool): (r: (Entries, Proc))
    requires !p.at.Done?
  {
    match p.at
    case Unpacking =>
      if refused then (fs, p.(at := CleaningUp(UnpackFailed)))
      else (fs[Tmp(i) := Complete(Installer(i))] - {Old(i)}, p.(at := MovingAside))
    case MovingAside =>
      var next := p.attempts + 1;
      if refused then (fs, Proc(CleaningUp(Refused), next))
      else if Renames(fs, Dest, Old(i)) then (Renamed(fs, Dest, Old(i)), Proc(MovingIn(true), next))
      else if Dest !in fs then (fs, Proc(MovingIn(false), next))
      else (fs, Proc(CleaningUp(Refused), next))
    case MovingIn(had) =>
      if !refused && Renames(fs, Tmp(i), Dest) then
        (Renamed(fs, Tmp(i), Dest), p.(at := if had then RemovingOld(true) else AfterAttempt(true, p.attempts)))
      else
        (fs, p.(at := if had then PuttingBack else AfterAttempt(false, p.attempts)))
    case PuttingBack =>
      if !refused && Renames(fs, Old(i), Dest) then
        (Renamed(fs, Old(i), Dest), p.(at := AfterAttempt(false, p.attempts)))
      else
        (fs, p.(at := RemovingOld(false)))
    case RemovingOld(moved) =>
      if refused then (fs, p.(at := AfterAttempt(moved, p.attempts))) else
      var (fs', gone) := Removal(fs, Old(i));
      (fs', if gone then p.(at := AfterAttempt(moved, p.attempts)) else p)
    case CleaningUp(outcome) =>
      if refused then (fs, p.(at := Done(outcome))) else
      var (fs', gone) := Removal(fs, Tmp(i));
      (fs', if gone then p.(at := Done(outcome)) else p)
  }

  function Apply(s: State, e: Event): State
    requires Enabled(s, e)
  {
    var (fs, p) := Step(s.fs, s.procs[e.who], e.who, e.refused);
    State(fs, s.procs[e.who := p])
  }

  /** Every installer has made its own directory and begun to unpack; a copy may be there from before. */
  ghost predicate Init(s: State) {
    && (forall i :: 0 <= i < |s.procs| ==> s.procs[i] == Proc(Unpacking, 0))
    && (forall n :: n in s.fs && n != Dest <==> n.Tmp? && n.tag < |s.procs|)
    && (Dest in s.fs ==> s.fs[Dest] == Complete(Before))
    && (forall n :: n in s.fs && n.Tmp? ==> s.fs[n] == Partial)
  }

  // ---- what every step keeps ----

  ghost predicate TmpOk(fs: Entries, p: Proc, i: nat) {
    match p.at
    case Unpacking => Tmp(i) in fs && fs[Tmp(i)] == Partial
    case MovingAside => Tmp(i) in fs && fs[Tmp(i)] == Complete(Installer(i))
    case MovingIn(_) => Tmp(i) in fs && fs[Tmp(i)] == Complete(Installer(i))
    case PuttingBack => Tmp(i) in fs && fs[Tmp(i)] == Complete(Installer(i))
    case RemovingOld(moved) => if moved then Tmp(i) !in fs else Tmp(i) in fs && fs[Tmp(i)] == Complete(Installer(i))
    case CleaningUp(outcome) => outcome == Installed ==> Tmp(i) !in fs
    case Done(outcome) => outcome == Installed ==> Tmp(i) !in fs
  }

  ghost predicate OldOk(fs: Entries, p: Proc, i: nat) {
    match p.at
    case Unpacking => Old(i) !in fs
    case MovingIn(had) => had ==> Old(i) in fs && fs[Old(i)].Complete?
    case PuttingBack => Old(i) in fs && fs[Old(i)].Complete?
    case RemovingOld(_) => Old(i) in fs
    case _ => true
  }

  ghost predicate AttemptsOk(p: Proc) {
    match p.at
    case Unpacking => p.attempts == 0
    case MovingAside => p.attempts < MAX_ATTEMPTS
    case CleaningUp(outcome) => p.attempts <= MAX_ATTEMPTS && (outcome == GaveUp ==> p.attempts == MAX_ATTEMPTS)
    case Done(outcome) => p.attempts <= MAX_ATTEMPTS && (outcome == GaveUp ==> p.attempts == MAX_ATTEMPTS)
    case _ => 1 <= p.attempts <= MAX_ATTEMPTS
  }

  ghost predicate ProcOk(fs: Entries, p: Proc, i: nat) {
    TmpOk(fs, p, i) && OldOk(fs, p, i) && AttemptsOk(p)
  }

  /** The entries belong to the installers, the version directory is whole, and no copy is in two places. */
  ghost predicate EntriesOk(s: State) {
    && (forall n :: n in s.fs && !n.Dest? ==> n.tag < |s.procs|)
    && (Dest in s.fs ==> s.fs[Dest].Complete?)
    && (forall n :: n in s.fs && s.fs[n].Complete? && s.fs[n].of.Installer? ==>
          s.fs[n].of.id < |s.procs| && !s.procs[s.fs[n].of.id].at.Unpacking?)
    && InOnePlace(s.fs)
  }

  ghost predicate InOnePlace(fs: Entries) {
    forall m, n :: m in fs && n in fs && m != n && fs[m].Complete? && fs[n].Complete? ==> fs[m] != fs[n]
  }

  ghost predicate Inv(s: State) {
    && EntriesOk(s)
    && (forall i :: 0 <= i < |s.procs| ==> ProcOk(s.fs, s.procs[i], i))
  }

  lemma InitInv(s: State)
    requires Init(s)
    ensures Inv(s)
  {
  }

  /** A step touches the installer's own two directories and the version directory, and no others. */
  lemma StepTouches(fs: Entries, p: Proc, i: nat, refused: bool, n: Name)
    requires !p.at.Done? && n != Dest && n != Tmp(i) && n != Old(i)
    ensures var fs' := Step(fs, p, i, refused).0;
            (n in fs' <==> n in fs) && (n in fs ==> fs'[n] == fs[n])
  {
  }

  lemma StepProcOk(s: State, e: Event)
    requires Inv(s) && Enabled(s, e)
    ensures forall i :: 0 <= i < |s.procs| ==> ProcOk(Apply(s, e).fs, Apply(s, e).procs[i], i)
  {
    forall i | 0 <= i < |s.procs|
      ensures ProcOk(Apply(s, e).fs, Apply(s, e).procs[i], i)
    {
      assert ProcOk(s.fs, s.procs[i], i);
      if i != e.who {
        StepTouches(s.fs, s.procs[e.who], e.who, e.refused, Tmp(i));
        StepTouches(s.fs, s.procs[e.who], e.who, e.refused, Old(i));
      }
    }
  }

  lemma StepInOnePlace(s: State, e: Event)
    requires Inv(s) && Enabled(s, e)
    ensures InOnePlace(Apply(s, e).fs)
  {
    assert ProcOk(s.fs, s.procs[e.who], e.who);
  }

  lemma StepEntriesOk(s: State, e: Event)
    requires Inv(s) && Enabled(s, e)
    ensures EntriesOk(Apply(s, e))
  {
    StepInOnePlace(s, e);
    hide InOnePlace;
    assert ProcOk(s.fs, s.procs[e.who], e.who);
  }

  /** Over every step of every interleaving, refusals included, the state stays in order. */
  lemma StepInv(s: State, e: Event)
    requires Inv(s) && Enabled(s, e)
    ensures Inv(Apply(s, e))
  {
    StepProcOk(s, e);
    StepEntriesOk(s, e);
  }

  // ---- a copy, once there, is never lost ----

  /** Installer `i` holds the copy it moved aside, and is about to resolve it. */
  predicate Holds(s: State, i: nat) {
    i < |s.procs| && (s.procs[i].at == MovingIn(true) || s.procs[i].at.PuttingBack?)
  }

  /** A copy is in place, or held by an installer that will put one there. */
  ghost predicate Kept(s: State) {
    Dest in s.fs || exists i :: Holds(s, i)
  }

  /** The one way to lose the copy: the system refuses to put it back, nobody else having filled its place. */
  ghost predicate Drops(s: State, e: Event) {
    && Enabled(s, e) && e.refused && s.procs[e.who].at.PuttingBack?
    && Dest !in s.fs && forall i :: Holds(s, i) ==> i == e.who
  }

  lemma KeptUnlessDropped(s: State, e: Event)
    requires Inv(s) && Kept(s) && Enabled(s, e)
    ensures Kept(Apply(s, e)) <==> !Drops(s, e)
  {
    var s' := Apply(s, e);
    assert ProcOk(s.fs, s.procs[e.who], e.who);
    forall i: nat | i != e.who
      ensures Holds(s', i) <==> Holds(s, i)
    {
    }
    if Dest in s.fs {
      assert Dest in s'.fs || Holds(s', e.who);
    } else {
      var i: nat :| Holds(s, i);
      if i != e.who {
        assert Holds(s', i);
      } else if exists j: nat :: Holds(s, j) && j != e.who {
        var j: nat :| Holds(s, j) && j != e.who;
        assert Holds(s', j);
      } else if e.refused && s.procs[i].at.PuttingBack? {
        assert forall j: nat :: !Holds(s', j);
      } else {
        assert Dest in s'.fs || Holds(s', i);
      }
    }
  }

  // ---- whole runs ----

  ghost predicate Run(states: seq<State>, events: seq<Event>) {
    && |states| == |events| + 1 && Init(states[0])
    && (forall k :: 0 <= k < |events| ==> Moves(states, events, k))
  }

  ghost predicate Moves(states: seq<State>, events: seq<Event>, k: nat)
    requires |states| == |events| + 1 && k < |events|
  {
    Enabled(states[k], events[k]) && states[k + 1] == Apply(states[k], events[k])
  }

  /** Every state of every run is in order; in particular the version directory is whole whenever it is there. */
  lemma {:induction false} RunInv(states: seq<State>, events: seq<Event>, k: nat)
    requires Run(states, events) && k < |states|
    ensures Inv(states[k]) && |states[k].procs| == |states[0].procs|
    ensures Dest in states[k].fs ==> states[k].fs[Dest].Complete?
  {
    if k == 0 {
      InitInv(states[0]);
    } else {
      RunInv(states, events, k - 1);
      assert Moves(states, events, k - 1);
      StepInv(states[k - 1], events[k - 1]);
    }
  }

  lemma {:induction false} RunKeeps(states: seq<State>, events: seq<Event>, j: nat, k: nat)
    requires Run(states, events) && j <= k < |states| && Kept(states[j])
    requires forall m :: j <= m < k ==> !Drops(states[m], events[m])
    ensures Kept(states[k])
  {
    if j < k {
      RunKeeps(states, events, j, k - 1);
      RunInv(states, events, k - 1);
      assert Moves(states, events, k - 1);
      KeptUnlessDropped(states[k - 1], events[k - 1]);
    }
  }

  ghost predicate AllDone(s: State) {
    forall i :: 0 <= i < |s.procs| ==> s.procs[i].at.Done?
  }

  // ---- what is left behind ----

  /** Installer `i` is done with one of its two directories, and it is still there. */
  predicate LeftBehind(s: State, i: nat) {
    && i < |s.procs|
    && var at := s.procs[i].at;
       || (at.Done? && Tmp(i) in s.fs)
       || (Old(i) in s.fs && at != MovingIn(true) && !at.PuttingBack? && !at.RemovingOld?)
  }

  /** The system refuses to remove a directory that is there, which the installer does not look at. */
  predicate Litters(s: State, e: Event) {
    && Enabled(s, e) && e.refused
    && (s.procs[e.who].at.RemovingOld? || (s.procs[e.who].at.CleaningUp? && Tmp(e.who) in s.fs))
  }

  /** What is left behind stays, and nothing is unless its removal was refused. */
  lemma LeftByLittering(s: State, e: Event, i: nat)
    requires Inv(s) && Enabled(s, e)
    ensures LeftBehind(Apply(s, e), i) <==> LeftBehind(s, i) || (i == e.who && Litters(s, e))
  {
    hide EntriesOk, AttemptsOk;
    if i < |s.procs| {
      assert ProcOk(s.fs, s.procs[i], i);
      if i != e.who {
        StepTouches(s.fs, s.procs[e.who], e.who, e.refused, Tmp(i));
        StepTouches(s.fs, s.procs[e.who], e.who, e.refused, Old(i));
      }
    }
  }

  lemma {:induction false} LeftInRun(states: seq<State>, events: seq<Event>, k: nat)
    requires Run(states, events) && k < |states|
    ensures (exists i: nat :: LeftBehind(states[k], i)) <==> exists m: nat :: m < k && Litters(states[m], events[m])
  {
    hide LeftBehind, Litters, Inv, Enabled, Apply;
    if k == 0 {
      NothingLeftYet(states[0]);
    } else {
      LeftInRun(states, events, k - 1);
      RunInv(states, events, k - 1);
      assert Moves(states, events, k - 1);
      forall i: nat
        ensures LeftBehind(states[k], i)
          <==> LeftBehind(states[k - 1], i) || (i == events[k - 1].who && Litters(states[k - 1], events[k - 1]))
      {
        LeftByLittering(states[k - 1], events[k - 1], i);
      }
      if i: nat :| LeftBehind(states[k], i) {
        if LeftBehind(states[k - 1], i) {
          var m: nat :| m < k - 1 && Litters(states[m], events[m]);
        } else {
          assert Litters(states[k - 1], events[k - 1]);
        }
      }
      if m: nat :| m < k && Litters(states[m], events[m]) {
        if m == k - 1 {
          assert LeftBehind(states[k], events[k - 1].who);
        } else {
          var i: nat :| LeftBehind(states[k - 1], i);
          assert LeftBehind(states[k], i);
        }
      }
    }
  }

  lemma NothingLeftYet(s: State)
    requires Init(s)
    ensures forall i :: !LeftBehind(s, i)
  {
  }

  lemma OnlyDestOrLeft(s: State)
    requires Inv(s) && AllDone(s)
    ensures s.fs.Keys <= {Dest} <==> forall i :: !LeftBehind(s, i)
  {
    forall n | n in s.fs && n != Dest
      ensures LeftBehind(s, n.tag)
    {
    }
    forall i: nat | LeftBehind(s, i)
      ensures !(s.fs.Keys <= {Dest})
    {
      assert Tmp(i) in s.fs || Old(i) in s.fs;
    }
  }

  /** When all have finished, nothing but the version directory is left exactly when no removal of something
      was refused, and a copy that was ever there is in place. */
  lemma RunEnds(states: seq<State>, events: seq<Event>, j: nat)
    requires Run(states, events) && j < |states| && AllDone(states[|events|])
    ensures states[|events|].fs.Keys <= {Dest} <==> forall m: nat :: m < |events| ==> !Litters(states[m], events[m])
    ensures Kept(states[j]) && (forall m :: j <= m < |events| ==> !Drops(states[m], events[m])) ==>
      Dest in states[|events|].fs
  {
    hide LeftBehind, Litters, Inv, Drops;
    RunInv(states, events, |events|);
    LeftInRun(states, events, |events|);
    OnlyDestOrLeft(states[|events|]);
    if Kept(states[j]) && forall m :: j <= m < |events| ==> !Drops(states[m], events[m]) {
      RunKeeps(states, events, j, |events|);
    }
  }

  /** The copy of installer `i` is in place, whatever it still has to tidy up. */
  predicate HasInstalled(p: Proc) {
    p.at == RemovingOld(true) || p.at == CleaningUp(Installed) || p.at == Done(Installed)
  }

  /** A step by which the copy of `i` itself takes the empty place. */
  ghost predicate Places(states: seq<State>, events: seq<Event>, i: nat, k: nat)
    requires |states| == |events| + 1 && k < |events|
  {
    events[k].who == i && Dest !in states[k].fs && Dest in states[k + 1].fs && states[k + 1].fs[Dest] == Complete(Installer(i))
  }

  /** An installer only comes to have installed by the step that places its copy. */
  lemma InstalledByPlacing(s: State, e: Event, i: nat)
    requires Inv(s) && Enabled(s, e) && i < |s.procs| && !HasInstalled(s.procs[i]) && HasInstalled(Apply(s, e).procs[i])
    ensures e.who == i && Dest !in s.fs && Dest in Apply(s, e).fs && Apply(s, e).fs[Dest] == Complete(Installer(i))
  {
    hide EntriesOk, AttemptsOk, OldOk;
    assert ProcOk(s.fs, s.procs[i], i);
  }

  /** An installer that reports success placed its own copy. */
  lemma {:induction false} SuccessPlacesOwnCopy(states: seq<State>, events: seq<Event>, i: nat, k: nat) returns (j: nat)
    requires Run(states, events) && k < |states| && i < |states[k].procs| && HasInstalled(states[k].procs[i])
    ensures j < k && Places(states, events, i, j)
  {
    hide Inv, Enabled, Apply;
    RunInv(states, events, k);
    assert k > 0 by {
      NoneInstalledYet(states[0], i);
    }
    RunInv(states, events, k - 1);
    assert Moves(states, events, k - 1);
    if HasInstalled(states[k - 1].procs[i]) {
      j := SuccessPlacesOwnCopy(states, events, i, k - 1);
    } else {
      InstalledByPlacing(states[k - 1], events[k - 1], i);
      j := k - 1;
    }
  }

  lemma NoneInstalledYet(s: State, i: nat)
    ensures Init(s) && i < |s.procs| ==> !HasInstalled(s.procs[i])
  {
  }

  // ---- every installer stops ----

  /** The most steps installer `i` still takes, whatever the others do. */
  ghost function StepsLeft(fs: Entries, p: Proc, i: nat): int {
    var left := (MAX_ATTEMPTS - p.attempts) * 6;
    match p.at
    case Unpacking => left + 2
    case MovingAside => left + 1
    case MovingIn(_) => left + 6
    case PuttingBack => left + 5
    case RemovingOld(_) => if Old(i) in fs && fs[Old(i)].Complete? then left + 4 else left + 3
    case CleaningUp(_) => if Tmp(i) in fs && fs[Tmp(i)].Complete? then 2 else 1
    case Done(_) => 0
  }

  lemma StepCounts(s: State, e: Event, i: nat)
    requires Inv(s) && Enabled(s, e) && i < |s.procs|
    ensures var before, after := StepsLeft(s.fs, s.procs[i], i), StepsLeft(Apply(s, e).fs, Apply(s, e).procs[i], i);
            if i == e.who then 0 <= after < before <= 50 else after == before
  {
    assert ProcOk(s.fs, s.procs[i], i);
    StepInv(s, e);
    assert ProcOk(Apply(s, e).fs, Apply(s, e).procs[i], i);
    if i != e.who {
      StepTouches(s.fs, s.procs[e.who], e.who, e.refused, Tmp(i));
      StepTouches(s.fs, s.procs[e.who], e.who, e.refused, Old(i));
    }
  }

  ghost function StepsOf(events: seq<Event>, i: nat): nat {
    if events == [] then 0
    else StepsOf(events[..|events| - 1], i) + if events[|events| - 1].who == i then 1 else 0
  }

  /** No installer ever waits for another, and none takes more than fifty steps or eight attempts. */
  lemma {:induction false} EveryInstallerStops(states: seq<State>, events: seq<Event>, i: nat, k: nat)
    requires Run(states, events) && k < |states| && i < |states[0].procs|
    ensures i < |states[k].procs|
    ensures StepsOf(events[..k], i) + StepsLeft(states[k].fs, states[k].procs[i], i) <= 50
    ensures StepsLeft(states[k].fs, states[k].procs[i], i) >= 0
    ensures states[k].procs[i].attempts <= MAX_ATTEMPTS
    ensures !states[k].procs[i].at.Done? ==> Enabled(states[k], Event(i, false))
  {
    RunInv(states, events, k);
    assert ProcOk(states[k].fs, states[k].procs[i], i);
    if k > 0 {
      EveryInstallerStops(states, events, i, k - 1);
      RunInv(states, events, k - 1);
      assert Moves(states, events, k - 1);
      StepCounts(states[k - 1], events[k - 1], i);
      assert events[..k][..k - 1] == events[..k - 1];
    }
  }

  // ---- somebody succeeds ----

  /** Nothing has been moved into place yet, so nobody had to try a second time. */
  ghost predicate Quiet(s: State) {
    && (forall i :: 0 <= i < |s.procs| ==> QuietProc(s.procs[i]))
    && ((exists i :: 0 <= i < |s.procs| && s.procs[i].at.MovingIn?) ==> Dest !in s.fs)
  }

  ghost predicate QuietProc(p: Proc) {
    match p.at
    case Unpacking => true
    case MovingAside => p.attempts == 0
    case MovingIn(_) => true
    case CleaningUp(outcome) => outcome == UnpackFailed || outcome == Refused
    case Done(outcome) => outcome == UnpackFailed || outcome == Refused
    case _ => false
  }

  ghost predicate SomeoneInstalled(s: State) {
    exists i :: 0 <= i < |s.procs| && HasInstalled(s.procs[i])
  }

  /** The system refused nobody the move into place. */
  ghost predicate LetsIn(s: State, e: Event) {
    Enabled(s, e) && (e.refused ==> !s.procs[e.who].at.MovingIn?)
  }

  lemma QuietUntilInstalled(s: State, e: Event)
    requires Inv(s) && LetsIn(s, e) && (Quiet(s) || SomeoneInstalled(s))
    ensures Quiet(Apply(s, e)) || SomeoneInstalled(Apply(s, e))
  {
    var s' := Apply(s, e);
    assert ProcOk(s.fs, s.procs[e.who], e.who);
    if SomeoneInstalled(s) {
      var i :| 0 <= i < |s.procs| && HasInstalled(s.procs[i]);
      assert HasInstalled(s'.procs[i]);
    } else {
      var p, p' := s.procs[e.who], s'.procs[e.who];
      assert QuietProc(p);
      if p.at.MovingIn? {
        assert HasInstalled(p');
      } else {
        assert QuietProc(p');
        assert forall i :: 0 <= i < |s.procs| && i != e.who ==> s'.procs[i] == s.procs[i];
      }
    }
  }

  lemma {:induction false} RunQuiet(states: seq<State>, events: seq<Event>, k: nat)
    requires Run(states, events) && k < |states|
    requires forall m :: 0 <= m < k ==> LetsIn(states[m], events[m])
    ensures Quiet(states[k]) || SomeoneInstalled(states[k])
  {
    if k > 0 {
      RunQuiet(states, events, k - 1);
      RunInv(states, events, k - 1);
      assert Moves(states, events, k - 1);
      QuietUntilInstalled(states[k - 1], events[k - 1]);
    }
  }

  /** Installers only ever fail for one another's success: when all have finished, and the system refused
      no move into place, any installer that gave up did so because another's copy was installed. */
  lemma SomebodySucceeds(states: seq<State>, events: seq<Event>, i: nat)
    requires Run(states, events) && AllDone(states[|events|])
    requires forall m :: 0 <= m < |events| ==> LetsIn(states[m], events[m])
    requires i < |states[|events|].procs| && states[|events|].procs[i].at.outcome !in {UnpackFailed, Refused}
    ensures exists j :: 0 <= j < |states[|events|].procs| && states[|events|].procs[j].at == Done(Installed)
  {
    RunQuiet(states, events, |events|);
    var last := states[|events|];
    assert last.procs[i].at.Done?;
    assert SomeoneInstalled(last) by {
      assert !QuietProc(last.procs[i]);
    }
    var j :| 0 <= j < |last.procs| && HasInstalled(last.procs[j]);
    assert last.procs[j].at.Done?;
  }

  // ---- how an installer ends ----

  /** What an installer that is through has come to. */
  function Verdict(p: Proc): Option<Outcome> {
    match p.at
    case CleaningUp(outcome) => Some(outcome)
    case Done(outcome) => Some(outcome)
    case _ => None
  }

  /** The archive of `i` proves bad. */
  predicate BadArchive(s: State, e: Event, i: nat) {
    Enabled(s, e) && e.who == i && s.procs[i].at.Unpacking? && e.refused
  }

  /** What is in place cannot be moved aside: the system refuses it, or a directory is already there. */
  predicate StuckInPlace(s: State, e: Event, i: nat) {
    Enabled(s, e) && e.who == i && s.procs[i].at.MovingAside? && (e.refused || (Dest in s.fs && Old(i) in s.fs))
  }

  /** The copy of `i` does not get into place: the system refuses it, or another's is there. */
  predicate FailsToMoveIn(s: State, e: Event, i: nat) {
    Enabled(s, e) && e.who == i && s.procs[i].at.MovingIn? && (e.refused || Dest in s.fs)
  }

  /** How often the copy of `i` has not got into place in the first `k` events. */
  ghost function FailedTries(states: seq<State>, events: seq<Event>, i: nat, k: nat): nat
    requires k <= |events| < |states|
  {
    if k == 0 then 0 else FailedTries(states, events, i, k - 1) + if FailsToMoveIn(states[k - 1], events[k - 1], i) then 1 else 0
  }

  /** `tries` have failed so far, seven at the most when it is not over. */
  ghost predicate TriesOk(p: Proc, tries: nat) {
    match p.at
    case Unpacking => tries == 0
    case MovingAside => tries == p.attempts <= 7
    case MovingIn(_) => tries + 1 == p.attempts <= 8
    case PuttingBack => tries == p.attempts <= 8
    case RemovingOld(moved) => if moved then tries + 1 == p.attempts <= 8 else tries == p.attempts <= 8
    case CleaningUp(outcome) => tries <= 8 && (tries == 8 <==> outcome == GaveUp)
    case Done(outcome) => tries <= 8 && (tries == 8 <==> outcome == GaveUp)
  }

  lemma NextTry(s: State, e: Event, i: nat, tries: nat)
    requires Inv(s) && Enabled(s, e) && i < |s.procs| && TriesOk(s.procs[i], tries)
    ensures TriesOk(Apply(s, e).procs[i], tries + if FailsToMoveIn(s, e, i) then 1 else 0)
  {
    hide EntriesOk, OldOk;
    assert ProcOk(s.fs, s.procs[i], i);
  }

  lemma {:induction false} TriesCounted(states: seq<State>, events: seq<Event>, i: nat, k: nat)
    requires Run(states, events) && k < |states| && i < |states[0].procs|
    ensures i < |states[k].procs| && TriesOk(states[k].procs[i], FailedTries(states, events, i, k))
  {
    hide Inv, Apply, Enabled, TriesOk, FailsToMoveIn;
    RunInv(states, events, k);
    if k == 0 {
      NoTriesYet(states[0], i);
    } else {
      TriesCounted(states, events, i, k - 1);
      RunInv(states, events, k - 1);
      assert Moves(states, events, k - 1);
      NextTry(states[k - 1], events[k - 1], i, FailedTries(states, events, i, k - 1));
    }
  }

  lemma NoTriesYet(s: State, i: nat)
    requires Init(s) && i < |s.procs|
    ensures TriesOk(s.procs[i], 0) && Verdict(s.procs[i]).None?
  {
  }

  lemma NextVerdict(s: State, e: Event, i: nat)
    requires Inv(s) && Enabled(s, e) && i < |s.procs|
    ensures var v, v' := Verdict(s.procs[i]), Verdict(Apply(s, e).procs[i]);
            && (v' == Some(UnpackFailed) <==> v == Some(UnpackFailed) || BadArchive(s, e, i))
            && (v' == Some(Refused) <==> v == Some(Refused) || StuckInPlace(s, e, i))
  {
    hide EntriesOk, OldOk, AttemptsOk;
    assert ProcOk(s.fs, s.procs[i], i);
  }

  lemma {:induction false} VerdictsTraced(states: seq<State>, events: seq<Event>, i: nat, k: nat)
    requires Run(states, events) && k < |states| && i < |states[0].procs|
    ensures i < |states[k].procs|
    ensures Verdict(states[k].procs[i]) == Some(UnpackFailed) <==> exists m: nat :: m < k && BadArchive(states[m], events[m], i)
    ensures Verdict(states[k].procs[i]) == Some(Refused) <==> exists m: nat :: m < k && StuckInPlace(states[m], events[m], i)
  {
    hide Inv, Apply, Enabled, Verdict, BadArchive, StuckInPlace;
    RunInv(states, events, k);
    if k == 0 {
      NoTriesYet(states[0], i);
    } else {
      VerdictsTraced(states, events, i, k - 1);
      RunInv(states, events, k - 1);
      assert Moves(states, events, k - 1);
      NextVerdict(states[k - 1], events[k - 1], i);
    }
  }

  /** An installer ends in one of four ways: its archive was bad; what was in place could not be moved aside;
      its copy failed to get into place exactly eight times; or the copy got there. */
  lemma {:induction false} HowItEnds(states: seq<State>, events: seq<Event>, i: nat, k: nat)
    requires Run(states, events) && k < |states| && i < |states[0].procs|
    requires i < |states[k].procs| && states[k].procs[i].at.Done?
    ensures var outcome, tries := states[k].procs[i].at.outcome, FailedTries(states, events, i, k);
            && (outcome == UnpackFailed <==> exists m: nat :: m < k && BadArchive(states[m], events[m], i))
            && (outcome == Refused <==> exists m: nat :: m < k && StuckInPlace(states[m], events[m], i))
            && (outcome == GaveUp <==> tries == 8)
            && tries <= 8
  {
    TriesCounted(states, events, i, k);
    VerdictsTraced(states, events, i, k);
  }

  /** An installer the system refuses nothing tries until its copy is in place, up to eight times. */
  lemma {:induction false} UnrefusedTriesAgain(states: seq<State>, events: seq<Event>, i: nat, k: nat)
    requires Run(states, events) && k < |states| && i < |states[0].procs|
    requires i < |states[k].procs| && states[k].procs[i].at.Done?
    requires forall m: nat :: m < k && events[m].who == i ==> !events[m].refused
    ensures states[k].procs[i].at.outcome == if FailedTries(states, events, i, k) == 8 then GaveUp else Installed
  {
    hide Inv, Apply, Enabled, FailsToMoveIn;
    HowItEnds(states, events, i, k);
    forall m: nat | m < k
      ensures !BadArchive(states[m], events[m], i) && !StuckInPlace(states[m], events[m], i)
    {
      UnrefusedIsNotStuck(states, events, i, m);
    }
  }

  /** It finds nothing in the way of moving aside, for it left nothing there before. */
  lemma UnrefusedIsNotStuck(states: seq<State>, events: seq<Event>, i: nat, m: nat)
    requires Run(states, events) && m < |events| && i < |states[0].procs|
    requires forall j: nat :: j <= m && events[j].who == i ==> !events[j].refused
    ensures !BadArchive(states[m], events[m], i) && !StuckInPlace(states[m], events[m], i)
  {
    hide Inv;
    OwnLeftInRun(states, events, i, m);
  }

  lemma {:induction false} OwnLeftInRun(states: seq<State>, events: seq<Event>, i: nat, k: nat)
    requires Run(states, events) && k < |states|
    requires forall j: nat :: j < k && events[j].who == i ==> !events[j].refused
    ensures !LeftBehind(states[k], i)
  {
    hide LeftBehind, Inv, Apply;
    if k == 0 {
      NothingLeftYet(states[0]);
    } else {
      OwnLeftInRun(states, events, i, k - 1);
      RunInv(states, events, k - 1);
      assert Moves(states, events, k - 1);
      LeftByLittering(states[k - 1], events[k - 1], i);
    }
  }

  // ---- what a run cannot promise ----

  /** The states met while `events` happen, each possible when its turn comes. */
  ghost predicate Happens(s: State, events: seq<Event>, s': State)
    decreases |events|
  {
    if events == [] then s == s'
    else Enabled(s, events[0]) && Happens(Apply(s, events[0]), events[1..], s')
  }

  lemma {:induction false} HappensThen(s: State, events: seq<Event>, mid: State, e: Event)
    requires Happens(s, events, mid) && Enabled(mid, e)
    ensures Happens(s, events + [e], Apply(mid, e))
    decreases |events|
  {
    if events == [] {
      assert [e][1..] == [];
      assert Happens(Apply(mid, e), [], Apply(mid, e));
    } else {
      HappensThen(Apply(s, events[0]), events[1..], mid, e);
      assert (events + [e])[1..] == events[1..] + [e];
    }
  }

  /** A run, listed with all its states, is its events happening one after the other. */
  lemma {:induction false} RunHappens(states: seq<State>, events: seq<Event>, k: nat)
    requires Run(states, events) && k < |states|
    ensures Happens(states[0], events[..k], states[k])
  {
    if k > 0 {
      RunHappens(states, events, k - 1);
      assert Moves(states, events, k - 1);
      HappensThen(states[0], events[..k - 1], states[k - 1], events[k - 1]);
      assert events[..k] == events[..k - 1] + [events[k - 1]];
    }
  }

  /** One installer alone, refused the move in and then the put-back: the copy there was before is gone. */
  lemma RefusedPutBackLosesCopy(s0: State) returns (events: seq<Event>, s: State)
    requires Init(s0) && Dest in s0.fs && |s0.procs| >= 1
    ensures Happens(s0, events, s)
    ensures Dest !in s.fs && forall n :: n in s.fs ==> s.fs[n] != Complete(Before)
  {
    InitInv(s0);
    var ok, no := Event(0, false), Event(0, true);
    var s1 := Apply(s0, ok);
    var s2 := Apply(s1, ok);
    var s3 := Apply(s2, no);
    var s4 := Apply(s3, no);
    s := Apply(s4, ok);
    assert Happens(s0, [], s0);
    HappensThen(s0, [], s0, ok);
    HappensThen(s0, [] + [ok], s1, ok);
    HappensThen(s0, [] + [ok] + [ok], s2, no);
    HappensThen(s0, [] + [ok] + [ok] + [no], s3, no);
    HappensThen(s0, [] + [ok] + [ok] + [no] + [no], s4, ok);
    events := [] + [ok] + [ok] + [no] + [no] + [ok];
  }

  lemma {:induction false} HappensInv(s: State, events: seq<Event>, s': State)
    requires Inv(s) && Happens(s, events, s')
    ensures Inv(s') && |s'.procs| == |s.procs|
    decreases |events|
  {
    if events != [] {
      StepInv(s, events[0]);
      HappensInv(Apply(s, events[0]), events[1..], s');
    }
  }

  // ---- when a success is for keeps ----

  /** The step moves the installer's own copy into the empty place. */
  predicate PlacesNow(s: State, e: Event) {
    && Enabled(s, e) && s.procs[e.who].at.MovingIn? && !e.refused
    && Renames(s.fs, Tmp(e.who), Dest)
  }

  function Newest(s: State, e: Event, latest: Source): Source {
    if PlacesNow(s, e) then Installer(e.who) else latest
  }

  /** Whose copy was the last to be moved in while `events` happened, `latest` being so when they began. */
  ghost function Latest(s: State, events: seq<Event>, s': State, latest: Source): Source
    requires Happens(s, events, s')
    decreases |events|
  {
    if events == [] then latest else Latest(Apply(s, events[0]), events[1..], s', Newest(s, events[0], latest))
  }

  /** How many copies there are to be had between the installers and what was there before. */
  function Copies(installers: nat, prior: bool): nat {
    installers + if prior then 1 else 0
  }

  /** A copy that can be in place or held has been there before, or its installer has succeeded. */
  predicate WasPlaced(s: State, of: Source, prior: bool) {
    match of
    case Before => prior
    case Installer(j) => j < |s.procs| && HasInstalled(s.procs[j])
  }

  /** What is in place is the latest copy, and an older one that is held finds the place taken. */
  ghost predicate LatestInPlace(s: State, latest: Source, prior: bool) {
    && (Dest in s.fs ==> s.fs[Dest] == Complete(latest) && WasPlaced(s, latest, prior))
    && (forall i: nat :: Holds(s, i) ==>
          Old(i) in s.fs && s.fs[Old(i)].Complete? && WasPlaced(s, s.fs[Old(i)].of, prior)
          && (s.fs[Old(i)].of != latest ==> Dest in s.fs))
    && (forall i :: 0 <= i < |s.procs| && HasInstalled(s.procs[i]) ==> latest.Installer?)
  }

  /** No step breaks that while there are at most three copies: to put an older copy back, one installer
      has to hold it while another moves the latest aside, and those are four. */
  lemma LatestStays(s: State, e: Event, latest: Source, prior: bool)
    requires Inv(s) && Enabled(s, e) && Copies(|s.procs|, prior) <= 3
    requires LatestInPlace(s, latest, prior)
    ensures LatestInPlace(Apply(s, e), Newest(s, e, latest), prior)
  {
    hide AttemptsOk, EntriesOk;
    assert ProcOk(s.fs, s.procs[e.who], e.who);
    PlacedStays(s, e, prior);
    HeldStays(s, e, latest, prior);
    hide Holds;
  }

  lemma PlacedStays(s: State, e: Event, prior: bool)
    requires Inv(s) && Enabled(s, e)
    ensures forall of :: WasPlaced(s, of, prior) ==> WasPlaced(Apply(s, e), of, prior)
  {
    hide AttemptsOk, EntriesOk, ProcOk;
  }

  lemma HeldStays(s: State, e: Event, latest: Source, prior: bool)
    requires Inv(s) && Enabled(s, e) && Copies(|s.procs|, prior) <= 3 && LatestInPlace(s, latest, prior)
    ensures var s' := Apply(s, e);
            forall i: nat :: Holds(s', i) ==>
              Old(i) in s'.fs && s'.fs[Old(i)].Complete? && WasPlaced(s', s'.fs[Old(i)].of, prior)
              && (s'.fs[Old(i)].of != Newest(s, e, latest) ==> Dest in s'.fs)
  {
    hide AttemptsOk, EntriesOk;
    var s', me := Apply(s, e), e.who;
    assert ProcOk(s.fs, s.procs[me], me);
    PlacedStays(s, e, prior);
    forall i: nat | Holds(s', i)
      ensures Old(i) in s'.fs && s'.fs[Old(i)].Complete? && WasPlaced(s', s'.fs[Old(i)].of, prior)
      ensures s'.fs[Old(i)].of != Newest(s, e, latest) ==> Dest in s'.fs
    {
      assert ProcOk(s.fs, s.procs[i], i);
      if i != me {
        assert Holds(s, i);
        StepTouches(s.fs, s.procs[me], me, e.refused, Old(i));
      }
    }
  }

  lemma {:induction false} LatestHappens(s: State, events: seq<Event>, s': State, latest: Source, prior: bool)
    requires Inv(s) && Happens(s, events, s') && Copies(|s.procs|, prior) <= 3 && LatestInPlace(s, latest, prior)
    ensures LatestInPlace(s', Latest(s, events, s', latest), prior)
    decreases |events|
  {
    hide Inv, LatestInPlace;
    if events != [] {
      StepInv(s, events[0]);
      LatestStays(s, events[0], latest, prior);
      LatestHappens(Apply(s, events[0]), events[1..], s', Newest(s, events[0], latest), prior);
    }
  }

  /** Without a copy from before there never is one. */
  ghost predicate NothingBefore(s: State) {
    forall n :: n in s.fs ==> s.fs[n] != Complete(Before)
  }

  lemma {:induction false} NothingBeforeHappens(s: State, events: seq<Event>, s': State)
    requires NothingBefore(s) && Happens(s, events, s')
    ensures NothingBefore(s')
    decreases |events|
  {
    if events != [] {
      NothingBeforeStays(s, events[0]);
      NothingBeforeHappens(Apply(s, events[0]), events[1..], s');
    }
  }

  lemma NothingBeforeStays(s: State, e: Event)
    requires NothingBefore(s) && Enabled(s, e)
    ensures NothingBefore(Apply(s, e))
  {
  }

  lemma InitLatest(s: State)
    requires Init(s)
    ensures LatestInPlace(s, Before, Dest in s.fs)
  {
  }

  // ---- a run that puts an older copy back ----

  function At(fs: Entries, n: Name): Option<Dir> {
    if n in fs then Some(fs[n]) else None
  }

  /** The first three installers, all six directories they could have between them, and `Dest`. */
  ghost predicate View(s: State, procs: seq<Proc>, dest: Option<Dir>, tmp: seq<Option<Dir>>, aside: seq<Option<Dir>>) {
    && |s.procs| >= 3 && s.procs[..3] == procs && |procs| == |tmp| == |aside| == 3
    && At(s.fs, Dest) == dest
    && (forall i :: 0 <= i < 3 ==> At(s.fs, Tmp(i)) == tmp[i] && At(s.fs, Old(i)) == aside[i])
  }

  /** A few steps, one after the other. */
  lemma ThreeSteps(s: State, x: Event, y: Event, z: Event, latest: Source) returns (events: seq<Event>, s': State)
    requires Enabled(s, x) && Enabled(Apply(s, x), y) && Enabled(Apply(Apply(s, x), y), z)
    ensures events == [x, y, z] && s' == Apply(Apply(Apply(s, x), y), z)
    ensures Happens(s, events, s')
    ensures Latest(s, events, s', latest) == Newest(Apply(Apply(s, x), y), z, Newest(Apply(s, x), y, Newest(s, x, latest)))
  {
    hide Enabled, Apply, Newest;
    var s1, s2 := Apply(s, x), Apply(Apply(s, x), y);
    s' := Apply(s2, z);
    events := [x, y, z];
    assert Happens(s', [], s');
    assert [z][1..] == [] && [y, z][1..] == [z] && [x, y, z][1..] == [y, z];
    assert Happens(s2, [z], s');
    assert Happens(s1, [y, z], s');
    assert Latest(s2, [z], s', Newest(s1, y, Newest(s, x, latest))) == Newest(s2, z, Newest(s1, y, Newest(s, x, latest)));
    assert Latest(s1, [y, z], s', Newest(s, x, latest)) == Latest(s2, [z], s', Newest(s1, y, Newest(s, x, latest)));
  }

  lemma {:induction false} LatestOn(s: State, events: seq<Event>, mid: State, more: seq<Event>, s': State, latest: Source)
    requires Happens(s, events, mid) && Happens(mid, more, s')
    ensures Happens(s, events + more, s')
    ensures Latest(s, events + more, s', latest) == Latest(mid, more, s', Latest(s, events, mid, latest))
    decreases |events|
  {
    hide Enabled, Apply, Newest;
    if events == [] {
      assert events + more == more;
    } else {
      LatestOn(Apply(s, events[0]), events[1..], mid, more, s', Newest(s, events[0], latest));
      assert (events + more)[0] == events[0] && (events + more)[1..] == events[1..] + more;
    }
  }

  const FIRST := Event(0, false)
  const SECOND := Event(1, false)
  const THIRD := Event(2, false)
  const FOURTH := Event(3, false)
  const MINE := [Some(Complete(Installer(0))), Some(Complete(Installer(1))), Some(Complete(Installer(2)))]

  lemma AllUnpack(s: State, of: Source) returns (events: seq<Event>, s': State)
    requires View(s, [Proc(Unpacking, 0), Proc(Unpacking, 0), Proc(Unpacking, 0)], Some(Complete(of)),
                  [Some(Partial), Some(Partial), Some(Partial)], [None, None, None])
    ensures Happens(s, events, s') && events == [FIRST, SECOND, THIRD] && Latest(s, events, s', of) == of
    ensures View(s', [Proc(MovingAside, 0), Proc(MovingAside, 0), Proc(MovingAside, 0)], Some(Complete(of)), MINE, [None, None, None])
  {
    events, s' := ThreeSteps(s, FIRST, SECOND, THIRD, of);
  }

  lemma FirstAsideSecondIn(s: State, of: Source) returns (events: seq<Event>, s': State)
    requires View(s, [Proc(MovingAside, 0), Proc(MovingAside, 0), Proc(MovingAside, 0)], Some(Complete(of)), MINE, [None, None, None])
    ensures Happens(s, events, s') && events == [FIRST, SECOND, SECOND] && Latest(s, events, s', of) == Installer(1)
    ensures View(s', [Proc(MovingIn(true), 1), Proc(CleaningUp(Installed), 1), Proc(MovingAside, 0)], Some(Complete(Installer(1))),
                 MINE[1 := None], [Some(Complete(of)), None, None])
  {
    events, s' := ThreeSteps(s, FIRST, SECOND, SECOND, of);
  }

  lemma ThirdAside(s: State, of: Source) returns (events: seq<Event>, s': State)
    requires View(s, [Proc(MovingIn(true), 1), Proc(CleaningUp(Installed), 1), Proc(MovingAside, 0)], Some(Complete(Installer(1))),
                  MINE[1 := None], [Some(Complete(of)), None, None])
    ensures Happens(s, events, s') && events == [SECOND, FIRST, THIRD] && Latest(s, events, s', Installer(1)) == Installer(1)
    ensures View(s', [Proc(PuttingBack, 1), Proc(Done(Installed), 1), Proc(MovingIn(true), 1)], None,
                 MINE[1 := None], [Some(Complete(of)), None, Some(Complete(Installer(1)))])
  {
    events, s' := ThreeSteps(s, SECOND, FIRST, THIRD, Installer(1));
  }

  lemma FirstBackThirdOut(s: State, of: Source) returns (events: seq<Event>, s': State)
    requires View(s, [Proc(PuttingBack, 1), Proc(Done(Installed), 1), Proc(MovingIn(true), 1)], None,
                  MINE[1 := None], [Some(Complete(of)), None, Some(Complete(Installer(1)))])
    ensures Happens(s, events, s') && events == [FIRST, THIRD, THIRD] && Latest(s, events, s', Installer(1)) == Installer(1)
    ensures View(s', [Proc(MovingAside, 1), Proc(Done(Installed), 1), Proc(RemovingOld(false), 1)], Some(Complete(of)),
                 MINE[1 := None], [None, None, Some(Complete(Installer(1)))])
  {
    events, s' := ThreeSteps(s, FIRST, THIRD, THIRD, Installer(1));
  }

  /** Three installers, with some copy in place that is not theirs: the second's is moved in, moved aside
      again by the third, and the older one put back by the first. */
  lemma OlderIsBack(s0: State, of: Source) returns (events: seq<Event>, s: State)
    requires View(s0, [Proc(Unpacking, 0), Proc(Unpacking, 0), Proc(Unpacking, 0)], Some(Complete(of)),
                  [Some(Partial), Some(Partial), Some(Partial)], [None, None, None])
    ensures Happens(s0, events, s) && events == [FIRST, SECOND, THIRD] + [FIRST, SECOND, SECOND] + [SECOND, FIRST, THIRD] + [FIRST, THIRD, THIRD]
    ensures Latest(s0, events, s, of) == Installer(1)
    ensures View(s, [Proc(MovingAside, 1), Proc(Done(Installed), 1), Proc(RemovingOld(false), 1)], Some(Complete(of)),
                 MINE[1 := None], [None, None, Some(Complete(Installer(1)))])
  {
    hide View, Enabled, Apply, Newest, Happens, Latest;
    var e1, s1 := AllUnpack(s0, of);
    var e2, s2 := FirstAsideSecondIn(s1, of);
    LatestOn(s0, e1, s1, e2, s2, of);
    var e3, s3 := ThirdAside(s2, of);
    LatestOn(s0, e1 + e2, s2, e3, s3, of);
    var e4, s4 := FirstBackThirdOut(s3, of);
    LatestOn(s0, e1 + e2 + e3, s3, e4, s4, of);
    events, s := e1 + e2 + e3 + e4, s4;
  }

  lemma InitView(s: State)
    requires Init(s) && Dest in s.fs && |s.procs| >= 3
    ensures View(s, [Proc(Unpacking, 0), Proc(Unpacking, 0), Proc(Unpacking, 0)], Some(Complete(Before)),
                 [Some(Partial), Some(Partial), Some(Partial)], [None, None, None])
  {
  }

  /** Success is not for keeps, even when nothing is refused: with three installers, whatever others there
      are, one can report success and yet the copy from before ends up in place again, its own being removed. */
  lemma SuccessMayBeUndone(s0: State) returns (events: seq<Event>, s: State)
    requires Init(s0) && Dest in s0.fs && |s0.procs| >= 3
    ensures Happens(s0, events, s) && forall e :: e in events ==> !e.refused
    ensures |s.procs| >= 3 && s.procs[1].at == Done(Installed)
    ensures Dest in s.fs && s.fs[Dest] == Complete(Before)
    ensures forall n :: n in s.fs ==> s.fs[n] != Complete(Installer(1))
    ensures Latest(s0, events, s, Before) == Installer(1)
  {
    hide View, Enabled, Apply, Newest, Init;
    InitInv(s0);
    InitView(s0);
    var before, mid := OlderIsBack(s0, Before);
    HappensInv(s0, before, mid);
    s := OnlyPartial(mid);
    LatestOn(s0, before, mid, [THIRD], s, Before);
    events := before + [THIRD];
  }

  lemma OnlyPartial(s: State) returns (s': State)
    requires View(s, [Proc(MovingAside, 1), Proc(Done(Installed), 1), Proc(RemovingOld(false), 1)], Some(Complete(Before)),
                  MINE[1 := None], [None, None, Some(Complete(Installer(1)))])
    requires Inv(s)
    ensures Happens(s, [THIRD], s')
    ensures |s'.procs| >= 3 && s'.procs[1].at == Done(Installed) && Dest in s'.fs && s'.fs[Dest] == Complete(Before)
    ensures forall n :: n in s'.fs ==> s'.fs[n] != Complete(Installer(1))
    ensures Latest(s, [THIRD], s', Installer(1)) == Installer(1)
  {
    s' := Apply(s, THIRD);
    assert s.procs[2] == s.procs[..3][2] && s.procs[1] == s.procs[..3][1];
    assert At(s.fs, Old(2)) == Some(Complete(Installer(1)));
    assert [THIRD][1..] == [];
  }

  /** With nothing there before, a fourth installer can provide the older copy. */
  lemma FourthIn(s0: State) returns (events: seq<Event>, s: State)
    requires Init(s0) && Dest !in s0.fs && |s0.procs| >= 4
    ensures Happens(s0, events, s) && Latest(s0, events, s, Before) == Installer(3)
    ensures View(s, [Proc(Unpacking, 0), Proc(Unpacking, 0), Proc(Unpacking, 0)], Some(Complete(Installer(3))),
                 [Some(Partial), Some(Partial), Some(Partial)], [None, None, None])
  {
    events, s := ThreeSteps(s0, FOURTH, FOURTH, FOURTH, Before);
  }

  /** A run in which what is in place is not the latest copy that was moved in. */
  lemma OlderInPlace(s0: State) returns (events: seq<Event>, s: State)
    requires Init(s0) && Copies(|s0.procs|, Dest in s0.fs) > 3
    ensures Happens(s0, events, s) && Dest in s.fs && s.fs[Dest] != Complete(Latest(s0, events, s, Before))
  {
    if Dest in s0.fs {
      events, s := SuccessMayBeUndone(s0);
    } else {
      var first, mid := FourthIn(s0);
      var more, last := OlderIsBack(mid, Installer(3));
      LatestOn(s0, first, mid, more, last, Before);
      events, s := first + more, last;
    }
  }

  /** Whatever runs, what is in place is the copy that was moved in last, the one from before while there
      was none. */
  ghost predicate LatestIsKept(s0: State) {
    forall events, s :: Happens(s0, events, s) && Dest in s.fs ==> s.fs[Dest] == Complete(Latest(s0, events, s, Before))
  }

  /** Once some installer has succeeded the copy from before is never in place again. */
  ghost predicate SuccessReplacesBefore(s0: State) {
    forall events, s :: Happens(s0, events, s) && SomeoneInstalled(s) ==> !(Dest in s.fs && s.fs[Dest] == Complete(Before))
  }

  /** A success is never undone by an older copy if and only if there are at most three copies between the
      installers and what was there before, refusals or not. */
  lemma LatestKeptUpToThree(s0: State)
    requires Init(s0)
    ensures LatestIsKept(s0) <==> Copies(|s0.procs|, Dest in s0.fs) <= 3
  {
    hide Inv, LatestInPlace, Latest, Happens, Init;
    if Copies(|s0.procs|, Dest in s0.fs) > 3 {
      var events, s := OlderInPlace(s0);
    } else {
      forall events, s | Happens(s0, events, s) && Dest in s.fs
        ensures s.fs[Dest] == Complete(Latest(s0, events, s, Before))
      {
        LatestAfter(s0, events, s);
      }
    }
  }

  lemma {:induction false} LatestAfter(s0: State, events: seq<Event>, s: State)
    requires Init(s0) && Happens(s0, events, s) && Copies(|s0.procs|, Dest in s0.fs) <= 3
    ensures Dest in s.fs ==> s.fs[Dest] == Complete(Latest(s0, events, s, Before))
    ensures SomeoneInstalled(s) ==> Latest(s0, events, s, Before).Installer?
  {
    hide Inv, Latest, Happens, Init;
    InitInv(s0);
    InitLatest(s0);
    LatestHappens(s0, events, s, Before, Dest in s0.fs);
  }

  /** A success is for keeps against the copy from before if and only if there was none, or there are at
      most two installers. */
  lemma BeforeStaysReplaced(s0: State)
    requires Init(s0)
    ensures SuccessReplacesBefore(s0) <==> Dest !in s0.fs || |s0.procs| <= 2
  {
    hide Inv, Latest, Happens, Init, NothingBefore;
    if Dest in s0.fs && |s0.procs| > 2 {
      var events, s := SuccessMayBeUndone(s0);
      assert HasInstalled(s.procs[1]);
    } else {
      forall events, s | Happens(s0, events, s) && SomeoneInstalled(s)
        ensures !(Dest in s.fs && s.fs[Dest] == Complete(Before))
      {
        if Dest in s0.fs {
          LatestAfter(s0, events, s);
        } else {
          NeverBefore(s0, events, s);
        }
      }
    }
  }

  lemma {:induction false} NeverBefore(s0: State, events: seq<Event>, s: State)
    requires Init(s0) && Dest !in s0.fs && Happens(s0, events, s)
    ensures Dest in s.fs ==> s.fs[Dest] != Complete(Before)
  {
    NothingBeforeHappens(s0, events, s);
  }
}
