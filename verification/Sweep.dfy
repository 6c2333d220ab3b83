/** How many subagents ran at once: a sweep over the boundaries of their windows. */
module Sweep {
  import opened Options
  import Sorting

  /** When a subagent was first and last heard from, if ever. */
  datatype Run = Run(firstAt: Option<int>, lastAt: Option<int>)

  /** A working window, from `lo` up to but not including `hi`. */
  datatype Span = Span(lo: int, hi: int)

  ghost predicate Forward(spans: seq<Span>) {
    forall i :: 0 <= i < |spans| ==> spans[i].lo <= spans[i].hi
  }

  /** The window of a run that was heard from, its ends in order. */
  ghost predicate IsWindow(run: Run, s: Span) {
    run.firstAt == Some(s.lo) && run.lastAt == Some(s.hi) && s.lo <= s.hi
  }

  /** Window `k` is that of the run at `from[k]`; the runs keep their order, and none with a window is missed. */
  ghost predicate WindowsOf(runs: seq<Run>, spans: seq<Span>, from: seq<nat>) {
    && |from| == |spans|
    && (forall k :: 0 <= k < |from| ==> from[k] < |runs| && IsWindow(runs[from[k]], spans[k]))
    && (forall j, k :: 0 <= j < k < |from| ==> from[j] < from[k])
    && (forall i, s :: 0 <= i < |runs| && IsWindow(runs[i], s) ==> exists k :: 0 <= k < |from| && from[k] == i)
  }

  method Spans(runs: seq<Run>) returns (spans: seq<Span>, ghost from: seq<nat>)
    ensures WindowsOf(runs, spans, from) && Forward(spans)
    ensures forall s :: s in spans <==> exists r :: r in runs && IsWindow(r, s)
  {
    spans, from := [], [];
    for i := 0 to |runs|
      invariant WindowsOf(runs[..i], spans, from)
    {
      var r := runs[i];
      if r.firstAt.Some? && r.lastAt.Some? && r.lastAt.value >= r.firstAt.value {
        NextWindow(runs, i, spans, from, Span(r.firstAt.value, r.lastAt.value));
        spans, from := spans + [Span(r.firstAt.value, r.lastAt.value)], from + [i];
      } else {
        NoNextWindow(runs, i, spans, from);
      }
    }
    assert runs[..|runs|] == runs;
    forall s
      ensures s in spans <==> exists r :: r in runs && IsWindow(r, s)
    {
      ItsWindow(runs, spans, from, s);
    }
  }

  lemma NextWindow(runs: seq<Run>, i: nat, spans: seq<Span>, from: seq<nat>, s: Span)
    requires i < |runs| && WindowsOf(runs[..i], spans, from) && IsWindow(runs[i], s)
    ensures WindowsOf(runs[..i + 1], spans + [s], from + [i])
  {
    var next := runs[..i + 1];
    forall j, t | 0 <= j < |next| && IsWindow(next[j], t)
      ensures exists k :: 0 <= k < |from + [i]| && (from + [i])[k] == j
    {
      if j < i {
        assert IsWindow(runs[..i][j], t);
        var k :| 0 <= k < |from| && from[k] == j;
        assert (from + [i])[k] == j;
      } else {
        assert (from + [i])[|from|] == j;
      }
    }
  }

  lemma NoNextWindow(runs: seq<Run>, i: nat, spans: seq<Span>, from: seq<nat>)
    requires i < |runs| && WindowsOf(runs[..i], spans, from) && forall s :: !IsWindow(runs[i], s)
    ensures WindowsOf(runs[..i + 1], spans, from)
  {
    var next := runs[..i + 1];
    forall j, t | 0 <= j < |next| && IsWindow(next[j], t)
      ensures exists k :: 0 <= k < |from| && from[k] == j
    {
      assert j != i;
      assert IsWindow(runs[..i][j], t);
    }
  }

  lemma ItsWindow(runs: seq<Run>, spans: seq<Span>, from: seq<nat>, s: Span)
    requires WindowsOf(runs, spans, from)
    ensures s in spans <==> exists r :: r in runs && IsWindow(r, s)
  {
    if s in spans {
      var k :| 0 <= k < |spans| && spans[k] == s;
      assert runs[from[k]] in runs;
    }
    if r :| r in runs && IsWindow(r, s) {
      var i :| 0 <= i < |runs| && runs[i] == r;
      assert IsWindow(runs[i], s);
      var k :| 0 <= k < |from| && from[k] == i;
      assert spans[k] == s;
    }
  }

  // ---- the simple reading ----

  /** How many of the windows cover the instant `t`. */
  function Cover(spans: seq<Span>, t: int): nat {
    if spans == [] then 0
    else Cover(spans[..|spans| - 1], t) + if spans[|spans| - 1].lo <= t < spans[|spans| - 1].hi then 1 else 0
  }

  /** The sum of the windows' lengths. */
  function TotalLength(spans: seq<Span>): int {
    if spans == [] then 0 else TotalLength(spans[..|spans| - 1]) + spans[|spans| - 1].hi - spans[|spans| - 1].lo
  }

  /** The cover summed over every instant of `[a, b)`. */
  function Area(spans: seq<Span>, a: int, b: int): int
    decreases b - a
  {
    if b <= a then 0 else Area(spans, a, b - 1) + Cover(spans, b - 1)
  }

  /** For how many instants of `[a, b)` exactly `n` windows cover it. */
  function Held(spans: seq<Span>, n: int, a: int, b: int): nat
    decreases b - a
  {
    if b <= a then 0 else Held(spans, n, a, b - 1) + if Cover(spans, b - 1) == n then 1 else 0
  }

  /** How much the cover changes at `t`. */
  function Delta(spans: seq<Span>, t: int): int {
    if spans == [] then 0
    else
      var s := spans[|spans| - 1];
      Delta(spans[..|spans| - 1], t) + (if s.lo == t then 1 else 0) - (if s.hi == t then 1 else 0)
  }

  function Ends(spans: seq<Span>): (ends: set<int>)
    ensures forall i :: 0 <= i < |spans| ==> spans[i].lo in ends && spans[i].hi in ends
  {
    if spans == [] then {} else Ends(spans[..|spans| - 1]) + {spans[|spans| - 1].lo, spans[|spans| - 1].hi}
  }

  lemma {:induction false} FrontEnds(spans: seq<Span>)
    requires Forward(spans) && spans != []
    ensures var n := |spans| - 1;
            && Forward(spans[..n]) && spans[n].lo <= spans[n].hi
            && spans[n].lo in Ends(spans) && spans[n].hi in Ends(spans)
            && forall e :: e in Ends(spans[..n]) ==> e in Ends(spans)
  {
  }

  /** Between two boundaries the cover changes by the delta of the second. */
  lemma {:induction false} CoverSteps(spans: seq<Span>, p: int, q: int)
    requires Forward(spans) && p < q && forall e :: e in Ends(spans) ==> e <= p || q <= e
    ensures Cover(spans, q) == Cover(spans, p) + Delta(spans, q)
  {
    if spans != [] {
      FrontEnds(spans);
      CoverSteps(spans[..|spans| - 1], p, q);
    }
  }

  lemma {:induction false} CoverIsFlat(spans: seq<Span>, p: int, t: int)
    requires Forward(spans) && p <= t && forall e :: e in Ends(spans) ==> e <= p || t < e
    ensures Cover(spans, t) == Cover(spans, p)
  {
    if spans != [] {
      FrontEnds(spans);
      CoverIsFlat(spans[..|spans| - 1], p, t);
    }
  }

  lemma {:induction false} CoverOutside(spans: seq<Span>, t: int)
    requires Forward(spans)
    requires (forall e :: e in Ends(spans) ==> t < e) || (forall e :: e in Ends(spans) ==> e <= t)
    ensures Cover(spans, t) == 0
  {
    if spans != [] {
      FrontEnds(spans);
      CoverOutside(spans[..|spans| - 1], t);
    }
  }

  lemma {:induction false} CoverIsAtMostAll(spans: seq<Span>, t: int)
    ensures Cover(spans, t) <= |spans|
  {
    if spans != [] {
      CoverIsAtMostAll(spans[..|spans| - 1], t);
    }
  }

  // ---- the sweep ----

  /** A timestamp, and how many subagents run from it on. */
  datatype Level = Level(at: int, n: int)

  ghost predicate Strict(s: seq<int>) {
    forall i, j :: 0 <= i < j < |s| ==> s[i] < s[j]
  }

  /** The boundaries in order, each once. */
  ghost predicate Stamps(stamps: seq<int>, spans: seq<Span>) {
    Strict(stamps) && forall e :: e in stamps <==> e in Ends(spans)
  }

  /** Entry `i` of the curve is the cover of every instant from stamp `i` to the next; before the first stamp
      and from the last on nothing is covered. */
  ghost predicate Traces(curve: seq<Level>, stamps: seq<int>, spans: seq<Span>) {
    && |curve| == (if stamps == [] then 0 else |stamps| - 1)
    && (forall i :: 0 <= i < |curve| ==> curve[i].at == stamps[i])
    && (forall i, t :: 0 <= i < |curve| && stamps[i] <= t < stamps[i + 1] ==> Cover(spans, t) == curve[i].n)
    && (forall t :: stamps == [] || t < stamps[0] || stamps[|stamps| - 1] <= t ==> Cover(spans, t) == 0)
  }

  method Deltas(spans: seq<Span>) returns (deltas: map<int, int>)
    ensures deltas.Keys == Ends(spans)
    ensures forall t :: t in deltas ==> deltas[t] == Delta(spans, t)
  {
    deltas := map[];
    for i := 0 to |spans|
      invariant deltas.Keys == Ends(spans[..i])
      invariant forall t :: Delta(spans[..i], t) == if t in deltas then deltas[t] else 0
    {
      assert spans[..i + 1][..i] == spans[..i];
      var lo, hi := spans[i].lo, spans[i].hi;
      deltas := deltas[lo := (if lo in deltas then deltas[lo] else 0) + 1];
      deltas := deltas[hi := (if hi in deltas then deltas[hi] else 0) - 1];
    }
    assert spans[..|spans|] == spans;
  }

  predicate IsLeast(s: set<int>, least: int) {
    least in s && forall x :: x in s ==> least <= x
  }

  lemma {:induction false} LeastExists(s: set<int>)
    requires s != {}
    ensures exists least: int :: IsLeast(s, least)
    decreases |s|
  {
    var x := Sorting.Member(s);
    assert forall y :: y in s ==> y == x || y in s - {x};
    if s - {x} == {} {
      assert IsLeast(s, x);
    } else {
      LeastExists(s - {x});
      var rest :| IsLeast(s - {x}, rest);
      assert IsLeast(s, if x < rest then x else rest);
    }
  }

  /** The numbers of a set, least first. */
  ghost function Ascending(s: set<int>): (r: seq<int>)
    ensures Strict(r) && forall x :: x in r <==> x in s
    decreases |s|
  {
    if s == {} then []
    else
      LeastExists(s);
      var least :| IsLeast(s, least);
      var rest := Ascending(s - {least});
      assert forall i :: 0 <= i < |rest| ==> rest[i] in rest;
      [least] + rest
  }

  lemma NoneAscending()
    ensures Ascending({}) == []
  {
  }

  lemma {:induction false} AscendingStep(s: set<int>, x: int)
    requires IsLeast(s, x)
    ensures Ascending(s) == [x] + Ascending(s - {x})
  {
  }

  /** What the source's `sorted` answers for a set of numbers. */
  method InOrder(s: set<int>) returns (r: seq<int>)
    ensures r == Ascending(s)
  {
    hide Ascending;
    r := [];
    var rest := s;
    NoneAscending();
    assert Ascending(s) == r + Ascending(rest);
    while rest != {}
      invariant Ascending(s) == r + Ascending(rest)
      decreases |rest|
    {
      LeastExists(rest);
      var x :| x in rest && IsLeast(rest, x);
      AscendingStep(rest, x);
      r := r + [x];
      rest := rest - {x};
    }
  }

  /** The boundaries of the windows, in order, each once. */
  ghost function Boundaries(spans: seq<Span>): (stamps: seq<int>)
    ensures Stamps(stamps, spans)
  {
    Ascending(Ends(spans))
  }

  method Levels(spans: seq<Span>) returns (curve: seq<Level>)
    requires Forward(spans)
    ensures Traces(curve, Boundaries(spans), spans)
  {
    hide Ascending, Cover, Delta, Ends, Traces;
    var deltas := Deltas(spans);
    var order := InOrder(deltas.Keys);
    assert order == Boundaries(spans);
    curve := [];
    var cur := 0;
    for i := 0 to if order == [] then 0 else |order| - 1
      invariant |curve| == i && (i == 0 ==> cur == 0) && (i > 0 ==> cur == Cover(spans, order[i - 1]))
      invariant forall k :: 0 <= k < i ==> curve[k] == Level(order[k], Cover(spans, order[k]))
    {
      StampSteps(spans, order, i);
      assert order[i] in order;
      cur := cur + deltas[order[i]];
      curve := curve + [Level(order[i], cur)];
    }
    CurveTraces(spans, order, curve);
  }

  lemma {:induction false} StampSteps(spans: seq<Span>, stamps: seq<int>, i: nat)
    requires Forward(spans) && Stamps(stamps, spans) && i < |stamps|
    ensures Cover(spans, stamps[i]) == (if i == 0 then 0 else Cover(spans, stamps[i - 1])) + Delta(spans, stamps[i])
  {
    if i == 0 {
      forall e | e in Ends(spans)
        ensures stamps[0] <= e
      {
        assert e in stamps;
      }
      CoverOutside(spans, stamps[0] - 1);
      CoverSteps(spans, stamps[0] - 1, stamps[0]);
    } else {
      forall e | e in Ends(spans)
        ensures e <= stamps[i - 1] || stamps[i] <= e
      {
        assert e in stamps;
      }
      CoverSteps(spans, stamps[i - 1], stamps[i]);
    }
  }

  lemma {:induction false} CurveTraces(spans: seq<Span>, stamps: seq<int>, curve: seq<Level>)
    requires Forward(spans) && Stamps(stamps, spans)
    requires |curve| == if stamps == [] then 0 else |stamps| - 1
    requires forall k :: 0 <= k < |curve| ==> curve[k] == Level(stamps[k], Cover(spans, stamps[k]))
    ensures Traces(curve, stamps, spans)
  {
    forall i, t | 0 <= i < |curve| && stamps[i] <= t < stamps[i + 1]
      ensures Cover(spans, t) == curve[i].n
    {
      forall e | e in Ends(spans)
        ensures e <= stamps[i] || t < e
      {
        assert e in stamps;
      }
      CoverIsFlat(spans, stamps[i], t);
    }
    forall t | stamps == [] || t < stamps[0] || stamps[|stamps| - 1] <= t
      ensures Cover(spans, t) == 0
    {
      forall e | e in Ends(spans)
        ensures e in stamps
      {
      }
      CoverOutside(spans, t);
    }
  }

  // ---- what is read off the curve ----

  /** Exactly `n` windows cover the instant `t`. */
  predicate Running(spans: seq<Span>, t: int, n: int) {
    Cover(spans, t) == n
  }

  /** The peak is the greatest number of windows that cover any one instant. */
  method PeakConcurrent(spans: seq<Span>) returns (peak: int)
    requires Forward(spans)
    ensures forall t :: Cover(spans, t) <= peak
    ensures peak == 0 || exists t :: Running(spans, t, peak)
  {
    hide Boundaries;
    var curve := Levels(spans);
    ghost var stamps := Boundaries(spans);
    peak := 0;
    for i := 0 to |curve|
      invariant peak >= 0 && forall k :: 0 <= k < i ==> curve[k].n <= peak
      invariant peak == 0 || exists k :: 0 <= k < i && curve[k].n == peak
    {
      peak := if curve[i].n > peak then curve[i].n else peak;
    }
    forall t
      ensures Cover(spans, t) <= peak
    {
      var i := IntervalOf(curve, stamps, spans, t);
    }
    if peak != 0 {
      var k :| 0 <= k < |curve| && curve[k].n == peak;
      var t := stamps[k];
      assert t < stamps[k + 1];
      assert Cover(spans, t) == curve[k].n == peak;
      assert Running(spans, t, peak);
    }
  }

  /** An instant that is covered at all lies in one of the intervals. */
  lemma IntervalOf(curve: seq<Level>, stamps: seq<int>, spans: seq<Span>, t: int) returns (i: nat)
    requires Traces(curve, stamps, spans)
    ensures Cover(spans, t) != 0 ==> i < |curve| && Cover(spans, t) == curve[i].n
  {
    i := 0;
    if Cover(spans, t) != 0 {
      while i < |curve| && stamps[i + 1] <= t
        invariant i <= |curve| && stamps[i] <= t
      {
        i := i + 1;
      }
    }
  }

  /** Where the count of time at each level stops: the last stamp but one. */
  function CountedTo(stamps: seq<int>): int {
    if |stamps| < 2 then 0 else stamps[|stamps| - 2]
  }

  function CountedFrom(stamps: seq<int>): int {
    if |stamps| < 2 then 0 else stamps[0]
  }

  function At(times: map<int, int>, n: int): int {
    if n in times then times[n] else 0
  }

  /** For each level the exact number of instants it held, from the first stamp to the last but one. */
  method TimeAt(spans: seq<Span>) returns (times: map<int, int>)
    requires Forward(spans)
    ensures forall n :: At(times, n) == Held(spans, n, CountedFrom(Boundaries(spans)), CountedTo(Boundaries(spans)))
    ensures forall n :: n in times ==> 0 <= n <= |spans|
  {
    hide Boundaries;
    var curve := Levels(spans);
    ghost var stamps := Boundaries(spans);
    times := map[];
    var i := 0;
    while i + 1 < |curve|
      invariant curve == [] || i < |curve|
      invariant curve != [] ==> forall n :: At(times, n) == Held(spans, n, stamps[0], stamps[i])
      invariant curve == [] ==> times == map[]
      invariant forall n :: n in times ==> 0 <= n <= |spans|
    {
      var a, n, b := curve[i].at, curve[i].n, curve[i + 1].at;
      forall m
        ensures Held(spans, m, stamps[0], stamps[i + 1]) == At(times, m) + if m == n then b - a else 0
      {
        HeldOnInterval(curve, stamps, spans, i, m);
      }
      assert a < stamps[i + 1] && Cover(spans, a) == n;
      CoverIsAtMostAll(spans, a);
      ghost var was := times;
      times := times[n := At(times, n) + (b - a)];
      assert forall m :: At(times, m) == At(was, m) + if m == n then b - a else 0;
      i := i + 1;
    }
    if curve == [] {
      assert |stamps| < 2;
    }
  }

  lemma {:induction false} HeldFlat(spans: seq<Span>, n: int, m: int, a: int, b: int)
    requires a <= b && forall t :: a <= t < b ==> Cover(spans, t) == m
    ensures Held(spans, n, a, b) == if n == m then b - a else 0
    decreases b - a
  {
    if a < b {
      HeldFlat(spans, n, m, a, b - 1);
    }
  }

  lemma {:induction false} HeldApart(spans: seq<Span>, n: int, a: int, b: int, c: int)
    requires a <= b <= c
    ensures Held(spans, n, a, c) == Held(spans, n, a, b) + Held(spans, n, b, c)
    decreases c - b
  {
    if b < c {
      HeldApart(spans, n, a, b, c - 1);
    }
  }

  /** Counting in one more interval of the curve. */
  lemma {:induction false} HeldOnInterval(curve: seq<Level>, stamps: seq<int>, spans: seq<Span>, i: nat, n: int)
    requires Stamps(stamps, spans) && Traces(curve, stamps, spans) && i < |curve|
    ensures Held(spans, n, stamps[0], stamps[i + 1])
            == Held(spans, n, stamps[0], stamps[i]) + if n == curve[i].n then stamps[i + 1] - stamps[i] else 0
  {
    assert stamps[i] < stamps[i + 1] && stamps[0] <= stamps[i];
    HeldApart(spans, n, stamps[0], stamps[i], stamps[i + 1]);
    HeldFlat(spans, n, curve[i].n, stamps[i], stamps[i + 1]);
  }

  // ---- the totals ----

  /** The instants of `[a, b)` that at least `k` windows cover. */
  function HeldAtLeast(spans: seq<Span>, k: int, a: int, b: int): nat
    decreases b - a
  {
    if b <= a then 0 else HeldAtLeast(spans, k, a, b - 1) + if Cover(spans, b - 1) >= k then 1 else 0
  }

  /** The time at the levels from `k` up to `top`. */
  function TimeFrom(times: map<int, int>, k: int, top: int): int
    decreases top - k
  {
    if top < k then 0 else TimeFrom(times, k, top - 1) + At(times, top)
  }

  lemma {:induction false} TimeFromTakesIn(times: map<int, int>, k: int, top: int, n: int, ms: int)
    requires n !in times
    ensures TimeFrom(times[n := ms], k, top) == TimeFrom(times, k, top) + if k <= n <= top then ms else 0
    decreases top - k
  {
    if k <= top {
      TimeFromTakesIn(times, k, top - 1, n, ms);
    }
  }

  lemma {:induction false} NoTime(k: int, top: int)
    ensures TimeFrom(map[], k, top) == 0
    decreases top - k
  {
    if k <= top {
      NoTime(k, top - 1);
    }
  }

  /** The sum over the entries of `times` at level `k` or more. */
  method SumFrom(times: map<int, int>, k: int, ghost top: int) returns (sum: int)
    requires forall n :: n in times ==> n <= top
    ensures sum == TimeFrom(times, k, top)
  {
    sum := 0;
    var rest := times.Keys;
    ghost var done: map<int, int> := map[];
    NoTime(k, top);
    while rest != {}
      invariant rest <= times.Keys && done == times - rest
      invariant sum == TimeFrom(done, k, top)
    {
      ghost var some := Sorting.Member(rest);
      var n :| n in rest;
      TimeFromTakesIn(done, k, top, n, times[n]);
      done := done[n := times[n]];
      sum := sum + if n >= k then times[n] else 0;
      rest := rest - {n};
    }
    assert done == times;
  }

  lemma {:induction false} LevelsAddUp(spans: seq<Span>, times: map<int, int>, k: int, top: int, a: int, b: int)
    requires forall n :: At(times, n) == Held(spans, n, a, b)
    requires forall t :: Cover(spans, t) <= top
    ensures TimeFrom(times, k, top) == HeldAtLeast(spans, k, a, b)
  {
    forall m | m <= top
      ensures TimeFrom(times, k, m) == HeldBetween(spans, k, m, a, b)
    {
      TimeIsBetween(spans, times, k, m, a, b);
    }
    if k <= top {
      AtLeastIsBetween(spans, k, top, a, b);
    } else {
      NeverSoMany(spans, k, a, b);
    }
  }

  function HeldBetween(spans: seq<Span>, k: int, top: int, a: int, b: int): nat
    decreases b - a
  {
    if b <= a then 0 else HeldBetween(spans, k, top, a, b - 1) + if k <= Cover(spans, b - 1) <= top then 1 else 0
  }

  lemma {:induction false} BetweenTakesIn(spans: seq<Span>, k: int, top: int, a: int, b: int)
    ensures HeldBetween(spans, k, top, a, b)
      == if top < k then 0 else HeldBetween(spans, k, top - 1, a, b) + Held(spans, top, a, b)
    decreases b - a
  {
    if a < b {
      BetweenTakesIn(spans, k, top, a, b - 1);
    }
  }

  lemma {:induction false} TimeIsBetween(spans: seq<Span>, times: map<int, int>, k: int, top: int, a: int, b: int)
    requires forall n :: At(times, n) == Held(spans, n, a, b)
    ensures TimeFrom(times, k, top) == HeldBetween(spans, k, top, a, b)
    decreases top - k
  {
    BetweenTakesIn(spans, k, top, a, b);
    if k <= top {
      TimeIsBetween(spans, times, k, top - 1, a, b);
    }
  }

  lemma {:induction false} AtLeastIsBetween(spans: seq<Span>, k: int, top: int, a: int, b: int)
    requires forall t :: Cover(spans, t) <= top
    ensures HeldAtLeast(spans, k, a, b) == HeldBetween(spans, k, top, a, b)
    decreases b - a
  {
    if a < b {
      AtLeastIsBetween(spans, k, top, a, b - 1);
    }
  }

  lemma {:induction false} NeverSoMany(spans: seq<Span>, k: int, a: int, b: int)
    requires forall t :: Cover(spans, t) < k
    ensures HeldAtLeast(spans, k, a, b) == 0
    decreases b - a
  {
    if a < b {
      NeverSoMany(spans, k, a, b - 1);
    }
  }

  method TimeWith(spans: seq<Span>, k: int) returns (ms: int)
    requires Forward(spans)
    ensures ms == HeldAtLeast(spans, k, CountedFrom(Boundaries(spans)), CountedTo(Boundaries(spans)))
  {
    var times := TimeAt(spans);
    ms := SumFrom(times, k, |spans|);
    forall t
      ensures Cover(spans, t) <= |spans|
    {
      CoverIsAtMostAll(spans, t);
    }
    LevelsAddUp(spans, times, k, |spans|, CountedFrom(Boundaries(spans)), CountedTo(Boundaries(spans)));
  }

  /** How many instants of the counted stretch one window or more covers. */
  method BusyMs(spans: seq<Span>) returns (ms: int)
    requires Forward(spans)
    ensures ms == HeldAtLeast(spans, 1, CountedFrom(Boundaries(spans)), CountedTo(Boundaries(spans)))
  {
    ms := TimeWith(spans, 1);
  }

  /** How many of them two windows or more cover. */
  method ParallelMs(spans: seq<Span>) returns (ms: int)
    requires Forward(spans)
    ensures ms == HeldAtLeast(spans, 2, CountedFrom(Boundaries(spans)), CountedTo(Boundaries(spans)))
  {
    ms := TimeWith(spans, 2);
  }

  lemma {:induction false} AtLeastFlat(spans: seq<Span>, k: int, m: int, a: int, b: int)
    requires a <= b && forall t :: a <= t < b ==> Cover(spans, t) == m
    ensures HeldAtLeast(spans, k, a, b) == if m >= k then b - a else 0
    decreases b - a
  {
    if a < b {
      AtLeastFlat(spans, k, m, a, b - 1);
    }
  }

  lemma {:induction false} AtLeastApart(spans: seq<Span>, k: int, a: int, b: int, c: int)
    requires a <= b <= c
    ensures HeldAtLeast(spans, k, a, c) == HeldAtLeast(spans, k, a, b) + HeldAtLeast(spans, k, b, c)
    decreases c - b
  {
    if b < c {
      AtLeastApart(spans, k, a, b, c - 1);
    }
  }

  /** What is counted of the time with `k` or more is all of it, over any stretch that holds the windows,
      exactly when fewer than `k` of them run from the last stamp but one to the last. */
  lemma {:induction false} CountedIsAll(spans: seq<Span>, k: int, a: int, b: int)
    requires Forward(spans) && k > 0 && a <= b && forall e :: e in Ends(spans) ==> a <= e <= b
    ensures var stamps := Boundaries(spans);
            HeldAtLeast(spans, k, CountedFrom(stamps), CountedTo(stamps)) == HeldAtLeast(spans, k, a, b)
            <==> (|stamps| < 2 || Cover(spans, CountedTo(stamps)) < k)
  {
    hide Boundaries, Ends, Cover;
    var stamps := Boundaries(spans);
    var curve := seq(if stamps == [] then 0 else |stamps| - 1, i requires 0 <= i < |stamps| => Level(stamps[i], Cover(spans, stamps[i])));
    CurveTraces(spans, stamps, curve);
    if |stamps| < 2 {
      assert forall t :: Cover(spans, t) == 0;
      AtLeastFlat(spans, k, 0, a, b);
    } else {
      assert stamps[0] in stamps && stamps[|stamps| - 1] in stamps;
      LastIsLeftOut(spans, k, stamps, curve, a, b);
    }
  }

  lemma {:induction false} LastIsLeftOut(spans: seq<Span>, k: int, stamps: seq<int>, curve: seq<Level>, a: int, b: int)
    requires Strict(stamps) && Traces(curve, stamps, spans) && |stamps| >= 2 && k > 0
    requires a <= stamps[0] && stamps[|stamps| - 1] <= b
    ensures HeldAtLeast(spans, k, stamps[0], CountedTo(stamps)) == HeldAtLeast(spans, k, a, b)
            <==> Cover(spans, CountedTo(stamps)) < k
  {
    hide Cover, HeldAtLeast;
    var n := |stamps| - 2;
    assert stamps[0] <= stamps[n] < stamps[n + 1];
    AtLeastApart(spans, k, a, stamps[0], b);
    AtLeastApart(spans, k, stamps[0], stamps[n], b);
    AtLeastApart(spans, k, stamps[n], stamps[n + 1], b);
    AtLeastFlat(spans, k, 0, a, stamps[0]);
    AtLeastFlat(spans, k, curve[n].n, stamps[n], stamps[n + 1]);
    AtLeastFlat(spans, k, 0, stamps[n + 1], b);
  }

  // ---- conservation ----

  /** Each level weighted by the time it held, over the levels up to `top`. */
  function Weighted(times: map<int, int>, top: int): int
    decreases top
  {
    if top < 0 then 0 else Weighted(times, top - 1) + top * At(times, top)
  }

  function Clipped(spans: seq<Span>, top: int, a: int, b: int): int
    decreases b - a
  {
    if b <= a then 0 else Clipped(spans, top, a, b - 1) + if Cover(spans, b - 1) <= top then Cover(spans, b - 1) else 0
  }

  lemma {:induction false} ClippedTakesIn(spans: seq<Span>, top: int, a: int, b: int)
    ensures Clipped(spans, top, a, b) == if top < 0 then 0 else Clipped(spans, top - 1, a, b) + top * Held(spans, top, a, b)
    decreases b - a
  {
    if a < b {
      ClippedTakesIn(spans, top, a, b - 1);
      if top >= 0 && Cover(spans, b - 1) == top {
        assert top * Held(spans, top, a, b) == top * Held(spans, top, a, b - 1) + top;
      }
    }
  }

  lemma {:induction false} WeightedIsClipped(spans: seq<Span>, times: map<int, int>, top: int, a: int, b: int)
    requires forall n :: At(times, n) == Held(spans, n, a, b)
    ensures Weighted(times, top) == Clipped(spans, top, a, b)
    decreases top
  {
    ClippedTakesIn(spans, top, a, b);
    if top >= 0 {
      WeightedIsClipped(spans, times, top - 1, a, b);
    }
  }

  lemma {:induction false} ClippedIsArea(spans: seq<Span>, a: int, b: int)
    ensures Clipped(spans, |spans|, a, b) == Area(spans, a, b)
    decreases b - a
  {
    if a < b {
      ClippedIsArea(spans, a, b - 1);
      CoverIsAtMostAll(spans, b - 1);
    }
  }

  lemma {:induction false} AreaApart(spans: seq<Span>, a: int, b: int, c: int)
    requires a <= b <= c
    ensures Area(spans, a, c) == Area(spans, a, b) + Area(spans, b, c)
    decreases c - b
  {
    if b < c {
      AreaApart(spans, a, b, c - 1);
    }
  }

  lemma {:induction false} AreaFlat(spans: seq<Span>, m: int, a: int, b: int)
    requires a <= b && forall t :: a <= t < b ==> Cover(spans, t) == m
    ensures Area(spans, a, b) == m * (b - a)
    decreases b - a
  {
    if a < b {
      AreaFlat(spans, m, a, b - 1);
      assert m * (b - a) == m * (b - 1 - a) + m;
    }
  }

  /** One more window adds its own overlap with the stretch. */
  lemma {:induction false} AreaTakesIn(spans: seq<Span>, s: Span, a: int, b: int)
    requires s.lo <= s.hi && a <= s.lo
    ensures Area(spans + [s], a, b)
      == Area(spans, a, b) + if b <= s.lo then 0 else if b <= s.hi then b - s.lo else s.hi - s.lo
    decreases b - a
  {
    if a < b {
      AreaTakesIn(spans, s, a, b - 1);
      assert (spans + [s])[..|spans|] == spans;
    }
  }

  /** Summing the cover over a stretch that holds every window gives the windows' total length. */
  lemma {:induction false} AreaIsTotal(spans: seq<Span>, a: int, b: int)
    requires Forward(spans) && forall e :: e in Ends(spans) ==> a <= e <= b
    ensures Area(spans, a, b) == TotalLength(spans)
  {
    if spans == [] {
      forall t | a <= t < b
        ensures Cover(spans, t) == 0
      {
      }
      if a < b {
        AreaFlat(spans, 0, a, b);
      }
    } else {
      var n := |spans| - 1;
      assert spans == spans[..n] + [spans[n]];
      FrontEnds(spans);
      AreaIsTotal(spans[..n], a, b);
      AreaTakesIn(spans[..n], spans[n], a, b);
    }
  }

  /** The level over the last interval of the curve, and how long that is: what TimeAt leaves out. */
  function LeftOut(curve: seq<Level>, stamps: seq<int>): int
    requires |curve| == if stamps == [] then 0 else |stamps| - 1
  {
    if curve == [] then 0 else curve[|curve| - 1].n * (stamps[|stamps| - 1] - curve[|curve| - 1].at)
  }

  /** The levels weighted by their times, and the final interval that they leave out, make up exactly
      the total length of the windows. */
  lemma {:induction false} TimesAddUp(spans: seq<Span>, curve: seq<Level>, times: map<int, int>)
    requires Forward(spans) && Traces(curve, Boundaries(spans), spans)
    requires forall n :: At(times, n) == Held(spans, n, CountedFrom(Boundaries(spans)), CountedTo(Boundaries(spans)))
    ensures Weighted(times, |spans|) + LeftOut(curve, Boundaries(spans)) == TotalLength(spans)
    ensures LeftOut(curve, Boundaries(spans)) == 0 <==> curve == [] || curve[|curve| - 1].n == 0
  {
    hide Boundaries;
    var stamps := Boundaries(spans);
    WeightedIsClipped(spans, times, |spans|, CountedFrom(stamps), CountedTo(stamps));
    ClippedIsArea(spans, CountedFrom(stamps), CountedTo(stamps));
    forall e | e in Ends(spans)
      ensures stamps != [] && stamps[0] <= e <= stamps[|stamps| - 1]
    {
      assert e in stamps;
    }
    if curve == [] {
      AreaIsTotal(spans, if stamps == [] then 0 else stamps[0], if stamps == [] then 0 else stamps[0]);
    } else {
      CountedAndLeftOut(spans, stamps, curve);
    }
  }

  lemma NoneOfIt(n: int, d: int)
    requires d != 0
    ensures n * d == 0 <==> n == 0
  {
  }

  lemma {:induction false} CountedAndLeftOut(spans: seq<Span>, stamps: seq<int>, curve: seq<Level>)
    requires Forward(spans) && Stamps(stamps, spans) && Traces(curve, stamps, spans) && curve != []
    requires forall e :: e in Ends(spans) ==> stamps[0] <= e <= stamps[|stamps| - 1]
    ensures Area(spans, stamps[0], stamps[|stamps| - 2]) + LeftOut(curve, stamps) == TotalLength(spans)
    ensures LeftOut(curve, stamps) == 0 <==> curve[|curve| - 1].n == 0
  {
    hide Cover, Area, TotalLength, Ends;
    var k := |stamps| - 2;
    NoneOfIt(curve[k].n, stamps[k + 1] - stamps[k]);
    assert stamps[0] <= stamps[k] < stamps[k + 1];
    AreaApart(spans, stamps[0], stamps[k], stamps[k + 1]);
    AreaFlat(spans, curve[k].n, stamps[k], stamps[k + 1]);
    AreaIsTotal(spans, stamps[0], stamps[k + 1]);
  }

  /** The weighted times fall short of the windows' total length exactly when some subagent was still
      running over the last interval. */
  lemma {:induction false} TimesFallShort(spans: seq<Span>, curve: seq<Level>, times: map<int, int>)
    requires Forward(spans) && Traces(curve, Boundaries(spans), spans)
    requires forall n :: At(times, n) == Held(spans, n, CountedFrom(Boundaries(spans)), CountedTo(Boundaries(spans)))
    ensures Weighted(times, |spans|) == TotalLength(spans)
      <==> var stamps := Boundaries(spans); |stamps| < 2 || Cover(spans, stamps[|stamps| - 2]) == 0
  {
    hide Boundaries;
    var stamps := Boundaries(spans);
    TimesAddUp(spans, curve, times);
    if |stamps| >= 2 {
      assert stamps[|stamps| - 2] < stamps[|stamps| - 1];
      assert Cover(spans, stamps[|stamps| - 2]) == curve[|curve| - 1].n;
    }
  }

  /** A subagent that worked alone is not counted as busy at all: its one interval is the last one. */
  lemma LoneWindowUncounted(s: Span)
    requires s.lo < s.hi
    ensures HeldAtLeast([s], 1, CountedFrom(Boundaries([s])), CountedTo(Boundaries([s]))) == 0
    ensures TotalLength([s]) == s.hi - s.lo > 0
  {
    hide Boundaries;
    var stamps := Boundaries([s]);
    assert [s][..0] == [];
    assert Ends([s]) == {s.lo, s.hi};
    forall i | 0 <= i < |stamps|
      ensures stamps[i] == s.lo || stamps[i] == s.hi
    {
      assert stamps[i] in stamps;
    }
    if |stamps| >= 2 {
      var n := |stamps| - 1;
      assert stamps[0] < stamps[n] && stamps[n - 1] < stamps[n];
    }
  }
}
