/** Drawing a tree over its own drawing changes nothing: when, and when not. */
module DocFixpoint {
  import opened DocLines
  import opened DocTree
  import opened Markers
  import opened Options
  import Sorting

  // ---- what the file system and the roots are like ----

  /** A file or directory name: clean, and without a slash. */
  predicate EntryName(name: string) {
    Clean(name) && '/' !in name
  }

  ghost predicate Tidy(kids: seq<Entry>)
    decreases kids
  {
    && (forall i :: 0 <= i < |kids| ==> EntryName(kids[i].name) && (kids[i].Dir? ==> Tidy(kids[i].kids)))
    && (forall i, j :: 0 <= i < j < |kids| ==> kids[i].name != kids[j].name)
  }

  /** `key` is `path` or lies below it. */
  predicate AtOrBelow(key: string, path: string) {
    key == path || path + "/" <= key
  }

  ghost predicate TidyRoots(roots: seq<Root>) {
    && (forall r :: r in roots ==> RootName(r.path) && Tidy(r.kids))
    && (forall i, j :: 0 <= i < j < |roots| ==>
          !AtOrBelow(roots[i].path, roots[j].path) && !AtOrBelow(roots[j].path, roots[i].path))
  }

  lemma BelowTwo(key: string, a: string, b: string)
    requires AtOrBelow(key, a) && AtOrBelow(key, b)
    ensures AtOrBelow(a, b) || AtOrBelow(b, a)
  {
    if |a| == |b| {
      assert key[..|a|] == a && key[..|b|] == b;
    } else if |a| < |b| {
      assert key[..|a| + 1] == a + "/" && key[..|b|] == b;
      assert b[..|a| + 1] == key[..|b|][..|a| + 1];
    } else {
      assert key[..|b| + 1] == b + "/" && key[..|a|] == a;
      assert a[..|b| + 1] == key[..|a|][..|b| + 1];
    }
  }

  lemma SiblingsApart(path: string, d: Entry, e: Entry)
    requires '/' !in d.name && '/' !in e.name && d.name != e.name
    ensures !AtOrBelow(Under(path, d), Under(path, e))
  {
    var a, b := Under(path, d), Under(path, e);
    assert a[|path| + 1..] == d.name && b[|path| + 1..] == e.name;
    assert forall k :: |path| < k < |a| ==> a[k] == d.name[k - |path| - 1] && d.name[k - |path| - 1] in d.name;
    assert (b + "/")[|b|] == '/';
  }

  // ---- every path is drawn once ----

  ghost predicate KeysDistinct(stops: seq<Stop>) {
    forall i, j :: 0 <= i < j < |stops| && stops[i].At? && stops[j].At? ==> stops[i].key != stops[j].key
  }

  lemma DistinctTogether(a: seq<Stop>, b: seq<Stop>)
    requires KeysDistinct(a) && KeysDistinct(b)
    requires forall s, t :: s in a && t in b && s.At? && t.At? ==> s.key != t.key
    ensures KeysDistinct(a + b)
  {
  }

  ghost predicate BelowSome(key: string, path: string, list: seq<Entry>) {
    exists e :: e in list && AtOrBelow(key, Under(path, e))
  }

  /** Everything a walk comes to lies at or below one of the entries walked over. */
  lemma {:induction false} WalkBelow(order: map<string, nat>, path: string, stem: string, kids: seq<Entry>, list: seq<Entry>)
    requires forall e :: e in list ==> e in kids
    ensures forall s :: s in WalkList(order, path, stem, kids, list) ==> s.At? && BelowSome(s.key, path, list)
    decreases kids, |list|
  {
    hide AtOrBelow;
    if list != [] {
      var e, last := list[0], |list| == 1;
      assert e in list;
      WalkBelow(order, path, stem, kids, list[1..]);
      forall s | s in WalkList(order, path, stem, kids, list[1..])
        ensures BelowSome(s.key, path, list)
      {
        var d :| d in list[1..] && AtOrBelow(s.key, Under(path, d));
        assert d in list;
      }
      AtItself(Under(path, e));
      if e.Dir? {
        InnerBelow(order, path, stem, kids, list, e, last);
      }
    }
  }

  lemma AtItself(path: string)
    ensures AtOrBelow(path, path)
  {
  }

  lemma {:induction false} InnerBelow(order: map<string, nat>, path: string, stem: string, kids: seq<Entry>, list: seq<Entry>, e: Entry, last: bool)
    requires (forall d :: d in list ==> d in kids) && e in list && e.Dir?
    ensures forall s :: s in Walk(order, Under(path, e), stem + Segment(last), e.kids) ==>
      s.At? && Under(path, e) + "/" <= s.key && AtOrBelow(s.key, Under(path, e)) && BelowSome(s.key, path, list)
    decreases kids, 0
  {
    hide Arranged, Segment, Walk;
    var inner := Arranged(order, Under(path, e), e.kids);
    assert exists j :: 0 <= j < |kids| && kids[j] == e;
    ItsWalk(order, Under(path, e), stem + Segment(last), e.kids);
    WalkBelow(order, Under(path, e), stem + Segment(last), e.kids, inner);
    forall s | s in WalkList(order, Under(path, e), stem + Segment(last), e.kids, inner)
      ensures s.At? && Under(path, e) + "/" <= s.key && AtOrBelow(s.key, Under(path, e)) && BelowSome(s.key, path, list)
    {
      assert BelowSome(s.key, Under(path, e), inner);
      var d :| d in inner && AtOrBelow(s.key, Under(Under(path, e), d));
    }
  }

  lemma {:induction false} ItsWalk(order: map<string, nat>, path: string, stem: string, kids: seq<Entry>)
    ensures Walk(order, path, stem, kids) == WalkList(order, path, stem, kids, Arranged(order, path, kids))
  {
  }

  lemma {:induction false} TidyArranged(order: map<string, nat>, path: string, kids: seq<Entry>)
    requires Tidy(kids)
    ensures Tidy(Arranged(order, path, kids))
  {
    var r := Arranged(order, path, kids);
    Sorting.ReorderedDistinct(kids, r);
    forall i | 0 <= i < |r|
      ensures EntryName(r[i].name) && (r[i].Dir? ==> Tidy(r[i].kids))
    {
      assert r[i] in kids;
    }
    forall i, j | 0 <= i < j < |r|
      ensures r[i].name != r[j].name
    {
      assert r[i] in kids && r[j] in kids;
    }
  }

  lemma {:induction false} TidyRest(list: seq<Entry>)
    requires Tidy(list) && list != []
    ensures Tidy(list[1..]) && EntryName(list[0].name) && (list[0].Dir? ==> Tidy(list[0].kids))
    ensures forall d :: d in list[1..] ==> EntryName(d.name) && d.name != list[0].name
  {
  }

  lemma {:induction false} WalkDistinct(order: map<string, nat>, path: string, stem: string, kids: seq<Entry>, list: seq<Entry>)
    requires (forall e :: e in list ==> e in kids) && Tidy(list)
    ensures KeysDistinct(WalkList(order, path, stem, kids, list))
    decreases kids, |list|
  {
    hide Tidy, EntryName, AtOrBelow, Walk;
    if list != [] {
      var e, last := list[0], |list| == 1;
      assert e in list;
      assert exists j :: 0 <= j < |kids| && kids[j] == e;
      TidyRest(list);
      var stop := At(stem, Glyph(last), e.name, e.Dir?, Under(path, e));
      var inner := if e.Dir? then Walk(order, Under(path, e), stem + Segment(last), e.kids) else [];
      var rest := WalkList(order, path, stem, kids, list[1..]);
      WalkDistinct(order, path, stem, kids, list[1..]);
      AtItself(Under(path, e));
      if e.Dir? {
        WholeWalkDistinct(order, Under(path, e), stem + Segment(last), e.kids);
        InnerBelow(order, path, stem, kids, list, e, last);
      }
      DistinctTogether([stop], inner);
      RestApart(order, path, stem, kids, list);
      DistinctTogether([stop] + inner, rest);
    }
  }

  lemma {:induction false} WholeWalkDistinct(order: map<string, nat>, path: string, stem: string, kids: seq<Entry>)
    requires Tidy(kids)
    ensures KeysDistinct(Walk(order, path, stem, kids))
    decreases kids, |kids| + 1
  {
    TidyArranged(order, path, kids);
    WalkDistinct(order, path, stem, kids, Arranged(order, path, kids));
  }

  /** Nothing at or below the first entry is drawn again with the others. */
  lemma {:induction false} RestApart(order: map<string, nat>, path: string, stem: string, kids: seq<Entry>, list: seq<Entry>)
    requires (forall e :: e in list ==> e in kids) && Tidy(list) && list != []
    ensures forall s, key :: s in WalkList(order, path, stem, kids, list[1..]) && AtOrBelow(key, Under(path, list[0])) ==>
      s.At? && s.key != key
  {
    hide AtOrBelow, Under, Tidy;
    TidyRest(list);
    WalkBelow(order, path, stem, kids, list[1..]);
    forall s, key | s in WalkList(order, path, stem, kids, list[1..]) && AtOrBelow(key, Under(path, list[0]))
      ensures s.At? && s.key != key
    {
      var d :| d in list[1..] && AtOrBelow(s.key, Under(path, d));
      SiblingsApart(path, d, list[0]);
      SiblingsApart(path, list[0], d);
      if s.key == key {
        BelowTwo(key, Under(path, d), Under(path, list[0]));
      }
    }
  }

  // ---- what is drawn reads back ----

  function Level(stop: Stop): nat
    requires stop.At?
  {
    if stop.glyph == "" then 0 else |stop.stem| / 4 + 1
  }

  /** A row that can be told apart: a root's, or an entry's behind its stem and glyph. */
  ghost predicate GoodStop(s: Stop) {
    s.At? && if s.glyph == "" then s.stem == "" && s.slash && RootName(s.name)
             else IsStem(s.stem) && IsGlyph(s.glyph) && Clean(s.name) && s.name[|s.name| - 1] != '/'
  }

  /** A note a root line can carry: none, or one that itself looks like the end of a path. */
  predicate Readable(note: string) {
    note == "" || EndsWith(note, '/')
  }

  function Line(stop: Stop, notes: map<string, string>, width: nat): string {
    DrawLine(Label(stop), StopNote(stop, notes), width)
  }

  ghost predicate TrimNotes(notes: map<string, string>) {
    forall key :: key in notes ==> Trim(notes[key])
  }

  ghost predicate Fits(stop: Stop, notes: map<string, string>, width: nat) {
    StopNote(stop, notes) != "" ==> |Label(stop)| + 2 <= width
  }

  lemma StopReadsBack(s: Stop, notes: map<string, string>, width: nat, word: char -> bool)
    requires GoodStop(s) && TrimNotes(notes) && Fits(s, notes, width) && (forall c :: IsSpace(c) ==> !word(c))
    ensures Fields(Line(s, notes, width)) == Item(Level(s), s.name, StopNote(s, notes))
    ensures ReadLine(Line(s, notes, width), word)
            == if s.glyph == "" && !Readable(StopNote(s, notes)) then None
               else Some(Item(Level(s), s.name, StopNote(s, notes)))
  {
    hide Fields, ReadLine, DrawLine, IsSpace, Clean, IsStem, IsGlyph;
    var note := StopNote(s, notes);
    if s.glyph == "" {
      assert Label(s) == s.name + "/";
      RootReadsBack(s.name, note, width, word);
    } else {
      EntryReadsBack(s.stem, s.glyph, s.name, s.slash, note, width, word);
    }
  }

  function Lines(stops: seq<Stop>, notes: map<string, string>, width: nat): (lines: seq<string>)
    ensures |lines| == |stops|
    ensures forall i :: 0 <= i < |lines| ==> lines[i] == Line(stops[i], notes, width)
  {
    DrawRows(Rows(stops, notes), width)
  }

  /** The path and note of each row, in order. */
  function PairsOf(stops: seq<Stop>, notes: map<string, string>): seq<Pair> {
    if stops == [] then []
    else
      var front, s := PairsOf(stops[..|stops| - 1], notes), stops[|stops| - 1];
      if s.Gap? then front else front + [Pair(s.key, NoteAt(notes, s.key))]
  }

  lemma {:induction false} PairsOfAppend(a: seq<Stop>, b: seq<Stop>, notes: map<string, string>)
    ensures PairsOf(a + b, notes) == PairsOf(a, notes) + PairsOf(b, notes)
  {
    if b == [] {
      assert a + b == a;
    } else {
      assert (a + b)[..|a + b| - 1] == a + b[..|b| - 1];
      PairsOfAppend(a, b[..|b| - 1], notes);
    }
  }

  lemma LinesAppend(a: seq<Stop>, b: seq<Stop>, notes: map<string, string>, width: nat)
    ensures Lines(a + b, notes, width) == Lines(a, notes, width) + Lines(b, notes, width)
  {
  }

  lemma {:induction false} PairsAppend(stack: seq<string>, a: seq<string>, b: seq<string>, word: char -> bool)
    ensures Pairs(stack, a + b, word) == Pairs(stack, a, word) + Pairs(StackAfter(stack, a, word), b, word)
    ensures StackAfter(stack, a + b, word) == StackAfter(StackAfter(stack, a, word), b, word)
  {
    hide ReadLine, Join, Pushed;
    if b == [] {
      assert a + b == a;
    } else {
      assert (a + b)[..|a + b| - 1] == a + b[..|b| - 1];
      PairsAppend(stack, a, b[..|b| - 1], word);
    }
  }

  lemma {:induction false} OnePair(stack: seq<string>, line: string, word: char -> bool)
    ensures var item := ReadLine(line, word);
            && StackAfter(stack, [line], word) == (if item.None? then stack else Pushed(stack, item.value))
            && Pairs(stack, [line], word) == if item.None? then [] else [Pair(Join(Pushed(stack, item.value)), item.value.note)]
  {
    hide ReadLine, Join, Pushed;
    assert [line][..0] == [];
  }

  lemma JoinPushed(stack: seq<string>, item: Item, path: string)
    requires |stack| >= item.level && Join(stack[..item.level]) == path && path != "" && item.name != ""
    ensures Join(Pushed(stack, item)) == path + "/" + item.name
  {
    var r := Pushed(stack, item);
    assert r[..|r| - 1] == stack[..item.level];
  }

  /** The stack holds the path of the directory whose children come next. */
  ghost predicate StackHolds(stack: seq<string>, stem: string, path: string) {
    var level := |stem| / 4 + 1;
    path != "" && |stack| >= level && Join(stack[..level]) == path
  }

  lemma StackStays(stack: seq<string>, stack': seq<string>, stem: string, path: string)
    requires StackHolds(stack, stem, path)
    requires |stack'| > |stem| / 4 && stack'[..|stem| / 4 + 1] == stack[..|stem| / 4 + 1]
    ensures StackHolds(stack', stem, path)
  {
  }

  ghost predicate AllFit(stops: seq<Stop>, notes: map<string, string>, width: nat) {
    forall s :: s in stops ==> Fits(s, notes, width)
  }

  /** One entry's line names its path, and leaves the directory it is in on the stack. */
  lemma {:induction false} EntryPair(stack: seq<string>, path: string, stem: string, last: bool, e: Entry, notes: map<string, string>, width: nat, word: char -> bool)
    requires IsStem(stem) && StackHolds(stack, stem, path) && EntryName(e.name)
    requires TrimNotes(notes) && (forall c :: IsSpace(c) ==> !word(c))
    requires Fits(At(stem, Glyph(last), e.name, e.Dir?, Under(path, e)), notes, width)
    ensures var s := At(stem, Glyph(last), e.name, e.Dir?, Under(path, e));
            var line := Line(s, notes, width);
            var after := StackAfter(stack, [line], word);
            && Pairs(stack, [line], word) == [Pair(Under(path, e), NoteAt(notes, Under(path, e)))]
            && |after| == |stem| / 4 + 2 && after[..|stem| / 4 + 1] == stack[..|stem| / 4 + 1]
            && Join(after) == Under(path, e)
  {
    hide ReadLine, Fields, Join, IsStem, DrawLine, Clean, Line, IsSpace;
    var s := At(stem, Glyph(last), e.name, e.Dir?, Under(path, e));
    var line := Line(s, notes, width);
    NameIsClean(e.name);
    StopReadsBack(s, notes, width, word);
    OnePair(stack, line, word);
    JoinPushed(stack, Item(Level(s), e.name, StopNote(s, notes)), path);
  }

  lemma NameIsClean(name: string)
    requires EntryName(name)
    ensures Clean(name) && name != "" && name[|name| - 1] != '/'
  {
    assert name[|name| - 1] in name;
  }

  lemma {:induction false} WalkReadsBack(stack: seq<string>, order: map<string, nat>, path: string, stem: string, kids: seq<Entry>,
                                         list: seq<Entry>, notes: map<string, string>, width: nat, word: char -> bool)
    requires (forall e :: e in list ==> e in kids) && Tidy(list) && IsStem(stem) && StackHolds(stack, stem, path)
    requires TrimNotes(notes) && (forall c :: IsSpace(c) ==> !word(c))
    requires AllFit(WalkList(order, path, stem, kids, list), notes, width)
    ensures var stops := WalkList(order, path, stem, kids, list);
            var after := StackAfter(stack, Lines(stops, notes, width), word);
            && Pairs(stack, Lines(stops, notes, width), word) == PairsOf(stops, notes)
            && |after| > |stem| / 4 && after[..|stem| / 4 + 1] == stack[..|stem| / 4 + 1]
    decreases kids, |list|
  {
    if list == [] {
      assert Lines([], notes, width) == [];
    } else {
      FirstReadsBack(stack, order, path, stem, kids, list, notes, width, word);
    }
  }

  /** The three parts of a walk: the entry, what is in it, and the other entries. */
  lemma {:induction false} FirstReadsBack(stack: seq<string>, order: map<string, nat>, path: string, stem: string, kids: seq<Entry>,
                                          list: seq<Entry>, notes: map<string, string>, width: nat, word: char -> bool)
    requires (forall e :: e in list ==> e in kids) && Tidy(list) && list != [] && IsStem(stem) && StackHolds(stack, stem, path)
    requires TrimNotes(notes) && (forall c :: IsSpace(c) ==> !word(c))
    requires AllFit(WalkList(order, path, stem, kids, list), notes, width)
    ensures var stops := WalkList(order, path, stem, kids, list);
            var after := StackAfter(stack, Lines(stops, notes, width), word);
            && Pairs(stack, Lines(stops, notes, width), word) == PairsOf(stops, notes)
            && |after| > |stem| / 4 && after[..|stem| / 4 + 1] == stack[..|stem| / 4 + 1]
    decreases kids, |list|, 0
  {
    hide Tidy, EntryName, Walk, Lines, PairsOf, Pairs, StackAfter, Under, Join, Fits, IsStem, IsSpace;
    var e, last := list[0], |list| == 1;
    var key := Under(path, e);
    assert e in list;
    assert exists j :: 0 <= j < |kids| && kids[j] == e;
    TidyRest(list);
    var stop := At(stem, Glyph(last), e.name, e.Dir?, key);
    var inner := if e.Dir? then Walk(order, key, stem + Segment(last), e.kids) else [];
    var rest := WalkList(order, path, stem, kids, list[1..]);
    assert stop in [stop] + inner + rest;
    EntryPair(stack, path, stem, last, e, notes, width, word);
    var s1 := StackAfter(stack, [Line(stop, notes, width)], word);
    StackStays(stack, s1, stem, path);
    if e.Dir? {
      WholeWalkReadsBack(s1, order, path, stem, e, last, notes, width, word);
    } else {
      NothingReadsBack(s1, notes, width, word);
    }
    var s2 := StackAfter(s1, Lines(inner, notes, width), word);
    assert s2[..|stem| / 4 + 1] == s1[..|stem| / 4 + 1];
    StackStays(s1, s2, stem, path);
    WalkReadsBack(s2, order, path, stem, kids, list[1..], notes, width, word);
    ThreeParts(stack, stop, inner, rest, notes, width, word);
  }

  lemma {:induction false} NothingReadsBack(stack: seq<string>, notes: map<string, string>, width: nat, word: char -> bool)
    ensures Lines([], notes, width) == [] && PairsOf([], notes) == []
    ensures Pairs(stack, [], word) == [] && StackAfter(stack, [], word) == stack
  {
  }

  lemma {:induction false} ThreeParts(stack: seq<string>, stop: Stop, inner: seq<Stop>, rest: seq<Stop>, notes: map<string, string>, width: nat, word: char -> bool)
    requires stop.At?
    ensures var line := Line(stop, notes, width);
            var s1 := StackAfter(stack, [line], word);
            var s2 := StackAfter(s1, Lines(inner, notes, width), word);
            && Pairs(stack, Lines([stop] + inner + rest, notes, width), word)
               == Pairs(stack, [line], word) + Pairs(s1, Lines(inner, notes, width), word) + Pairs(s2, Lines(rest, notes, width), word)
            && StackAfter(stack, Lines([stop] + inner + rest, notes, width), word) == StackAfter(s2, Lines(rest, notes, width), word)
            && PairsOf([stop] + inner + rest, notes)
               == [Pair(stop.key, NoteAt(notes, stop.key))] + PairsOf(inner, notes) + PairsOf(rest, notes)
  {
    hide Pairs, StackAfter, Line, Lines, PairsOf;
    var line := Line(stop, notes, width);
    LinesAppend([stop], inner, notes, width);
    LinesAppend([stop] + inner, rest, notes, width);
    OneLine(stop, notes, width);
    PairsAppend(stack, [line], Lines(inner, notes, width), word);
    PairsAppend(stack, [line] + Lines(inner, notes, width), Lines(rest, notes, width), word);
    PairsOfAppend([stop], inner, notes);
    PairsOfAppend([stop] + inner, rest, notes);
  }

  lemma {:induction false} OneLine(stop: Stop, notes: map<string, string>, width: nat)
    ensures Lines([stop], notes, width) == [Line(stop, notes, width)]
    ensures PairsOf([stop], notes) == if stop.Gap? then [] else [Pair(stop.key, NoteAt(notes, stop.key))]
  {
    assert [stop][..0] == [];
  }

  /** Everything in a directory, once its own line has been read. */
  lemma {:induction false} WholeWalkReadsBack(stack: seq<string>, order: map<string, nat>, path: string, stem: string, e: Entry, last: bool,
                                              notes: map<string, string>, width: nat, word: char -> bool)
    requires e.Dir? && Tidy(e.kids) && IsStem(stem) && path != ""
    requires |stack| == |stem| / 4 + 2 && Join(stack) == Under(path, e)
    requires TrimNotes(notes) && (forall c :: IsSpace(c) ==> !word(c))
    requires AllFit(Walk(order, Under(path, e), stem + Segment(last), e.kids), notes, width)
    ensures var stops := Walk(order, Under(path, e), stem + Segment(last), e.kids);
            var after := StackAfter(stack, Lines(stops, notes, width), word);
            && Pairs(stack, Lines(stops, notes, width), word) == PairsOf(stops, notes)
            && |after| > |stem| / 4 && after[..|stem| / 4 + 1] == stack[..|stem| / 4 + 1]
    decreases e.kids, |e.kids| + 1
  {
    hide Tidy, Lines, PairsOf, Pairs, StackAfter, Join, Fits, IsSpace;
    var deeper := stem + Segment(last);
    assert IsSegment(Segment(last)) && |Segment(last)| == 4;
    StemDeepens(stem, Segment(last));
    assert stack[..|deeper| / 4 + 1] == stack;
    var list := Arranged(order, Under(path, e), e.kids);
    TidyArranged(order, Under(path, e), e.kids);
    WalkReadsBack(stack, order, Under(path, e), deeper, e.kids, list, notes, width, word);
    var after := StackAfter(stack, Lines(Walk(order, Under(path, e), deeper, e.kids), notes, width), word);
    assert after[..|deeper| / 4 + 1][..|stem| / 4 + 1] == after[..|stem| / 4 + 1];
    assert stack[..|deeper| / 4 + 1][..|stem| / 4 + 1] == stack[..|stem| / 4 + 1];
  }

  // ---- the roots ----

  lemma TidyBefore(roots: seq<Root>, n: nat)
    requires TidyRoots(roots) && n <= |roots|
    ensures TidyRoots(roots[..n])
  {
    assert forall r :: r in roots[..n] ==> r in roots;
  }

  /** The rows of one root, behind the blank one. */
  function RootStops(order: map<string, nat>, root: Root, first: bool): seq<Stop> {
    (if first then [] else [Gap]) + [At("", "", root.path, true, root.path)] + Walk(order, root.path, "", root.kids)
  }

  lemma {:induction false} LastRoot(order: map<string, nat>, roots: seq<Root>)
    requires roots != []
    ensures var n := |roots| - 1;
            Stops(order, roots) == Stops(order, roots[..n]) + RootStops(order, roots[n], n == 0)
  {
    hide Walk;
    var n := |roots| - 1;
    var a, gap, top, b := Stops(order, roots[..n]), if n == 0 then [] else [Gap],
      [At("", "", roots[n].path, true, roots[n].path)], Walk(order, roots[n].path, "", roots[n].kids);
    assert a + gap + top + b == a + (gap + top + b);
  }

  lemma {:induction false} RootReadsBackWhole(stack: seq<string>, order: map<string, nat>, root: Root, first: bool, notes: map<string, string>, width: nat, word: char -> bool)
    requires RootName(root.path) && Tidy(root.kids) && Readable(NoteAt(notes, root.path))
    requires TrimNotes(notes) && (forall c :: IsSpace(c) ==> !word(c))
    requires AllFit(RootStops(order, root, first), notes, width)
    ensures var stops := RootStops(order, root, first);
            Pairs(stack, Lines(stops, notes, width), word) == PairsOf(stops, notes)
  {
    hide Tidy, Walk, Lines, PairsOf, Pairs, StackAfter, Fits, IsSpace, ReadLine, Fields, Line, RootName, Pushed;
    var stop, inner := At("", "", root.path, true, root.path), Walk(order, root.path, "", root.kids);
    var stops := RootStops(order, root, first);
    assert stop in stops;
    assert GoodStop(stop);
    StopReadsBack(stop, notes, width, word);
    OnePair(stack, Line(stop, notes, width), word);
    var s1 := StackAfter(stack, [Line(stop, notes, width)], word);
    RootOnStack(stack, root.path, NoteAt(notes, root.path));
    assert forall s :: s in inner ==> s in stops;
    RootWalkReadsBack(s1, order, root, notes, width, word);
    NothingReadsBack(s1, notes, width, word);
    ThreeParts(stack, stop, inner, [], notes, width, word);
    assert [stop] + inner + [] == [stop] + inner;
    NothingReadsBack(StackAfter(s1, Lines(inner, notes, width), word), notes, width, word);
    if !first {
      GapIsSkipped(stack, [stop] + inner, notes, width, word);
      assert stops == [Gap] + ([stop] + inner);
    } else {
      assert stops == [stop] + inner;
    }
  }

  lemma RootOnStack(stack: seq<string>, path: string, note: string)
    requires RootName(path)
    ensures Pushed(stack, Item(0, path, note)) == [path] && Join([path]) == path && path != ""
  {
    assert [path][..0] == [] && stack[..0] == [];
    assert Join([]) == "";
  }

  lemma {:induction false} RootWalkReadsBack(stack: seq<string>, order: map<string, nat>, root: Root, notes: map<string, string>, width: nat, word: char -> bool)
    requires root.path != "" && Tidy(root.kids) && stack == [root.path] && Join(stack) == root.path
    requires TrimNotes(notes) && (forall c :: IsSpace(c) ==> !word(c))
    requires AllFit(Walk(order, root.path, "", root.kids), notes, width)
    ensures var inner := Walk(order, root.path, "", root.kids);
            Pairs(stack, Lines(inner, notes, width), word) == PairsOf(inner, notes)
  {
    hide Tidy, Lines, PairsOf, Pairs, StackAfter, Fits, IsSpace, Join;
    TidyArranged(order, root.path, root.kids);
    assert stack[..1] == stack;
    WalkReadsBack(stack, order, root.path, "", root.kids, Arranged(order, root.path, root.kids), notes, width, word);
  }

  lemma {:induction false} GapIsSkipped(stack: seq<string>, stops: seq<Stop>, notes: map<string, string>, width: nat, word: char -> bool)
    ensures Pairs(stack, Lines([Gap] + stops, notes, width), word) == Pairs(stack, Lines(stops, notes, width), word)
    ensures PairsOf([Gap] + stops, notes) == PairsOf(stops, notes)
  {
    hide Lines, PairsOf, Pairs, StackAfter, ReadLine;
    LinesAppend([Gap], stops, notes, width);
    OneLine(Gap, notes, width);
    assert Line(Gap, notes, width) == "";
    FenceIsSkipped(word);
    OnePair(stack, "", word);
    PairsAppend(stack, [""], Lines(stops, notes, width), word);
    PairsOfAppend([Gap], stops, notes);
  }

  /** When every root's note can be read, the rows read back as exactly what was drawn. */
  lemma {:induction false} StopsReadBack(order: map<string, nat>, roots: seq<Root>, notes: map<string, string>, width: nat, word: char -> bool)
    requires TidyRoots(roots) && (forall r :: r in roots ==> Readable(NoteAt(notes, r.path)))
    requires TrimNotes(notes) && (forall c :: IsSpace(c) ==> !word(c))
    requires AllFit(Stops(order, roots), notes, width)
    ensures Pairs([], Lines(Stops(order, roots), notes, width), word) == PairsOf(Stops(order, roots), notes)
  {
    hide Tidy, Lines, PairsOf, Pairs, StackAfter, Fits, IsSpace, RootStops, Stops, RootName;
    if roots == [] {
      NoStops(notes, order);
      assert Stops(order, roots) == [];
      NothingReadsBack([], notes, width, word);
    } else {
      var n := |roots| - 1;
      LastRoot(order, roots);
      TidyBefore(roots, n);
      assert forall r :: r in roots[..n] ==> r in roots;
      assert roots[n] in roots;
      var before, now := Stops(order, roots[..n]), RootStops(order, roots[n], n == 0);
      assert forall s :: s in before || s in now ==> s in Stops(order, roots);
      StopsReadBack(order, roots[..n], notes, width, word);
      LinesAppend(before, now, notes, width);
      PairsAppend([], Lines(before, notes, width), Lines(now, notes, width), word);
      RootReadsBackWhole(StackAfter([], Lines(before, notes, width), word), order, roots[n], n == 0, notes, width, word);
      PairsOfAppend(before, now, notes);
    }
  }

  lemma {:induction false} FencesAreSkipped(lines: seq<string>, word: char -> bool)
    ensures Pairs([], ["```"] + lines + ["```"], word) == Pairs([], lines, word)
  {
    hide ReadLine;
    FenceIsSkipped(word);
    OnePair([], "```", word);
    PairsAppend([], ["```"], lines, word);
    PairsAppend([], ["```"] + lines, ["```"], word);
    OnePair(StackAfter([], ["```"] + lines, word), "```", word);
  }

  lemma {:induction false} StopsDistinct(order: map<string, nat>, roots: seq<Root>)
    requires TidyRoots(roots)
    ensures KeysDistinct(Stops(order, roots))
    ensures forall s :: s in Stops(order, roots) && s.At? ==> exists r :: r in roots && AtOrBelow(s.key, r.path)
  {
    hide Tidy, AtOrBelow, RootName, Stops;
    if roots == [] {
      assert Stops(order, roots) == [] by {
        NoStops(map[], order);
      }
    } else {
      var n := |roots| - 1;
      LastRoot(order, roots);
      TidyBefore(roots, n);
      StopsDistinct(order, roots[..n]);
      assert roots[n] in roots;
      RootDistinct(order, roots[n], n == 0);
      var before, now := Stops(order, roots[..n]), RootStops(order, roots[n], n == 0);
      forall s, t | s in before && t in now && s.At? && t.At?
        ensures s.key != t.key
      {
        var r :| r in roots[..n] && AtOrBelow(s.key, r.path);
        if s.key == t.key {
          BelowTwo(s.key, r.path, roots[n].path);
        }
      }
      DistinctTogether(before, now);
      assert forall r :: r in roots[..n] ==> r in roots;
    }
  }

  lemma RootDistinct(order: map<string, nat>, root: Root, first: bool)
    requires Tidy(root.kids)
    ensures KeysDistinct(RootStops(order, root, first))
    ensures forall s :: s in RootStops(order, root, first) && s.At? ==> AtOrBelow(s.key, root.path)
  {
    hide Tidy, Walk;
    var inner, stop := Walk(order, root.path, "", root.kids), At("", "", root.path, true, root.path);
    WholeWalkDistinct(order, root.path, "", root.kids);
    WholeWalkBelow(order, root.path, "", root.kids);
    DistinctTogether([stop], inner);
    if !first {
      DistinctTogether([Gap], [stop] + inner);
      assert RootStops(order, root, first) == [Gap] + ([stop] + inner);
    } else {
      assert RootStops(order, root, first) == [stop] + inner;
    }
  }

  lemma {:induction false} WholeWalkBelow(order: map<string, nat>, path: string, stem: string, kids: seq<Entry>)
    ensures forall s :: s in Walk(order, path, stem, kids) ==> s.At? && path + "/" <= s.key && s.key != path
  {
    hide Arranged, Walk;
    var list := Arranged(order, path, kids);
    ItsWalk(order, path, stem, kids);
    WalkBelow(order, path, stem, kids, list);
    forall s | s in WalkList(order, path, stem, kids, list)
      ensures s.At? && path + "/" <= s.key
    {
      assert BelowSome(s.key, path, list);
      var d :| d in list && AtOrBelow(s.key, Under(path, d));
    }
  }
}
