/** Drawing the tree over its own drawing: the same text, exactly when every root's note can be read back. */
module DocRedraw {
  import opened DocFixpoint
  import opened DocLines
  import opened DocTree
  import opened Markers
  import opened Options
  import Parents

  // ---- what was read keeps the order and the notes ----

  /** Every row drawn has a place, and later rows have later ones. */
  ghost predicate Rises(order: map<string, nat>, stops: seq<Stop>) {
    && (forall s :: s in stops && s.At? ==> s.key in order && order[s.key] < |order|)
    && (forall i, j :: 0 <= i < j < |stops| && stops[i].At? && stops[j].At? ==>
          Rank(order, stops[i].key) < Rank(order, stops[j].key))
  }

  ghost predicate SameNotes(notes: map<string, string>, notes': map<string, string>, stops: seq<Stop>) {
    forall s :: s in stops && s.At? ==> NoteAt(notes', s.key) == NoteAt(notes, s.key)
  }

  ghost predicate OnlyThese(keys: set<string>, stops: seq<Stop>) {
    forall key :: key in keys ==> exists s :: s in stops && s.At? && s.key == key
  }

  lemma FreshKey(keys: set<string>, front: seq<Stop>, s: Stop)
    requires OnlyThese(keys, front) && KeysDistinct(front + [s]) && s.At?
    ensures s.key !in keys && forall t :: t in front && t.At? ==> t.key != s.key
  {
    var stops := front + [s];
    assert stops[|front|] == s;
    forall t | t in front && t.At?
      ensures t.key != s.key
    {
      var i :| 0 <= i < |front| && front[i] == t;
      assert stops[i] == t;
    }
  }

  lemma OnlyTheseMore(keys: set<string>, front: seq<Stop>, s: Stop)
    requires OnlyThese(keys, front)
    ensures OnlyThese(keys, front + [s])
    ensures s.At? ==> OnlyThese(keys + {s.key}, front + [s])
  {
    forall key | key in keys
      ensures exists t :: t in front + [s] && t.At? && t.key == key
    {
      var t :| t in front && t.At? && t.key == key;
      assert t in front + [s];
    }
    assert s in front + [s];
  }

  lemma RanksStay(order: map<string, nat>, front: seq<Stop>, key: string)
    requires Rises(order, front) && key !in order
    ensures var more := order[key := |order|];
            && Rises(more, front) && key in more && more[key] < |more|
            && forall t :: t in front && t.At? ==> Rank(more, t.key) < Rank(more, key)
  {
    var more := order[key := |order|];
    assert |more| == |order| + 1;
    assert forall t :: t in front && t.At? ==> Rank(more, t.key) == Rank(order, t.key);
    assert forall i :: 0 <= i < |front| ==> front[i] in front;
  }

  lemma RisesBehind(order: map<string, nat>, front: seq<Stop>, s: Stop)
    requires Rises(order, front) && s.At? && s.key in order && order[s.key] < |order|
    requires forall t :: t in front && t.At? ==> Rank(order, t.key) < Rank(order, s.key)
    ensures Rises(order, front + [s])
  {
    hide Rank;
    assert forall i :: 0 <= i < |front| ==> front[i] in front;
  }

  lemma RisesOneMore(order: map<string, nat>, front: seq<Stop>, s: Stop)
    requires Rises(order, front) && OnlyThese(order.Keys, front) && KeysDistinct(front + [s]) && s.At?
    ensures s.key !in order && Rises(order[s.key := |order|], front + [s])
    ensures OnlyThese(order[s.key := |order|].Keys, front + [s])
  {
    hide KeysDistinct, OnlyThese, Rank, Rises;
    FreshKey(order.Keys, front, s);
    OnlyTheseMore(order.Keys, front, s);
    RanksStay(order, front, s.key);
    var more := order[s.key := |order|];
    RisesBehind(more, front, s);
    assert more.Keys == order.Keys + {s.key};
  }

  lemma RisesOverGap(order: map<string, nat>, front: seq<Stop>, s: Stop)
    requires Rises(order, front) && s.Gap?
    ensures Rises(order, front + [s])
  {
  }

  lemma {:induction false} OrderIsKept(stops: seq<Stop>, notes: map<string, string>)
    requires KeysDistinct(stops)
    ensures Rises(OrderOf(PairsOf(stops, notes)), stops) && OnlyThese(OrderOf(PairsOf(stops, notes)).Keys, stops)
  {
    if stops != [] {
      hide NoteAt, Rises, OnlyThese;
      var front, s := stops[..|stops| - 1], stops[|stops| - 1];
      assert stops == front + [s];
      OrderIsKept(front, notes);
      if s.At? {
        PairsGrow(PairsOf(front, notes), Pair(s.key, NoteAt(notes, s.key)));
        RisesOneMore(OrderOf(PairsOf(front, notes)), front, s);
      } else {
        OnlyTheseMore(OrderOf(PairsOf(front, notes)).Keys, front, s);
        RisesOverGap(OrderOf(PairsOf(front, notes)), front, s);
      }
    }
  }

  /** Taking in one more row's note, a fresh path's, keeps the others. */
  lemma NotesOneMore(notes: map<string, string>, got: map<string, string>, front: seq<Stop>, s: Stop)
    requires SameNotes(notes, got, front) && s.At? && s.key !in got && (forall t :: t in front && t.At? ==> t.key != s.key)
    ensures var note := NoteAt(notes, s.key);
            SameNotes(notes, if note != "" then got[s.key := note] else got, front + [s])
  {
  }

  lemma NothingKept(notes: map<string, string>)
    ensures SameNotes(notes, NotesOf([]), []) && OnlyThese(NotesOf([]).Keys, [])
  {
  }

  lemma LastPair(stops: seq<Stop>, notes: map<string, string>)
    ensures PairsOf([], notes) == []
    ensures stops != [] ==>
      var front, s := stops[..|stops| - 1], stops[|stops| - 1];
      PairsOf(stops, notes)
      == if s.At? then PairsOf(front, notes) + [Pair(s.key, NoteAt(notes, s.key))] else PairsOf(front, notes)
    ensures stops != [] && KeysDistinct(stops) ==> KeysDistinct(stops[..|stops| - 1])
  {
  }

  lemma {:induction false} NotesAreKept(stops: seq<Stop>, notes: map<string, string>)
    requires KeysDistinct(stops)
    ensures SameNotes(notes, NotesOf(PairsOf(stops, notes)), stops)
    ensures OnlyThese(NotesOf(PairsOf(stops, notes)).Keys, stops)
  {
    hide NoteAt, SameNotes, OnlyThese, KeysDistinct, NotesOf, PairsOf;
    LastPair(stops, notes);
    if stops == [] {
      NothingKept(notes);
    } else {
      var front, s := stops[..|stops| - 1], stops[|stops| - 1];
      assert stops == front + [s];
      NotesAreKept(front, notes);
      var got := NotesOf(PairsOf(front, notes));
      OnlyTheseMore(got.Keys, front, s);
      if s.At? {
        PairsGrow(PairsOf(front, notes), Pair(s.key, NoteAt(notes, s.key)));
        FreshKey(got.Keys, front, s);
        NotesOneMore(notes, got, front, s);
        assert got[s.key := NoteAt(notes, s.key)].Keys == got.Keys + {s.key};
      } else {
        NotesOverGap(notes, got, front, s);
      }
    }
  }

  lemma NotesOverGap(notes: map<string, string>, got: map<string, string>, front: seq<Stop>, s: Stop)
    requires SameNotes(notes, got, front) && s.Gap?
    ensures SameNotes(notes, got, front + [s])
  {
  }

  // ---- the same order gives the same arrangement ----

  lemma RisesApart(order: map<string, nat>, a: seq<Stop>, b: seq<Stop>)
    requires Rises(order, a + b)
    ensures Rises(order, a) && Rises(order, b)
    ensures forall s, t :: s in a && t in b && s.At? && t.At? ==> Rank(order, s.key) < Rank(order, t.key)
  {
    var whole := a + b;
    assert forall i :: 0 <= i < |a| ==> whole[i] == a[i];
    assert forall j :: 0 <= j < |b| ==> whole[|a| + j] == b[j];
    forall s, t | s in a && t in b && s.At? && t.At?
      ensures Rank(order, s.key) < Rank(order, t.key)
    {
      var i :| 0 <= i < |a| && a[i] == s;
      var j :| 0 <= j < |b| && b[j] == t;
      assert whole[i] == s && whole[|a| + j] == t;
    }
  }

  ghost predicate Ascending(order: map<string, nat>, path: string, list: seq<Entry>) {
    forall i, j :: 0 <= i < j < |list| ==> Rank(order, Under(path, list[i])) < Rank(order, Under(path, list[j]))
  }

  ghost predicate Met(key: string, stops: seq<Stop>) {
    exists s :: s in stops && s.At? && s.key == key
  }

  lemma {:induction false} SiblingsMet(order: map<string, nat>, path: string, stem: string, kids: seq<Entry>, list: seq<Entry>)
    requires forall e :: e in list ==> e in kids
    ensures forall e :: e in list ==> Met(Under(path, e), WalkList(order, path, stem, kids, list))
    decreases |list|
  {
    hide Under, Walk;
    if list != [] {
      var e, last := list[0], |list| == 1;
      var stop := At(stem, Glyph(last), e.name, e.Dir?, Under(path, e));
      var rest := WalkList(order, path, stem, kids, list[1..]);
      assert e in list;
      SiblingsMet(order, path, stem, kids, list[1..]);
      assert stop in WalkList(order, path, stem, kids, list);
      forall d | d in list[1..]
        ensures Met(Under(path, d), WalkList(order, path, stem, kids, list))
      {
        var s :| s in rest && s.At? && s.key == Under(path, d);
        assert s in WalkList(order, path, stem, kids, list);
      }
      assert forall d :: d in list ==> d == e || d in list[1..];
    }
  }

  lemma {:induction false} SiblingsAscend(order': map<string, nat>, order: map<string, nat>, path: string, stem: string,
                                          kids: seq<Entry>, list: seq<Entry>)
    requires (forall e :: e in list ==> e in kids) && Rises(order', WalkList(order, path, stem, kids, list))
    ensures Ascending(order', path, list)
    decreases |list|
  {
    hide Under, Walk, Rises, Rank, Ascending;
    if list == [] {
      NoneAscend(order', path);
    } else {
      var e, last := list[0], |list| == 1;
      assert e in list;
      var stop := At(stem, Glyph(last), e.name, e.Dir?, Under(path, e));
      var inner := if e.Dir? then Walk(order, Under(path, e), stem + Segment(last), e.kids) else [];
      var rest := WalkList(order, path, stem, kids, list[1..]);
      assert WalkList(order, path, stem, kids, list) == ([stop] + inner) + rest;
      RisesApart(order', [stop] + inner, rest);
      SiblingsAscend(order', order, path, stem, kids, list[1..]);
      SiblingsMet(order, path, stem, kids, list[1..]);
      assert stop in [stop] + inner;
      forall d | d in list[1..]
        ensures Rank(order', Under(path, e)) < Rank(order', Under(path, d))
      {
        assert Met(Under(path, d), rest);
      }
      AscendingFrom(order', path, list);
    }
  }

  lemma NoneAscend(order: map<string, nat>, path: string)
    ensures Ascending(order, path, [])
  {
  }

  lemma AscendingFrom(order: map<string, nat>, path: string, list: seq<Entry>)
    requires list != [] && Ascending(order, path, list[1..])
    requires forall d :: d in list[1..] ==> Rank(order, Under(path, list[0])) < Rank(order, Under(path, d))
    ensures Ascending(order, path, list)
  {
    hide Under, Rank;
    assert forall i :: 1 <= i < |list| ==> list[i] == list[1..][i - 1];
  }

  lemma HeadsAgree(order: map<string, nat>, path: string, a: seq<Entry>, b: seq<Entry>)
    requires Ascending(order, path, a) && Sorted(order, path, b) && multiset(a) == multiset(b) && a != [] && b != []
    ensures a[0] == b[0]
  {
    hide Under, Rank, TextLe;
    assert a[0] in multiset(b) && b[0] in multiset(a);
    var i :| 0 <= i < |b| && b[i] == a[0];
    var j :| 0 <= j < |a| && a[j] == b[0];
    assert i == 0 || KeyLe(order, path, b[0], b[i]);
  }

  lemma TailsInOrder(order: map<string, nat>, path: string, a: seq<Entry>, b: seq<Entry>)
    requires Ascending(order, path, a) && Sorted(order, path, b) && a != [] && b != []
    ensures Ascending(order, path, a[1..]) && Sorted(order, path, b[1..])
  {
    hide Under, Rank, KeyLe;
  }

  /** A list in strictly ascending order is the only arrangement of its entries. */
  lemma SameTails(a: seq<Entry>, b: seq<Entry>)
    requires a != [] && b != [] && a[0] == b[0] && multiset(a) == multiset(b)
    ensures multiset(a[1..]) == multiset(b[1..])
    ensures a[1..] == b[1..] ==> a == b
  {
    assert a == [a[0]] + a[1..] && b == [b[0]] + b[1..];
    assert multiset(a[1..]) == multiset(a) - multiset{a[0]} == multiset(b[1..]);
  }

  lemma {:induction false} OnlyArrangement(order: map<string, nat>, path: string, a: seq<Entry>, b: seq<Entry>)
    requires Ascending(order, path, a) && Sorted(order, path, b) && multiset(a) == multiset(b)
    ensures a == b
    decreases |a|
  {
    hide Ascending, Sorted;
    SameLength(a, b);
    if a != [] {
      TailsInOrder(order, path, a, b);
      HeadsAgree(order, path, a, b);
      SameTails(a, b);
      OnlyArrangement(order, path, a[1..], b[1..]);
    }
  }

  lemma SameLength(a: seq<Entry>, b: seq<Entry>)
    requires multiset(a) == multiset(b)
    ensures |a| == |b|
  {
    assert |multiset(a)| == |a| && |multiset(b)| == |b|;
  }

  lemma {:induction false} SameWalk(order: map<string, nat>, order': map<string, nat>, path: string, stem: string, kids: seq<Entry>)
    requires Rises(order', Walk(order, path, stem, kids))
    ensures Walk(order', path, stem, kids) == Walk(order, path, stem, kids)
    decreases kids, |kids| + 1
  {
    hide Rises, Sorted, Ascending;
    var list := Arranged(order, path, kids);
    SiblingsAscend(order', order, path, stem, kids, list);
    ArrangedIsSorted(order', path, kids);
    OnlyArrangement(order', path, list, Arranged(order', path, kids));
    SameWalkList(order, order', path, stem, kids, list);
  }

  lemma {:induction false} SameWalkList(order: map<string, nat>, order': map<string, nat>, path: string, stem: string,
                                        kids: seq<Entry>, list: seq<Entry>)
    requires (forall e :: e in list ==> e in kids) && Rises(order', WalkList(order, path, stem, kids, list))
    ensures WalkList(order', path, stem, kids, list) == WalkList(order, path, stem, kids, list)
    decreases kids, |list|
  {
    hide Rises, Walk, Under;
    if list != [] {
      var e, last := list[0], |list| == 1;
      assert e in list;
      assert exists j :: 0 <= j < |kids| && kids[j] == e;
      var stop := At(stem, Glyph(last), e.name, e.Dir?, Under(path, e));
      var inner := if e.Dir? then Walk(order, Under(path, e), stem + Segment(last), e.kids) else [];
      var rest := WalkList(order, path, stem, kids, list[1..]);
      assert WalkList(order, path, stem, kids, list) == [stop] + (inner + rest);
      RisesApart(order', [stop], inner + rest);
      RisesApart(order', inner, rest);
      SameWalkList(order, order', path, stem, kids, list[1..]);
      if e.Dir? {
        SameWalk(order, order', Under(path, e), stem + Segment(last), e.kids);
      }
    }
  }

  lemma {:induction false} SameStops(order: map<string, nat>, order': map<string, nat>, roots: seq<Root>)
    requires Rises(order', Stops(order, roots))
    ensures Stops(order', roots) == Stops(order, roots)
  {
    hide Rises, Walk;
    if roots != [] {
      var n := |roots| - 1;
      LastRoot(order, roots);
      LastRoot(order', roots);
      var r := roots[n];
      var above := (if n == 0 then [] else [Gap]) + [At("", "", r.path, true, r.path)];
      RisesApart(order', Stops(order, roots[..n]), RootStops(order, r, n == 0));
      RisesApart(order', above, Walk(order, r.path, "", r.kids));
      SameStops(order, order', roots[..n]);
      SameWalk(order, order', r.path, "", r.kids);
    }
  }

  // ---- every row can be told apart ----

  lemma {:induction false} WalkIsGood(order: map<string, nat>, path: string, stem: string, kids: seq<Entry>, list: seq<Entry>)
    requires (forall e :: e in list ==> e in kids) && Tidy(list) && IsStem(stem)
    ensures forall s :: s in WalkList(order, path, stem, kids, list) ==> GoodStop(s)
    decreases kids, |list|
  {
    hide Tidy, EntryName, Walk, Under, IsStem, Clean;
    if list != [] {
      var e, last := list[0], |list| == 1;
      assert e in list;
      assert exists j :: 0 <= j < |kids| && kids[j] == e;
      TidyRest(list);
      NameIsClean(e.name);
      WalkIsGood(order, path, stem, kids, list[1..]);
      if e.Dir? {
        StemDeepens(stem, Segment(last));
        WholeWalkIsGood(order, Under(path, e), stem + Segment(last), e.kids);
      }
    }
  }

  lemma {:induction false} WholeWalkIsGood(order: map<string, nat>, path: string, stem: string, kids: seq<Entry>)
    requires Tidy(kids) && IsStem(stem)
    ensures forall s :: s in Walk(order, path, stem, kids) ==> GoodStop(s)
    decreases kids, |kids| + 1
  {
    TidyArranged(order, path, kids);
    WalkIsGood(order, path, stem, kids, Arranged(order, path, kids));
  }

  lemma {:induction false} StopsAreGood(order: map<string, nat>, roots: seq<Root>)
    requires TidyRoots(roots)
    ensures forall s :: s in Stops(order, roots) ==> s.Gap? || GoodStop(s)
  {
    hide Tidy, Walk, RootName;
    if roots != [] {
      var n := |roots| - 1;
      TidyBefore(roots, n);
      StopsAreGood(order, roots[..n]);
      assert roots[n] in roots;
      WholeWalkIsGood(order, roots[n].path, "", roots[n].kids);
      LastRoot(order, roots);
    }
  }

  lemma {:induction false} RootIsDrawn(order: map<string, nat>, roots: seq<Root>, r: Root)
    requires r in roots
    ensures At("", "", r.path, true, r.path) in Stops(order, roots)
  {
    hide Walk;
    var n := |roots| - 1;
    LastRoot(order, roots);
    if r != roots[n] {
      assert r in roots[..n];
      RootIsDrawn(order, roots[..n], r);
    }
  }

  // ---- the notes that are read are trimmed, and fit their column ----

  lemma ItemIsTrim(raw: string, word: char -> bool)
    ensures ReadLine(raw, word).Some? ==> Trim(ReadLine(raw, word).value.note)
  {
    hide Strip, Lstrip, DoubleSpace, DropSlashes, Branch, Rootish;
    var line := Rstrip(raw);
    var rest := if Branch(line).Some? then Branch(line).value.1 else line;
    var s := Strip(rest);
    if DoubleSpace(s).Some? {
      StripIsTrim(Lstrip(s[DoubleSpace(s).value..]));
    }
  }

  lemma {:induction false} ReadNotesAreTrim(stack: seq<string>, lines: seq<string>, word: char -> bool)
    ensures TrimNotes(NotesOf(Pairs(stack, lines, word)))
  {
    hide ReadLine, Join, Pushed, StackAfter;
    if lines != [] {
      var n := |lines| - 1;
      ReadNotesAreTrim(stack, lines[..n], word);
      ItemIsTrim(lines[n], word);
      var item := ReadLine(lines[n], word);
      if item.Some? {
        PairsGrow(Pairs(stack, lines[..n], word), Pair(Join(Pushed(StackAfter(stack, lines[..n], word), item.value)), item.value.note));
      }
    }
  }

  function Width(stops: seq<Stop>, notes: map<string, string>): nat {
    Widest(Rows(stops, notes)) + 2
  }

  lemma AllFitWidth(stops: seq<Stop>, notes: map<string, string>)
    ensures AllFit(stops, notes, Width(stops, notes))
  {
    hide Widest;
    var rows := Rows(stops, notes);
    forall s | s in stops
      ensures Fits(s, notes, Width(stops, notes))
    {
      var i :| 0 <= i < |stops| && stops[i] == s;
      assert rows[i] == Row(Label(s), StopNote(s, notes));
    }
  }

  // ---- counting notes ----

  function NotedPairs(pairs: seq<Pair>): nat {
    if pairs == [] then 0 else NotedPairs(pairs[..|pairs| - 1]) + if pairs[|pairs| - 1].note != "" then 1 else 0
  }

  function NotedStops(stops: seq<Stop>, notes: map<string, string>): nat {
    if stops == [] then 0
    else NotedStops(stops[..|stops| - 1], notes) + if StopNote(stops[|stops| - 1], notes) != "" then 1 else 0
  }

  function NotedLines(lines: seq<string>): nat {
    if lines == [] then 0
    else NotedLines(lines[..|lines| - 1]) + if Fields(lines[|lines| - 1]).note != "" then 1 else 0
  }

  lemma {:induction false} NotesAreNoted(pairs: seq<Pair>)
    ensures |NotesOf(pairs)| <= NotedPairs(pairs)
  {
    if pairs != [] {
      NotesAreNoted(pairs[..|pairs| - 1]);
      var notes, last := NotesOf(pairs[..|pairs| - 1]), pairs[|pairs| - 1];
      assert |notes[last.key := last.note]| <= |notes| + 1;
    }
  }

  ghost function NotedKeys(stops: seq<Stop>, notes: map<string, string>): set<string> {
    set s | s in stops && s.At? && NoteAt(notes, s.key) != "" :: s.key
  }

  lemma {:induction false} NotedOnce(stops: seq<Stop>, notes: map<string, string>)
    requires KeysDistinct(stops)
    ensures |NotedKeys(stops, notes)| == NotedStops(stops, notes)
  {
    if stops != [] {
      var front, s := stops[..|stops| - 1], stops[|stops| - 1];
      assert stops == front + [s];
      NotedOnce(front, notes);
      if StopNote(s, notes) != "" {
        NewNotedKey(front, s, notes);
      } else {
        assert NotedKeys(stops, notes) == NotedKeys(front, notes);
      }
    } else {
      assert NotedKeys(stops, notes) == {};
    }
  }

  lemma NewNotedKey(front: seq<Stop>, s: Stop, notes: map<string, string>)
    requires KeysDistinct(front + [s]) && StopNote(s, notes) != ""
    ensures NotedKeys(front + [s], notes) == NotedKeys(front, notes) + {s.key} && s.key !in NotedKeys(front, notes)
  {
    assert OnlyThese(NotedKeys(front, notes), front);
    FreshKey(NotedKeys(front, notes), front, s);
  }

  lemma {:induction false} NotedWithin(stops: seq<Stop>, notes: map<string, string>)
    requires KeysDistinct(stops)
    ensures NotedStops(stops, notes) <= |notes|
  {
    NotedOnce(stops, notes);
    assert NotedKeys(stops, notes) <= notes.Keys;
    Parents.Subset(NotedKeys(stops, notes), notes.Keys);
  }

  /** The text alone tells how many notes were drawn. */
  lemma {:induction false} LinesTellNotes(stops: seq<Stop>, notes: map<string, string>, width: nat, word: char -> bool)
    requires (forall s :: s in stops ==> s.Gap? || GoodStop(s)) && AllFit(stops, notes, width)
    requires TrimNotes(notes) && (forall c :: IsSpace(c) ==> !word(c))
    ensures NotedLines(Lines(stops, notes, width)) == NotedStops(stops, notes)
  {
    hide GoodStop, Fields, Line, StopNote, IsSpace;
    var lines := Lines(stops, notes, width);
    if stops != [] {
      var n := |stops| - 1;
      assert lines[..n] == Lines(stops[..n], notes, width);
      LinesTellNotes(stops[..n], notes, width, word);
      assert stops[n] in stops;
      LineTellsNote(stops[n], notes, width, word);
    }
  }

  lemma LineTellsNote(s: Stop, notes: map<string, string>, width: nat, word: char -> bool)
    requires s.Gap? || GoodStop(s)
    requires Fits(s, notes, width) && TrimNotes(notes) && (forall c :: IsSpace(c) ==> !word(c))
    ensures Fields(Line(s, notes, width)).note == StopNote(s, notes)
    ensures ReadLine(Line(s, notes, width), word).Some? ==>
      ReadLine(Line(s, notes, width), word).value.note == StopNote(s, notes)
  {
    hide Fields, ReadLine, GoodStop, DrawLine, IsSpace;
    if s.Gap? {
      BlankTellsNothing(width);
      FenceIsSkipped(word);
    } else {
      StopReadsBack(s, notes, width, word);
    }
  }

  lemma BlankTellsNothing(width: nat)
    ensures DrawLine("", "", width) == "" && Fields("").note == ""
  {
    hide Branch, NameAndNote, Ljust, Rstrip;
    BlankIsPlain();
    BlankHasNoNote();
  }

  lemma BlankIsPlain()
    ensures Branch("") == None
  {
  }

  lemma BlankHasNoNote()
    ensures NameAndNote("").1 == ""
  {
    assert Lstrip("") == "" && Strip("") == "";
  }

  lemma {:induction false} NotedPairsRead(stack: seq<string>, stops: seq<Stop>, notes: map<string, string>, width: nat, word: char -> bool)
    requires (forall s :: s in stops ==> s.Gap? || GoodStop(s)) && AllFit(stops, notes, width)
    requires TrimNotes(notes) && (forall c :: IsSpace(c) ==> !word(c))
    ensures var read := NotedPairs(Pairs(stack, Lines(stops, notes, width), word));
            && read <= NotedStops(stops, notes)
            && ((exists s :: s in stops && s.At? && s.glyph == "" && !Readable(StopNote(s, notes))) ==> read < NotedStops(stops, notes))
  {
    hide GoodStop, Fields, Line, StopNote, IsSpace, ReadLine, Join, Pushed, StackAfter, Readable;
    if stops != [] {
      var n := |stops| - 1;
      var lines := Lines(stops, notes, width);
      assert lines[..n] == Lines(stops[..n], notes, width);
      assert stops[n] in stops && stops == stops[..n] + [stops[n]];
      NotedPairsRead(stack, stops[..n], notes, width, word);
      LineTellsNote(stops[n], notes, width, word);
      UnreadLine(stops[n], notes, width, word);
      assert lines[n] == Line(stops[n], notes, width);
      OnePairMore(stack, lines, word);
    }
  }

  lemma {:induction false} OnePairMore(stack: seq<string>, lines: seq<string>, word: char -> bool)
    requires lines != []
    ensures var n := |lines| - 1;
            var item := ReadLine(lines[n], word);
            NotedPairs(Pairs(stack, lines, word))
            == NotedPairs(Pairs(stack, lines[..n], word)) + if item.Some? && item.value.note != "" then 1 else 0
  {
    hide ReadLine, Join, Pushed, StackAfter;
    var n := |lines| - 1;
    var before := Pairs(stack, lines[..n], word);
    var item := ReadLine(lines[n], word);
    if item.Some? {
      var p := Pair(Join(Pushed(StackAfter(stack, lines[..n], word), item.value)), item.value.note);
      assert (before + [p])[..|before|] == before;
    }
  }

  lemma UnreadLine(s: Stop, notes: map<string, string>, width: nat, word: char -> bool)
    requires s.Gap? || GoodStop(s)
    requires Fits(s, notes, width) && TrimNotes(notes) && (forall c :: IsSpace(c) ==> !word(c))
    ensures s.At? && s.glyph == "" && !Readable(StopNote(s, notes)) ==>
      ReadLine(Line(s, notes, width), word).None? && StopNote(s, notes) != ""
  {
    if s.At? {
      StopReadsBack(s, notes, width, word);
    }
  }

  // ---- drawing over a drawing ----

  /** What the first drawing is: its rows, and the width of their column. */
  lemma DrawnLines(stops: seq<Stop>, notes: map<string, string>)
    ensures DocTree.Drawn(Rows(stops, notes)) == ["```"] + Lines(stops, notes, Width(stops, notes)) + ["```"]
  {
  }

  lemma SameRows(stops: seq<Stop>, notes: map<string, string>, notes': map<string, string>)
    requires SameNotes(notes, notes', stops)
    ensures Rows(stops, notes') == Rows(stops, notes)
  {
    assert forall i :: 0 <= i < |stops| ==> stops[i] in stops;
  }

  /** Every root's note, as it is read, is one that a root's line can carry. */
  ghost predicate RootNotesReadable(notes: map<string, string>, roots: seq<Root>) {
    forall r :: r in roots ==> Readable(NoteAt(notes, r.path))
  }

  /** Readable root notes: the drawing reads back as its own order and notes, and is drawn the same. */
  lemma {:induction false} RedrawnTheSame(order: map<string, nat>, notes: map<string, string>, roots: seq<Root>, word: char -> bool)
    requires TidyRoots(roots) && TrimNotes(notes) && (forall c :: IsSpace(c) ==> !word(c))
    requires RootNotesReadable(notes, roots)
    ensures var first := DocTree.Drawn(Rows(Stops(order, roots), notes));
            Redrawn(first, roots, word) == first
  {
    hide Rows, Stops, Pairs, PairsOf, Lines, Width, KeysDistinct, Rises, SameNotes, TrimNotes, IsSpace, TidyRoots, AllFit;
    var stops := Stops(order, roots);
    var width := Width(stops, notes);
    DrawnLines(stops, notes);
    AllFitWidth(stops, notes);
    FencesAreSkipped(Lines(stops, notes, width), word);
    StopsReadBack(order, roots, notes, width, word);
    StopsDistinct(order, roots);
    OrderIsKept(stops, notes);
    NotesAreKept(stops, notes);
    SameStops(order, OrderOf(PairsOf(stops, notes)), roots);
    SameRows(stops, notes, NotesOf(PairsOf(stops, notes)));
  }

  /** A root note that cannot be read: at least one note fewer is drawn the second time. */
  lemma {:induction false} RedrawnWithFewerNotes(order: map<string, nat>, notes: map<string, string>, roots: seq<Root>, word: char -> bool)
    requires TidyRoots(roots) && TrimNotes(notes) && (forall c :: IsSpace(c) ==> !word(c))
    requires !RootNotesReadable(notes, roots)
    ensures var first := DocTree.Drawn(Rows(Stops(order, roots), notes));
            var read := Pairs([], first, word);
            && NotedStops(Stops(OrderOf(read), roots), NotesOf(read)) < NotedStops(Stops(order, roots), notes)
            && Redrawn(first, roots, word) != first
  {
    hide Rows, Stops, Pairs, Lines, Width, KeysDistinct, TrimNotes, IsSpace, TidyRoots, AllFit, NotesOf, OrderOf,
      NotedStops, NotedPairs, NotedLines, GoodStop, Readable, NoteAt;
    var stops := Stops(order, roots);
    var width := Width(stops, notes);
    var lines := Lines(stops, notes, width);
    DrawnLines(stops, notes);
    AllFitWidth(stops, notes);
    StopsAreGood(order, roots);
    FencesAreSkipped(lines, word);
    var r :| r in roots && !Readable(NoteAt(notes, r.path));
    RootIsDrawn(order, roots, r);
    NotedPairsRead([], stops, notes, width, word);
    var read := Pairs([], lines, word);
    NotesAreNoted(read);
    var stops', notes' := Stops(OrderOf(read), roots), NotesOf(read);
    StopsDistinct(OrderOf(read), roots);
    NotedWithin(stops', notes');
    ReadNotesAreTrim([], lines, word);
    FewerNotesShow(order, OrderOf(read), notes, notes', roots, word);
  }

  lemma {:induction false} FewerNotesShow(order: map<string, nat>, order': map<string, nat>, notes: map<string, string>, notes': map<string, string>,
                       roots: seq<Root>, word: char -> bool)
    requires TidyRoots(roots) && TrimNotes(notes) && TrimNotes(notes') && (forall c :: IsSpace(c) ==> !word(c))
    requires NotedStops(Stops(order', roots), notes') < NotedStops(Stops(order, roots), notes)
    ensures DocTree.Drawn(Rows(Stops(order', roots), notes')) != DocTree.Drawn(Rows(Stops(order, roots), notes))
  {
    hide Rows, Stops, Lines, Width, TrimNotes, IsSpace, TidyRoots, AllFit, NotedStops, NotedLines, GoodStop;
    var a, b := Stops(order, roots), Stops(order', roots);
    StopsAreGood(order, roots);
    StopsAreGood(order', roots);
    DrawnLines(a, notes);
    DrawnLines(b, notes');
    AllFitWidth(a, notes);
    AllFitWidth(b, notes');
    LinesTellNotes(a, notes, Width(a, notes), word);
    LinesTellNotes(b, notes', Width(b, notes'), word);
    FencedTheSame(Lines(a, notes, Width(a, notes)), Lines(b, notes', Width(b, notes')));
  }

  lemma FencedTheSame(a: seq<string>, b: seq<string>)
    ensures ["```"] + a + ["```"] == ["```"] + b + ["```"] ==> a == b
  {
    var fa, fb := ["```"] + a + ["```"], ["```"] + b + ["```"];
    assert fa[1..|fa| - 1] == a && fb[1..|fb| - 1] == b;
  }

  /** Regenerating a generated tree changes nothing if and only if every root's note, as read from the
      text there was before, is empty or ends in a slash: any other root line is passed over by the parser. */
  lemma {:induction false} RegeneratingIsStable(existing: seq<string>, roots: seq<Root>, word: char -> bool)
    requires TidyRoots(roots) && (forall c :: IsSpace(c) ==> !word(c))
    ensures var first := Redrawn(existing, roots, word);
            Redrawn(first, roots, word) == first
            <==> forall r :: r in roots ==> Readable(NoteAt(NotesOf(Pairs([], existing, word)), r.path))
  {
    hide Pairs, Rows, Stops, TrimNotes, IsSpace, TidyRoots, NoteAt, Readable, NotedStops, NotesOf, OrderOf;
    var pairs := Pairs([], existing, word);
    ReadNotesAreTrim([], existing, word);
    if RootNotesReadable(NotesOf(pairs), roots) {
      RedrawnTheSame(OrderOf(pairs), NotesOf(pairs), roots, word);
    } else {
      RedrawnWithFewerNotes(OrderOf(pairs), NotesOf(pairs), roots, word);
    }
  }

  const SRC := "crates/ubiq/src"

  /** One file in a root of the code map. */
  function OneFile(): seq<Root> {
    [Root(SRC, [File("app.rs")])]
  }

  /** A note typed beside a root, as the block would be drawn with it, is passed over together with the
      root's line. The entries under it then hang under nothing, so their notes are lost too. */
  lemma RootNoteIsLost(word: char -> bool)
    requires forall c :: IsSpace(c) ==> !word(c)
    ensures var notes := map[SRC := "The interface", Under(SRC, File("app.rs")) := "Entry point"];
            var typed := ["```", SRC + "/" + Spaces(2) + "The interface", ELBOW + "app.rs" + Spaces(8) + "Entry point", "```"];
            && typed == Drawn(Rows(Stops(map[], OneFile()), notes))
            && NotesOf(Pairs([], typed, word)) == map["app.rs" := "Entry point"]
            && Redrawn(typed, OneFile(), word) == ["```", SRC + "/", ELBOW + "app.rs", "```"]
  {
    hide Pairs, NotesOf, Stops, Rows, IsSpace, DrawLine, Widest;
    var notes := map[SRC := "The interface", Under(SRC, File("app.rs")) := "Entry point"];
    var first, second := SRC + "/" + Spaces(2) + "The interface", ELBOW + "app.rs" + Spaces(8) + "Entry point";
    var typed := ["```", first, second, "```"];
    TypedLines();
    OneFileRows(map[], notes);
    WidestOfTwo(SRC + "/", "The interface", ELBOW + "app.rs", "Entry point");
    assert ["```"] + [first, second] + ["```"] == typed;
    FencesAreSkipped([first, second], word);
    TypedIsRead(word);
    OneNote("app.rs", "Entry point");
    var pairs := Pairs([], typed, word);
    var rest := NotesOf(pairs);
    assert SRC !in rest && Under(SRC, File("app.rs")) !in rest;
    OneFileRows(OrderOf(pairs), rest);
    NoNoteNoColumn(SRC + "/", Widest([Row(SRC + "/", ""), Row(ELBOW + "app.rs", "")]) + 2);
    NoNoteNoColumn(ELBOW + "app.rs", Widest([Row(SRC + "/", ""), Row(ELBOW + "app.rs", "")]) + 2);
  }

  lemma NoNoteNoColumn(text: string, width: nat)
    ensures DrawLine(text, "", width) == text
  {
  }

  lemma WidestOfTwo(a: string, n: string, b: string, m: string)
    requires n != "" && m != "" && |b| <= |a|
    ensures Widest([Row(a, n), Row(b, m)]) == |a|
  {
    assert [Row(a, n), Row(b, m)][0] == Row(a, n);
  }

  lemma TypedLine(text: string, note: string, pad: nat)
    requires note != "" && Trim(note)
    ensures DrawLine(text, note, |text| + pad) == text + Spaces(pad) + note
  {
    var line := text + Spaces(pad) + note;
    assert line[|line| - 1] == note[|note| - 1];
  }

  lemma TypedLines()
    ensures DrawLine(SRC + "/", "The interface", 18) == SRC + "/" + Spaces(2) + "The interface"
    ensures DrawLine(ELBOW + "app.rs", "Entry point", 18) == ELBOW + "app.rs" + Spaces(8) + "Entry point"
  {
    hide DrawLine, Spaces;
    NamesAreClean();
    TypedLine(SRC + "/", "The interface", 2);
    TypedLine(ELBOW + "app.rs", "Entry point", 8);
  }

  lemma {:induction false} OneFileRows(order: map<string, nat>, notes: map<string, string>)
    ensures Rows(Stops(order, OneFile()), notes)
      == [Row(SRC + "/", NoteAt(notes, SRC)), Row(ELBOW + "app.rs", NoteAt(notes, Under(SRC, File("app.rs"))))]
  {
    hide NoteAt, Walk;
    OneFileWalk(order);
    assert OneFile()[..0] == [];
    assert Stops(order, OneFile()[..0]) == [];
    assert "" + "" + SRC + "/" == SRC + "/" && "" + ELBOW + "app.rs" + "" == ELBOW + "app.rs";
    assert Stops(order, OneFile()) == [At("", "", SRC, true, SRC), At("", ELBOW, "app.rs", false, Under(SRC, File("app.rs")))];
  }

  lemma {:induction false} OneFileWalk(order: map<string, nat>)
    ensures Walk(order, SRC, "", [File("app.rs")]) == [At("", ELBOW, "app.rs", false, Under(SRC, File("app.rs")))]
  {
    hide Under;
    var kids := [File("app.rs")];
    assert kids[..0] == [];
    assert Arranged(order, SRC, kids) == kids;
    assert kids[1..] == [];
  }

  lemma TypedIsRead(word: char -> bool)
    requires forall c :: IsSpace(c) ==> !word(c)
    ensures Pairs([], [SRC + "/" + Spaces(2) + "The interface", ELBOW + "app.rs" + Spaces(8) + "Entry point"], word) == [Pair("app.rs", "Entry point")]
  {
    hide DrawLine, ReadLine, Fields, IsSpace, DoubleSpace, Join, Pushed;
    var first, second := SRC + "/" + Spaces(2) + "The interface", ELBOW + "app.rs" + Spaces(8) + "Entry point";
    TypedLines();
    NamesAreClean();
    RootReadsBack(SRC, "The interface", 18, word);
    assert "" + ELBOW + "app.rs" + "" == ELBOW + "app.rs";
    EntryReadsBack("", ELBOW, "app.rs", false, "Entry point", 18, word);
    PairsAppend([], [first], [second], word);
    assert [first] + [second] == [first, second];
    OnePair([], first, word);
    OnePair([], second, word);
    TopOfStack("app.rs", "Entry point");
  }

  lemma NamesAreClean()
    ensures RootName(SRC) && RootName("crates") && Clean("app.rs") && Clean("ubiq") && Clean("src")
    ensures Trim("The interface") && Trim("Entry point")
    ensures !EndsWith("The interface", '/')
  {
    hide Clean, DoubleSpace;
    SolidIsClean(SRC);
    SolidIsClean("crates");
    SolidIsClean("app.rs");
    SolidIsClean("ubiq");
    SolidIsClean("src");
  }

  /** A name without any whitespace. */
  lemma SolidIsClean(name: string)
    requires name != "" && forall c :: c in name ==> !IsSpace(c)
    ensures Clean(name)
  {
    hide IsSpace;
    forall k | 0 <= k < |name|
      ensures !IsSpace(name[k])
    {
      assert name[k] in name;
    }
  }

  lemma TopOfStack(name: string, note: string)
    requires name != ""
    ensures Join(Pushed([], Item(1, name, note))) == name
  {
    assert Pushed([], Item(1, name, note)) == ["", name];
    assert ["", name][..1] == [""] && [""][..0] == [];
  }

  lemma OneNote(key: string, note: string)
    requires note != ""
    ensures NotesOf([Pair(key, note)]) == map[key := note]
  {
    PairsGrow([], Pair(key, note));
    assert [] + [Pair(key, note)] == [Pair(key, note)];
  }

  /** A tree drawn when `crates` was the one root gives a root of today a note: it is drawn beside the
      root once, and lost the next time. */
  lemma OlderTreeIsNotStable(word: char -> bool)
    requires forall c :: IsSpace(c) ==> !word(c)
    ensures var older := ["crates/", ELBOW + "ubiq/", BLANK + ELBOW + "src/" + Spaces(2) + "The interface"];
            var first := Redrawn(older, OneFile(), word);
            && NoteAt(NotesOf(Pairs([], older, word)), SRC) == "The interface"
            && Redrawn(first, OneFile(), word) != first
  {
    hide Redrawn, Pairs, NotesOf, TidyRoots, IsSpace;
    var older := ["crates/", ELBOW + "ubiq/", BLANK + ELBOW + "src/" + Spaces(2) + "The interface"];
    OlderIsRead(word);
    OneFileIsTidy();
    RegeneratingIsStable(older, OneFile(), word);
    NamesAreClean();
    assert OneFile()[0] in OneFile();
  }

  lemma OneFileIsTidy()
    ensures TidyRoots(OneFile())
  {
    hide Clean, RootName;
    NamesAreClean();
  }

  lemma OlderIsRead(word: char -> bool)
    requires forall c :: IsSpace(c) ==> !word(c)
    ensures NoteAt(NotesOf(Pairs([], ["crates/", ELBOW + "ubiq/", BLANK + ELBOW + "src/" + Spaces(2) + "The interface"], word)), SRC) == "The interface"
  {
    hide DrawLine, ReadLine, Fields, IsSpace, DoubleSpace, Join, Pushed, IsStem, IsGlyph;
    var a, b, c := "crates/", ELBOW + "ubiq/", BLANK + ELBOW + "src/" + Spaces(2) + "The interface";
    NamesAreClean();
    OlderLines();
    RootReadsBack("crates", "", 0, word);
    EntryReadsBack("", ELBOW, "ubiq", true, "", 0, word);
    EntryReadsBack(BLANK, ELBOW, "src", true, "The interface", 14, word);
    PairsAppend([], [a, b], [c], word);
    assert [a, b] + [c] == [a, b, c];
    PairsAppend([], [a], [b], word);
    assert [a] + [b] == [a, b];
    OnePair([], a, word);
    OlderStack();
    OnePair(["crates"], b, word);
    OnePair(["crates", "ubiq"], c, word);
    PairsGrow(Pairs([], [a, b], word), Pair(SRC, "The interface"));
  }

  lemma OlderLines()
    ensures DrawLine("crates" + "/", "", 0) == "crates/" && "crates" + "/" == "crates/"
    ensures "" + ELBOW + "ubiq" + "/" == ELBOW + "ubiq/" && DrawLine(ELBOW + "ubiq/", "", 0) == ELBOW + "ubiq/"
    ensures BLANK + ELBOW + "src" + "/" == BLANK + ELBOW + "src/"
    ensures DrawLine(BLANK + ELBOW + "src/", "The interface", 14) == BLANK + ELBOW + "src/" + Spaces(2) + "The interface"
    ensures IsStem("") && IsStem(BLANK) && IsGlyph(ELBOW) && |BLANK| / 4 == 1
  {
    hide Spaces;
    TypedLine(BLANK + ELBOW + "src/", "The interface", 2);
    assert BLANK[..4] == BLANK && BLANK[4..] == "";
  }

  lemma OlderStack()
    ensures Pushed([], Item(0, "crates", "")) == ["crates"]
    ensures Pushed(["crates"], Item(1, "ubiq", "")) == ["crates", "ubiq"]
    ensures Pushed(["crates", "ubiq"], Item(2, "src", "The interface")) == ["crates", "ubiq", "src"]
    ensures Join(["crates", "ubiq", "src"]) == SRC
  {
    var inner, outer := ["crates", "ubiq"], ["crates"];
    assert outer[..0] == [] && inner[..1] == outer && ["crates", "ubiq", "src"][..2] == inner;
    assert Join(outer) == "crates";
    JoinPushed(outer, Item(1, "ubiq", ""), "crates");
    JoinPushed(inner, Item(2, "src", ""), "crates" + "/" + "ubiq");
    SrcIsNested();
  }

  lemma SrcIsNested()
    ensures "crates" + "/" + "ubiq" + "/" + "src" == SRC
  {
  }
}
