/** The drawn file tree of the code map: reading the notes and order out of it, and drawing it again. */
module DocTree {
  import opened DocLines
  import opened Markers
  import opened Options

  // ---- reading ----

  /** A path that a line names, and the note beside it. */
  datatype Pair = Pair(key: string, note: string)

  /** The parts that are not empty, with slashes between. */
  function Join(stack: seq<string>): string {
    if stack == [] then ""
    else
      var front, last := Join(stack[..|stack| - 1]), stack[|stack| - 1];
      if last == "" then front else if front == "" then last else front + "/" + last
  }

  /** The stack once an item is on it: cut or padded to the item's level, the name on top. */
  function Pushed(stack: seq<string>, item: Item): (r: seq<string>)
    ensures |r| == item.level + 1 && r[item.level] == item.name
    ensures |stack| >= item.level ==> r[..item.level] == stack[..item.level]
  {
    (if |stack| >= item.level then stack[..item.level] else stack + seq(item.level - |stack|, _ => "")) + [item.name]
  }

  function StackAfter(stack: seq<string>, lines: seq<string>, word: char -> bool): seq<string> {
    if lines == [] then stack
    else
      var s, item := StackAfter(stack, lines[..|lines| - 1], word), ReadLine(lines[|lines| - 1], word);
      if item.None? then s else Pushed(s, item.value)
  }

  /** What every line that is not passed over names, in order. */
  function Pairs(stack: seq<string>, lines: seq<string>, word: char -> bool): seq<Pair> {
    if lines == [] then []
    else
      var before := lines[..|lines| - 1];
      var item := ReadLine(lines[|lines| - 1], word);
      if item.None? then Pairs(stack, before, word)
      else Pairs(stack, before, word) + [Pair(Join(Pushed(StackAfter(stack, before, word), item.value)), item.value.note)]
  }

  /** The last note given to each path. */
  function NotesOf(pairs: seq<Pair>): map<string, string> {
    if pairs == [] then map[]
    else
      var notes, last := NotesOf(pairs[..|pairs| - 1]), pairs[|pairs| - 1];
      if last.note != "" then notes[last.key := last.note] else notes
  }

  /** The place of each path by its first line. */
  function OrderOf(pairs: seq<Pair>): map<string, nat> {
    if pairs == [] then map[]
    else
      var order, last := OrderOf(pairs[..|pairs| - 1]), pairs[|pairs| - 1];
      if last.key in order then order else order[last.key := |order|]
  }

  /** Cuts or pads the stack to the item's level, and puts the name on it. */
  method Push(stack: seq<string>, item: Item) returns (r: seq<string>)
    ensures r == Pushed(stack, item)
  {
    r := if |stack| > item.level then stack[..item.level] else stack;
    ghost var cut := r;
    while |r| < item.level
      invariant |r| <= item.level && cut <= r
      invariant forall i :: |cut| <= i < |r| ==> r[i] == ""
    {
      r := r + [""];
    }
    r := r + [item.name];
  }

  method ParseTree(block: seq<string>, word: char -> bool) returns (notes: map<string, string>, order: map<string, nat>)
    ensures notes == NotesOf(Pairs([], block, word))
    ensures order == OrderOf(Pairs([], block, word))
  {
    hide Join, Pushed, ReadLine;
    notes, order := map[], map[];
    var stack: seq<string> := [];
    for i := 0 to |block|
      invariant stack == StackAfter([], block[..i], word)
      invariant notes == NotesOf(Pairs([], block[..i], word)) && order == OrderOf(Pairs([], block[..i], word))
    {
      assert block[..i + 1][..i] == block[..i] && block[..i + 1][i] == block[i];
      var item := ReadLine(block[i], word);
      if item.None? {
        continue;
      }
      stack := Push(stack, item.value);
      var key := Join(stack);
      PairsGrow(Pairs([], block[..i], word), Pair(key, item.value.note));
      order := if key in order then order else order[key := |order|];
      if item.value.note != "" {
        notes := notes[key := item.value.note];
      }
    }
    assert block[..|block|] == block;
  }

  lemma {:induction false} PairsGrow(pairs: seq<Pair>, last: Pair)
    ensures NotesOf(pairs + [last]) == if last.note != "" then NotesOf(pairs)[last.key := last.note] else NotesOf(pairs)
    ensures OrderOf(pairs + [last])
            == if last.key in OrderOf(pairs) then OrderOf(pairs) else OrderOf(pairs)[last.key := |OrderOf(pairs)|]
  {
    assert (pairs + [last])[..|pairs|] == pairs;
  }

  function NoteAt(notes: map<string, string>, key: string): string {
    if key in notes then notes[key] else ""
  }

  /** A path without a place of its own comes after all that have one. */
  function Rank(order: map<string, nat>, key: string): nat {
    if key in order then order[key] else |order|
  }

  // ---- the tree and its arrangement ----

  datatype Entry = File(name: string) | Dir(name: string, kids: seq<Entry>)

  /** A root that exists, and what is in it. */
  datatype Root = Root(path: string, kids: seq<Entry>)

  function Under(path: string, e: Entry): string {
    path + "/" + e.name
  }

  /** The order in which text sorts: character by character, a prefix before what extends it. */
  predicate TextLe(a: string, b: string) {
    a == "" || (b != "" && (a[0] < b[0] || (a[0] == b[0] && TextLe(a[1..], b[1..]))))
  }

  lemma {:induction false} TextTotal(a: string, b: string)
    ensures TextLe(a, b) || TextLe(b, a)
  {
    if a != "" && b != "" {
      TextTotal(a[1..], b[1..]);
    }
  }

  lemma {:induction false} TextTransitive(a: string, b: string, c: string)
    requires TextLe(a, b) && TextLe(b, c)
    ensures TextLe(a, c)
  {
    if a != "" && a[0] == b[0] == c[0] {
      TextTransitive(a[1..], b[1..], c[1..]);
    }
  }

  /** The key children are sorted by: their place, then directories first, then their path. */
  predicate KeyLe(order: map<string, nat>, path: string, a: Entry, b: Entry) {
    var ra, rb := Rank(order, Under(path, a)), Rank(order, Under(path, b));
    || ra < rb
    || (ra == rb && ((a.Dir? && b.File?) || (a.Dir? == b.Dir? && TextLe(Under(path, a), Under(path, b)))))
  }

  lemma KeyIsOrder(order: map<string, nat>, path: string, a: Entry, b: Entry, c: Entry)
    ensures KeyLe(order, path, a, b) || KeyLe(order, path, b, a)
    ensures KeyLe(order, path, a, b) && KeyLe(order, path, b, c) ==> KeyLe(order, path, a, c)
  {
    TextTotal(Under(path, a), Under(path, b));
    if TextLe(Under(path, a), Under(path, b)) && TextLe(Under(path, b), Under(path, c)) {
      TextTransitive(Under(path, a), Under(path, b), Under(path, c));
    }
  }

  ghost predicate Sorted(order: map<string, nat>, path: string, s: seq<Entry>) {
    forall i, j :: 0 <= i < j < |s| ==> KeyLe(order, path, s[i], s[j])
  }

  function Insert(order: map<string, nat>, path: string, s: seq<Entry>, e: Entry): (r: seq<Entry>)
    ensures multiset(r) == multiset(s) + multiset{e} && |r| == |s| + 1
    ensures forall x :: x in r <==> x in s || x == e
  {
    if s == [] || KeyLe(order, path, s[|s| - 1], e) then s + [e]
    else
      assert s == s[..|s| - 1] + [s[|s| - 1]];
      Insert(order, path, s[..|s| - 1], e) + [s[|s| - 1]]
  }

  lemma SortedFront(order: map<string, nat>, path: string, s: seq<Entry>)
    requires Sorted(order, path, s) && s != []
    ensures Sorted(order, path, s[..|s| - 1])
    ensures forall i :: 0 <= i < |s| - 1 ==> KeyLe(order, path, s[i], s[|s| - 1])
  {
  }

  lemma SortedMore(order: map<string, nat>, path: string, s: seq<Entry>, e: Entry)
    requires Sorted(order, path, s) && forall i :: 0 <= i < |s| ==> KeyLe(order, path, s[i], e)
    ensures Sorted(order, path, s + [e])
  {
  }

  lemma {:induction false} InsertSorts(order: map<string, nat>, path: string, s: seq<Entry>, e: Entry)
    requires Sorted(order, path, s)
    ensures Sorted(order, path, Insert(order, path, s, e))
  {
    hide KeyLe, Sorted;
    if s == [] {
      SortedMore(order, path, s, e);
    } else {
      SortedFront(order, path, s);
      var n := |s| - 1;
      var last := s[n];
      if KeyLe(order, path, last, e) {
        forall i | 0 <= i <= n
          ensures KeyLe(order, path, s[i], e)
        {
          KeyIsOrder(order, path, s[i], last, e);
        }
        SortedMore(order, path, s, e);
      } else {
        KeyIsOrder(order, path, last, e, e);
        InsertSorts(order, path, s[..n], e);
        var front := Insert(order, path, s[..n], e);
        forall i | 0 <= i < |front|
          ensures KeyLe(order, path, front[i], last)
        {
          assert front[i] in front;
        }
        SortedMore(order, path, front, last);
      }
    }
  }

  /** The children of a directory in the order they are drawn. */
  function Arranged(order: map<string, nat>, path: string, kids: seq<Entry>): (r: seq<Entry>)
    ensures |r| == |kids| && multiset(r) == multiset(kids) && forall e :: e in r <==> e in kids
  {
    if kids == [] then []
    else
      assert kids == kids[..|kids| - 1] + [kids[|kids| - 1]];
      Insert(order, path, Arranged(order, path, kids[..|kids| - 1]), kids[|kids| - 1])
  }

  lemma {:induction false} ArrangedIsSorted(order: map<string, nat>, path: string, kids: seq<Entry>)
    ensures Sorted(order, path, Arranged(order, path, kids))
  {
    if kids != [] {
      ArrangedIsSorted(order, path, kids[..|kids| - 1]);
      InsertSorts(order, path, Arranged(order, path, kids[..|kids| - 1]), kids[|kids| - 1]);
    }
  }

  /** Text sorts by the first character in which it differs, and a prefix before what extends it. */
  lemma {:induction false} TextSorts(a: string, b: string)
    ensures TextLe(a, b) <==> a <= b || exists k :: 0 <= k < |a| && k < |b| && a[..k] == b[..k] && a[k] < b[k]
  {
    if a != "" && b != "" {
      TextSorts(a[1..], b[1..]);
      if TextLe(a, b) && a[0] == b[0] && !(a[1..] <= b[1..]) {
        var k :| 0 <= k < |a| - 1 && k < |b| - 1 && a[1..][..k] == b[1..][..k] && a[1..][k] < b[1..][k];
        assert a[..k + 1] == [a[0]] + a[1..][..k] && b[..k + 1] == [b[0]] + b[1..][..k];
      }
      if a <= b {
        assert a[0] == b[0] && a[1..] <= b[1..];
      } else if k :| 0 <= k < |a| && k < |b| && a[..k] == b[..k] && a[k] < b[k] {
        if k > 0 {
          assert a[0] == a[..k][0] == b[..k][0] == b[0];
          assert a[1..][..k - 1] == a[..k][1..] == b[..k][1..] == b[1..][..k - 1];
        } else {
          assert TextLe(a, b);
        }
      }
    } else if a != "" {
      assert b == "";
    }
  }

  /** Children are drawn by their place; where that is the same, directories before files, and each by path. */
  lemma {:induction false} ArrangedReads(order: map<string, nat>, path: string, kids: seq<Entry>, i: nat, j: nat)
    requires i < j < |kids|
    ensures var a, b := Arranged(order, path, kids)[i], Arranged(order, path, kids)[j];
            && Rank(order, Under(path, a)) <= Rank(order, Under(path, b))
            && (Rank(order, Under(path, a)) == Rank(order, Under(path, b)) ==>
                  (b.Dir? ==> a.Dir?) && (a.Dir? == b.Dir? ==> TextLe(Under(path, a), Under(path, b))))
  {
    ArrangedIsSorted(order, path, kids);
  }

  /** What has a place goes before what has none. */
  lemma {:induction false} PlacedComesFirst(pairs: seq<Pair>, key: string, other: string)
    requires key in OrderOf(pairs) && other !in OrderOf(pairs)
    ensures Rank(OrderOf(pairs), key) < Rank(OrderOf(pairs), other)
  {
    PlacesAreFewer(pairs);
  }

  lemma {:induction false} PlacesAreFewer(pairs: seq<Pair>)
    ensures forall key :: key in OrderOf(pairs) ==> OrderOf(pairs)[key] < |OrderOf(pairs)|
  {
    if pairs != [] {
      PlacesAreFewer(pairs[..|pairs| - 1]);
    }
  }

  // ---- drawing ----

  /** One row to draw: the blank one between two roots, or an entry; a root has no glyph. */
  datatype Stop = Gap | At(stem: string, glyph: string, name: string, slash: bool, key: string)

  function Glyph(last: bool): string {
    if last then ELBOW else TEE
  }

  function Segment(last: bool): string {
    if last then BLANK else BAR
  }

  function Walk(order: map<string, nat>, path: string, stem: string, kids: seq<Entry>): seq<Stop>
    decreases kids, |kids| + 1
  {
    WalkList(order, path, stem, kids, Arranged(order, path, kids))
  }

  function WalkList(order: map<string, nat>, path: string, stem: string, kids: seq<Entry>, list: seq<Entry>): seq<Stop>
    requires forall e :: e in list ==> e in kids
    decreases kids, |list|
  {
    if list == [] then []
    else
      var e, last := list[0], |list| == 1;
      assert e in list;
      assert exists j :: 0 <= j < |kids| && kids[j] == e;
      [At(stem, Glyph(last), e.name, e.Dir?, Under(path, e))]
      + (if e.Dir? then Walk(order, Under(path, e), stem + Segment(last), e.kids) else [])
      + WalkList(order, path, stem, kids, list[1..])
  }

  // ---- how the lines of the picture lead ----

  /** What is drawn in column `c` of a row, left of its name. */
  function Ink(stop: Stop, c: nat): char
    requires stop.At?
  {
    var drawn := stop.stem + stop.glyph;
    if c < |drawn| then drawn[c] else ' '
  }

  /** A line leaves the column downwards, or comes into it from above. */
  predicate GoesDown(stop: Stop, c: nat)
    requires stop.At?
  {
    Ink(stop, c) == '│' || Ink(stop, c) == '├'
  }

  predicate ComesDown(stop: Stop, c: nat)
    requires stop.At?
  {
    Ink(stop, c) == '│' || Ink(stop, c) == '├' || Ink(stop, c) == '└'
  }

  /** From one row to the next no line breaks off and none begins out of nothing, but for the one that begins
      under the name of the upper row. */
  ghost predicate Joined(a: Stop, b: Stop)
    requires a.At? && b.At?
  {
    forall c: nat :: c < |a.stem| + 4 ==> (GoesDown(a, c) <==> ComesDown(b, c))
  }

  ghost predicate IsRow(stop: Stop, stem: string) {
    stop.At? && stem <= stop.stem && IsStem(stop.stem) && IsGlyph(stop.glyph)
  }

  /** Rows right of `stem`, joined one to the next. */
  ghost predicate AreJoined(stops: seq<Stop>, stem: string) {
    && (forall i :: 0 <= i < |stops| ==> IsRow(stops[i], stem))
    && (forall i :: 0 <= i < |stops| - 1 ==> Joined(stops[i], stops[i + 1]))
    && (stops != [] ==> stops[0].stem == stem)
  }

  /** Right of `stem` a line goes on below the row exactly in the column of `stem` itself, if `on`. */
  ghost predicate GoesOn(stop: Stop, stem: string, on: bool)
    requires stop.At?
  {
    forall c: nat :: c >= |stem| ==> (GoesDown(stop, c) <==> on && c == |stem|)
  }

  /** The rows are joined, and right of `stem` nothing goes on below the last of them. */
  ghost predicate Drawing(stops: seq<Stop>, stem: string) {
    AreJoined(stops, stem) && (stops != [] ==> GoesOn(stops[|stops| - 1], stem, false))
  }

  lemma {:induction false} StemInk(stem: string, c: nat)
    requires IsStem(stem) && c < |stem|
    ensures stem[c] == '│' || stem[c] == ' '
  {
    if c < 4 {
      SegmentInk(stem[..4], c);
      assert stem[c] == stem[..4][c];
    } else {
      StemInk(stem[4..], c - 4);
    }
  }

  lemma SegmentInk(segment: string, k: nat)
    requires IsSegment(segment) && k < |segment|
    ensures |segment| == 4 && segment[k] == if segment == BAR && k == 0 then '│' else ' '
  {
    assert BAR[0] == '│' && BAR[1] == ' ' && BAR[2] == ' ' && BAR[3] == ' ';
    assert BLANK[0] == ' ' && BLANK[1] == ' ' && BLANK[2] == ' ' && BLANK[3] == ' ';
  }

  lemma GlyphInk(glyph: string, k: nat)
    requires IsGlyph(glyph) && k < |glyph|
    ensures |glyph| == 4
    ensures k == 0 ==> glyph[k] == if glyph == ELBOW then '└' else '├'
    ensures k > 0 ==> glyph[k] == '─' || glyph[k] == ' '
  {
    assert TEE[0] == '├' && TEE[1] == '─' && TEE[2] == '─' && TEE[3] == ' ';
    assert ELBOW[0] == '└' && ELBOW[1] == '─' && ELBOW[2] == '─' && ELBOW[3] == ' ';
  }

  /** What a row has in each column from `|stem|` on, when it stands right there. */
  lemma OwnInk(e: Stop, stem: string, c: nat)
    requires IsRow(e, stem) && e.stem == stem && c >= |stem|
    ensures ComesDown(e, c) <==> c == |stem|
    ensures GoesDown(e, c) <==> c == |stem| && e.glyph == TEE
  {
    if c < |stem| + 4 {
      assert Ink(e, c) == e.glyph[c - |stem|];
      GlyphInk(e.glyph, c - |stem|);
    }
  }

  /** What a row has left of where it stands. */
  lemma LeftInk(b: Stop, left: string, c: nat)
    requires IsRow(b, left) && c < |left|
    ensures Ink(b, c) == left[c] && (GoesDown(b, c) <==> ComesDown(b, c))
  {
    assert Ink(b, c) == b.stem[c];
    StemInk(b.stem, c);
  }

  /** An entry's row, and what is drawn under it. */
  lemma {:induction false} EntryJoins(stem: string, last: bool, e: Stop, inner: seq<Stop>)
    requires IsStem(stem) && e.At? && e.stem == stem && e.glyph == Glyph(last)
    requires Drawing(inner, stem + Segment(last))
    ensures AreJoined([e] + inner, stem) && GoesOn(([e] + inner)[|inner|], stem, !last)
  {
    hide Joined, IsStem, GoesDown, ComesDown;
    var rows := [e] + inner;
    assert IsRow(e, stem) by {
      assert IsGlyph(e.glyph);
    }
    forall c: nat | c >= |stem|
      ensures GoesDown(e, c) <==> !last && c == |stem|
    {
      OwnInk(e, stem, c);
    }
    if inner != [] {
      InnerJoins(stem, last, e, inner[0]);
      InnerGoesOn(stem, last, inner[|inner| - 1]);
    }
    forall i | 0 <= i < |rows|
      ensures IsRow(rows[i], stem)
    {
      if i > 0 {
        assert IsRow(inner[i - 1], stem + Segment(last));
      }
    }
    forall i | 0 <= i < |rows| - 1
      ensures Joined(rows[i], rows[i + 1])
    {
      if i > 0 {
        assert Joined(inner[i - 1], inner[i]);
      }
    }
  }

  lemma SegmentFirst(last: bool)
    ensures IsSegment(Segment(last)) && |Segment(last)| == 4 && Segment(last)[0] == if last then ' ' else '│'
  {
    SegmentInk(Segment(last), 0);
  }

  lemma {:induction false} InnerJoins(stem: string, last: bool, e: Stop, b: Stop)
    requires e.At? && b.At? && IsStem(stem) && IsRow(e, stem) && e.stem == stem && e.glyph == Glyph(last)
    requires IsRow(b, stem + Segment(last))
    ensures Joined(e, b)
  {
    hide IsRow, IsStem, GoesDown;
    SegmentFirst(last);
    forall c: nat | c < |stem| + 4
      ensures GoesDown(e, c) <==> ComesDown(b, c)
    {
      LeftInk(b, stem + Segment(last), c);
      if c < |stem| {
        LeftInk(e, stem, c);
        SameInk(stem, Segment(last), e, b, c);
      } else {
        OwnInk(e, stem, c);
        SegmentDown(stem, last, b, c);
      }
    }
  }

  lemma SameInk(stem: string, segment: string, e: Stop, b: Stop, c: nat)
    requires e.At? && b.At? && c < |stem| && Ink(e, c) == stem[c] && Ink(b, c) == (stem + segment)[c]
    ensures GoesDown(e, c) == GoesDown(b, c) && ComesDown(e, c) == ComesDown(b, c)
  {
  }

  lemma SegmentDown(stem: string, last: bool, b: Stop, c: nat)
    requires b.At? && |stem| <= c < |stem| + 4 && |Segment(last)| == 4 && Ink(b, c) == (stem + Segment(last))[c]
    ensures GoesDown(b, c) <==> !last && c == |stem|
    ensures ComesDown(b, c) <==> !last && c == |stem|
  {
    SegmentInk(Segment(last), c - |stem|);
  }

  lemma {:induction false} InnerGoesOn(stem: string, last: bool, b: Stop)
    requires b.At? && IsStem(stem) && IsRow(b, stem + Segment(last)) && GoesOn(b, stem + Segment(last), false)
    ensures GoesOn(b, stem, !last)
  {
    hide IsRow, IsStem, GoesDown;
    SegmentFirst(last);
    forall c: nat | c >= |stem|
      ensures GoesDown(b, c) <==> !last && c == |stem|
    {
      if c < |stem| + 4 {
        LeftInk(b, stem + Segment(last), c);
        SegmentDown(stem, last, b, c);
      }
    }
  }

  /** What is drawn for one entry, and what for those after it in the same directory. */
  lemma {:induction false} EntriesJoin(stem: string, first: seq<Stop>, rest: seq<Stop>)
    requires first != [] && rest != [] && AreJoined(first, stem) && Drawing(rest, stem)
    requires GoesOn(first[|first| - 1], stem, true)
    ensures Drawing(first + rest, stem)
  {
    hide IsStem, IsGlyph, Joined, GoesOn;
    NextJoins(stem, first[|first| - 1], rest[0]);
    var rows := first + rest;
    forall i | 0 <= i < |rows| - 1
      ensures Joined(rows[i], rows[i + 1])
    {
      if i >= |first| {
        assert Joined(rest[i - |first|], rest[i - |first| + 1]);
      }
    }
    assert rows[|rows| - 1] == rest[|rest| - 1];
  }

  lemma NextJoins(stem: string, a: Stop, b: Stop)
    requires a.At? && b.At? && IsRow(a, stem) && IsRow(b, stem) && b.stem == stem && GoesOn(a, stem, true)
    ensures Joined(a, b)
  {
    hide IsRow, GoesDown;
    forall c: nat | c < |a.stem| + 4
      ensures GoesDown(a, c) <==> ComesDown(b, c)
    {
      if c < |stem| {
        LeftInk(a, stem, c);
        LeftInk(b, stem, c);
        SameInk(stem, "", a, b, c);
      } else {
        OwnInk(b, stem, c);
      }
    }
  }

  /** The lines drawn left of the names lead from every directory down to each entry in it, and end there. */
  lemma {:induction false} LinesLead(order: map<string, nat>, path: string, stem: string, kids: seq<Entry>)
    requires IsStem(stem)
    ensures Drawing(Walk(order, path, stem, kids), stem)
    decreases kids, |kids| + 1
  {
    ListLeads(order, path, stem, kids, Arranged(order, path, kids));
  }

  lemma {:induction false} ListLeads(order: map<string, nat>, path: string, stem: string, kids: seq<Entry>, list: seq<Entry>)
    requires IsStem(stem) && forall e :: e in list ==> e in kids
    ensures Drawing(WalkList(order, path, stem, kids, list), stem)
    decreases kids, |list|
  {
    hide Drawing, AreJoined, GoesOn, IsStem, Arranged;
    if list == [] {
      NothingDrawn(stem);
    } else {
      var e, last := list[0], |list| == 1;
      assert e in list;
      assert exists j :: 0 <= j < |kids| && kids[j] == e;
      var row := At(stem, Glyph(last), e.name, e.Dir?, Under(path, e));
      var inner := if e.Dir? then Walk(order, Under(path, e), stem + Segment(last), e.kids) else [];
      StemDeepens(stem, Segment(last));
      if e.Dir? {
        LinesLead(order, Under(path, e), stem + Segment(last), e.kids);
      } else {
        NothingDrawn(stem + Segment(last));
      }
      EntryJoins(stem, last, row, inner);
      ListLeads(order, path, stem, kids, list[1..]);
      var rest := WalkList(order, path, stem, kids, list[1..]);
      ThenTheRest(stem, last, [row] + inner, rest);
      assert WalkList(order, path, stem, kids, list) == [row] + inner + rest;
    }
  }

  lemma NothingDrawn(stem: string)
    ensures Drawing([], stem)
  {
  }

  lemma ThenTheRest(stem: string, last: bool, first: seq<Stop>, rest: seq<Stop>)
    requires first != [] && AreJoined(first, stem) && GoesOn(first[|first| - 1], stem, !last)
    requires Drawing(rest, stem) && (rest == [] <==> last)
    ensures Drawing(first + rest, stem)
  {
    if last {
      assert first + rest == first;
    } else {
      EntriesJoin(stem, first, rest);
    }
  }

  function Stops(order: map<string, nat>, roots: seq<Root>): seq<Stop> {
    if roots == [] then []
    else
      var r := roots[|roots| - 1];
      Stops(order, roots[..|roots| - 1]) + (if |roots| > 1 then [Gap] else [])
      + [At("", "", r.path, true, r.path)] + Walk(order, r.path, "", r.kids)
  }

  function Label(stop: Stop): string {
    if stop.Gap? then "" else stop.stem + stop.glyph + stop.name + if stop.slash then "/" else ""
  }

  function StopNote(stop: Stop, notes: map<string, string>): string {
    if stop.Gap? then "" else NoteAt(notes, stop.key)
  }

  datatype Row = Row(text: string, note: string)

  function Rows(stops: seq<Stop>, notes: map<string, string>): (rows: seq<Row>)
    ensures |rows| == |stops|
    ensures forall i :: 0 <= i < |rows| ==> rows[i] == Row(Label(stops[i]), StopNote(stops[i], notes))
  {
    seq(|stops|, i requires 0 <= i < |stops| => Row(Label(stops[i]), StopNote(stops[i], notes)))
  }

  /** The widest label that has a note beside it. */
  function Widest(rows: seq<Row>): (w: nat)
    ensures forall i :: 0 <= i < |rows| && rows[i].note != "" ==> |rows[i].text| <= w
    ensures w == 0 || exists i :: 0 <= i < |rows| && rows[i].note != "" && |rows[i].text| == w
  {
    if rows == [] then 0
    else
      var n := |rows| - 1;
      var w := Widest(rows[..n]);
      assert forall i :: 0 <= i < n ==> rows[..n][i] == rows[i];
      if rows[n].note != "" && |rows[n].text| > w then |rows[n].text| else w
  }

  function DrawRows(rows: seq<Row>, width: nat): (lines: seq<string>)
    ensures |lines| == |rows|
    ensures forall i :: 0 <= i < |rows| ==> lines[i] == DrawLine(rows[i].text, rows[i].note, width)
  {
    seq(|rows|, i requires 0 <= i < |rows| => DrawLine(rows[i].text, rows[i].note, width))
  }

  function Drawn(rows: seq<Row>): seq<string> {
    ["```"] + DrawRows(rows, Widest(rows) + 2) + ["```"]
  }

  /** All notes stand in one column, two beyond the widest label that has one. */
  lemma NotesAlign(rows: seq<Row>, i: nat)
    requires i < |rows| && rows[i].note != "" && Trim(rows[i].note)
    ensures var line, column := Drawn(rows)[i + 1], Widest(rows) + 2;
            && |line| == column + |rows[i].note| && line[column..] == rows[i].note
            && line[..|rows[i].text|] == rows[i].text
            && forall c :: |rows[i].text| <= c < column ==> line[c] == ' '
  {
    hide Widest, DrawLine;
    NoteAligns(rows[i].text, rows[i].note, Widest(rows) + 2);
    RowIsDrawn(rows, i);
  }

  lemma {:induction false} RowIsDrawn(rows: seq<Row>, i: nat)
    requires i < |rows|
    ensures |Drawn(rows)| == |rows| + 2 && Drawn(rows)[i + 1] == DrawLine(rows[i].text, rows[i].note, Widest(rows) + 2)
  {
    hide Widest, DrawLine;
  }

  lemma NoteAligns(text: string, note: string, column: nat)
    requires note != "" && Trim(note) && |text| <= column
    ensures var line := DrawLine(text, note, column);
            && |line| == column + |note| && line[column..] == note && line[..|text|] == text
            && forall c :: |text| <= c < column ==> line[c] == ' '
  {
    hide IsSpace;
    var whole := Ljust(text, column) + note;
    assert whole[|whole| - 1] == note[|note| - 1];
    assert Rstrip(whole) == whole;
  }

  /** The block that is drawn when `existing` is there already. */
  function Redrawn(existing: seq<string>, roots: seq<Root>, word: char -> bool): seq<string> {
    var pairs := Pairs([], existing, word);
    Drawn(Rows(Stops(OrderOf(pairs), roots), NotesOf(pairs)))
  }

  lemma RowsAppend(a: seq<Stop>, b: seq<Stop>, notes: map<string, string>)
    ensures Rows(a + b, notes) == Rows(a, notes) + Rows(b, notes)
  {
  }

  /** The rows of the first of several entries, of what is in it, and of the others. */
  lemma {:induction false} RowsOfFirst(notes: map<string, string>, order: map<string, nat>, path: string, stem: string, kids: seq<Entry>, list: seq<Entry>)
    requires list != [] && forall e :: e in list ==> e in kids
    ensures var e, last := list[0], |list| == 1;
            Rows(WalkList(order, path, stem, kids, list), notes)
            == [Row(stem + Glyph(last) + e.name + if e.Dir? then "/" else "", NoteAt(notes, Under(path, e)))]
               + (if e.Dir? then Rows(Walk(order, Under(path, e), stem + Segment(last), e.kids), notes) else [])
               + Rows(WalkList(order, path, stem, kids, list[1..]), notes)
  {
    hide Walk, Under, Glyph, Segment;
    var e, last := list[0], |list| == 1;
    var stop := At(stem, Glyph(last), e.name, e.Dir?, Under(path, e));
    var inner := if e.Dir? then Walk(order, Under(path, e), stem + Segment(last), e.kids) else [];
    var rest := WalkList(order, path, stem, kids, list[1..]);
    RowsAppend([stop], inner, notes);
    RowsAppend([stop] + inner, rest, notes);
    assert Rows([stop], notes) == [Row(Label(stop), NoteAt(notes, Under(path, e)))];
    assert Rows([], notes) == [];
  }

  lemma {:induction false} WholeWalk(notes: map<string, string>, order: map<string, nat>, path: string, stem: string, kids: seq<Entry>)
    ensures Rows(Walk(order, path, stem, kids), notes) == Rows(WalkList(order, path, stem, kids, Arranged(order, path, kids)), notes)
  {
  }

  lemma Regrouped<T>(before: seq<T>, first: seq<T>, inner: seq<T>, rest: seq<T>)
    ensures before + (first + inner + rest) == before + first + inner + rest
    ensures before + first + [] == before + first
  {
  }

  /** Appends the rows of a directory, and of every directory in it as it comes to it. */
  method WalkRows(notes: map<string, string>, order: map<string, nat>, path: string, stem: string, kids: seq<Entry>, rows: seq<Row>)
    returns (rows': seq<Row>)
    ensures rows' == rows + Rows(Walk(order, path, stem, kids), notes)
    decreases kids
  {
    hide Walk, WalkList, Arranged, Glyph, Segment, Under, Rows, NoteAt;
    WholeWalk(notes, order, path, stem, kids);
    rows' := rows;
    var entries := Arranged(order, path, kids);
    ghost var whole := Rows(Walk(order, path, stem, kids), notes);
    assert entries[0..] == entries;
    for i := 0 to |entries|
      invariant rows + whole == rows' + Rows(WalkList(order, path, stem, kids, entries[i..]), notes)
    {
      var e, last := entries[i], i == |entries| - 1;
      var key := Under(path, e);
      assert entries[i..][0] == e && entries[i..][1..] == entries[i + 1..];
      RowsOfFirst(notes, order, path, stem, kids, entries[i..]);
      assert e in kids;
      var first := [Row(stem + Glyph(last) + e.name + if e.Dir? then "/" else "", NoteAt(notes, key))];
      ghost var inner := if e.Dir? then Rows(Walk(order, key, stem + Segment(last), e.kids), notes) else [];
      Regrouped(rows', first, inner, Rows(WalkList(order, path, stem, kids, entries[i + 1..]), notes));
      rows' := rows' + first;
      if e.Dir? {
        rows' := WalkRows(notes, order, key, stem + Segment(last), e.kids, rows');
      }
    }
    NoRows(notes, order, path, stem, kids);
  }

  lemma {:induction false} NoRows(notes: map<string, string>, order: map<string, nat>, path: string, stem: string, kids: seq<Entry>)
    ensures Rows(WalkList(order, path, stem, kids, []), notes) == []
  {
  }

  lemma {:induction false} StopsNext(order: map<string, nat>, roots: seq<Root>, i: nat)
    requires i < |roots|
    ensures Stops(order, roots[..i + 1])
      == Stops(order, roots[..i]) + (if i > 0 then [Gap] else []) + [At("", "", roots[i].path, true, roots[i].path)]
         + Walk(order, roots[i].path, "", roots[i].kids)
  {
    assert roots[..i + 1][..i] == roots[..i];
  }

  lemma {:induction false} RowsOfRoot(notes: map<string, string>, order: map<string, nat>, roots: seq<Root>, i: nat)
    requires i < |roots|
    ensures var before, r := Rows(Stops(order, roots[..i]), notes), roots[i];
            Rows(Stops(order, roots[..i + 1]), notes)
            == before + (if i > 0 then [Row("", "")] else []) + [Row(r.path + "/", NoteAt(notes, r.path))]
               + Rows(Walk(order, r.path, "", r.kids), notes)
  {
    hide Walk, Rows, NoteAt, Stops;
    StopsNext(order, roots, i);
    var r := roots[i];
    var before, gap, stop := Stops(order, roots[..i]), if i > 0 then [Gap] else [], At("", "", r.path, true, r.path);
    RowsAppend(before, gap, notes);
    RowsAppend(before + gap, [stop], notes);
    RowsAppend(before + gap + [stop], Walk(order, r.path, "", r.kids), notes);
    OneRow(Gap, notes);
    OneRow(stop, notes);
    assert "" + "" + r.path + "/" == r.path + "/";
    assert Rows([], notes) == [];
  }

  lemma OneRow(stop: Stop, notes: map<string, string>)
    ensures Rows([stop], notes) == [Row(Label(stop), StopNote(stop, notes))]
  {
  }

  lemma {:induction false} NoStops(notes: map<string, string>, order: map<string, nat>)
    ensures Rows(Stops(order, []), notes) == []
  {
  }

  method WidestOf(rows: seq<Row>) returns (width: nat)
    ensures width == Widest(rows)
  {
    width := 0;
    for i := 0 to |rows|
      invariant width == Widest(rows[..i])
    {
      assert rows[..i + 1][..i] == rows[..i];
      if rows[i].note != "" && |rows[i].text| > width {
        width := |rows[i].text|;
      }
    }
    assert rows[..|rows|] == rows;
  }

  method Fence(rows: seq<Row>, width: nat) returns (body: seq<string>)
    ensures body == ["```"] + DrawRows(rows, width) + ["```"]
  {
    body := ["```"];
    for i := 0 to |rows|
      invariant body == ["```"] + DrawRows(rows, width)[..i]
    {
      body := body + [DrawLine(rows[i].text, rows[i].note, width)];
    }
    body := body + ["```"];
  }

  /** Appends the rows of one root, after a blank row unless it is the first. */
  method AddRoot(notes: map<string, string>, order: map<string, nat>, root: Root, rows: seq<Row>) returns (rows': seq<Row>)
    ensures rows' == rows + (if rows != [] then [Row("", "")] else []) + [Row(root.path + "/", NoteAt(notes, root.path))]
                     + Rows(Walk(order, root.path, "", root.kids), notes)
  {
    hide Walk, Rows, NoteAt;
    rows' := rows;
    if rows' != [] {
      rows' := rows' + [Row("", "")];
    }
    rows' := rows' + [Row(root.path + "/", NoteAt(notes, root.path))];
    rows' := WalkRows(notes, order, root.path, "", root.kids, rows');
  }

  method AllRows(notes: map<string, string>, order: map<string, nat>, roots: seq<Root>) returns (rows: seq<Row>)
    ensures rows == Rows(Stops(order, roots), notes)
  {
    hide Walk, Rows, Stops, NoteAt;
    rows := [];
    NoStops(notes, order);
    for i := 0 to |roots|
      invariant rows == Rows(Stops(order, roots[..i]), notes)
      invariant rows == [] <==> i == 0
    {
      RowsOfRoot(notes, order, roots, i);
      rows := AddRoot(notes, order, roots[i], rows);
    }
    assert roots[..|roots|] == roots;
  }

  method RenderTree(existing: seq<string>, roots: seq<Root>, word: char -> bool) returns (body: seq<string>)
    ensures body == Redrawn(existing, roots, word)
  {
    hide NotesOf, OrderOf, Pairs, Rows, Stops, Widest, DrawRows;
    var notes, order := ParseTree(existing, word);
    var rows := AllRows(notes, order, roots);
    var width := WidestOf(rows);
    body := Fence(rows, width + 2);
  }
}
