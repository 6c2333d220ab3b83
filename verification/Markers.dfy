/** A generated block of a document, between the two comments that name it. */
module Markers {
  import opened Options

  // ---- the string operations ----

  /** What the source's `strip` and `\s` treat as whitespace. */
  predicate IsSpace(c: char) {
    || '\t' <= c <= '\r' || '\U{1C}' <= c <= ' ' || c == '\U{85}' || c == '\U{A0}' || c == '\U{1680}'
    || '\U{2000}' <= c <= '\U{200A}' || c == '\U{2028}' || c == '\U{2029}' || c == '\U{202F}' || c == '\U{205F}'
    || c == '\U{3000}'
  }

  function Rstrip(s: string): (r: string)
    ensures r <= s && (r == "" || !IsSpace(r[|r| - 1]))
    ensures forall i :: |r| <= i < |s| ==> IsSpace(s[i])
  {
    if s == "" || !IsSpace(s[|s| - 1]) then s else Rstrip(s[..|s| - 1])
  }

  function Lstrip(s: string): (r: string)
    ensures |r| <= |s| && r == s[|s| - |r|..] && (r == "" || !IsSpace(r[0]))
    ensures forall i :: 0 <= i < |s| - |r| ==> IsSpace(s[i])
  {
    if s == "" || !IsSpace(s[0]) then s else Lstrip(s[1..])
  }

  function Strip(s: string): string {
    Rstrip(Lstrip(s))
  }

  /** Nothing to strip at either edge. */
  predicate Trim(s: string) {
    s == "" || (!IsSpace(s[0]) && !IsSpace(s[|s| - 1]))
  }

  lemma StripIsTrim(s: string)
    ensures Trim(Strip(s))
    ensures Trim(s) ==> Strip(s) == s
  {
    var l := Lstrip(s);
    if Rstrip(l) != "" {
      assert Rstrip(l)[0] == l[0];
    }
  }

  predicate FoundAt(text: string, what: string, i: nat) {
    i + |what| <= |text| && text[i..i + |what|] == what
  }

  /** Where `what` first occurs in `text` at `from` or later. */
  function FindFrom(text: string, what: string, from: nat): (i: Option<nat>)
    ensures i.Some? ==> from <= i.value && FoundAt(text, what, i.value)
    ensures forall k :: from <= k && (i.Some? ==> k < i.value) ==> !FoundAt(text, what, k)
    decreases |text| - from
  {
    if from + |what| > |text| then None
    else if FoundAt(text, what, from) then Some(from)
    else FindFrom(text, what, from + 1)
  }

  // ---- the markers ----

  const BEGIN := "<!-- generated:begin "
  const END := "<!-- generated:end "
  const CLOSE := " -->"
  const AROUND := "\n\n"

  function BeginMarker(name: string): string {
    BEGIN + name + CLOSE
  }

  function EndMarker(name: string): string {
    END + name + CLOSE
  }

  /** A block's name: nothing that could be taken for the start of a marker, and on one line. */
  predicate IsName(name: string) {
    '<' !in name && '\n' !in name
  }

  /** Where the block starts and ends: None when a marker is missing or they are the wrong way round. */
  function ReadMarker(text: string, name: string): (span: Option<(nat, nat)>)
    ensures span.Some? ==> span.value.0 <= |text| && span.value.1 <= |text|
  {
    var i := FindFrom(text, BeginMarker(name), 0);
    var j := FindFrom(text, EndMarker(name), 0);
    if i.None? || j.None? || j.value < i.value then None
    else Some((i.value + |BeginMarker(name)|, j.value))
  }

  function ReplaceMarker(text: string, name: string, body: string): Option<string> {
    var span := ReadMarker(text, name);
    if span.None? then None
    else Some(text[..span.value.0] + AROUND + Strip(body) + AROUND + text[span.value.1..])
  }

  ghost predicate FirstAt(text: string, what: string, i: nat) {
    FoundAt(text, what, i) && forall k: nat :: k < i ==> !FoundAt(text, what, k)
  }

  /** What is read stands between the first begin marker of the name and the first end marker of it, and nothing
      is when the end comes first or either is not there. */
  lemma ReadsBetween(text: string, name: string)
    ensures var begin, end := "<!-- generated:begin " + name + " -->", "<!-- generated:end " + name + " -->";
            match ReadMarker(text, name)
            case Some(span) =>
              FirstAt(text, end, span.1) && exists i: nat :: FirstAt(text, begin, i) && i <= span.1 && span.0 == i + |begin|
            case None =>
              forall i: nat, j: nat :: FirstAt(text, begin, i) && FirstAt(text, end, j) ==> j < i
  {
    hide FoundAt;
    var begin, end := BeginMarker(name), EndMarker(name);
    var i, j := FindFrom(text, begin, 0), FindFrom(text, end, 0);
    if i.Some? {
      assert FirstAt(text, begin, i.value);
      assert forall k: nat :: FirstAt(text, begin, k) ==> !(i.value < k) && !(k < i.value);
    }
    if j.Some? {
      assert FirstAt(text, end, j.value);
      assert forall k: nat :: FirstAt(text, end, k) ==> !(j.value < k) && !(k < j.value);
    }
  }

  /** A begin marker holds no other character a marker could start with, and no marker is on two lines. */
  lemma MarkerText(name: string)
    requires IsName(name)
    ensures forall d :: 0 < d < |BeginMarker(name)| ==> BeginMarker(name)[d] != '<'
    ensures forall d :: 0 <= d < |EndMarker(name)| ==> EndMarker(name)[d] != '\n'
  {
    assert forall d :: 0 < d < |BEGIN| ==> BEGIN[d] != '<';
    assert forall d :: 0 <= d < |END| ==> END[d] != '\n';
    assert forall d :: 0 <= d < |CLOSE| ==> CLOSE[d] != '<' && CLOSE[d] != '\n';
  }

  /** The two markers of one block never overlap. */
  lemma MarkersApart(text: string, name: string, i: nat, j: nat)
    requires IsName(name) && FoundAt(text, BeginMarker(name), i) && FoundAt(text, EndMarker(name), j) && i <= j
    ensures i + |BeginMarker(name)| <= j
  {
    var begin, end := BeginMarker(name), EndMarker(name);
    MarkerText(name);
    assert begin[15] == 'b' && end[15] == 'e' && end[0] == '<';
    assert text[i + 15] == text[i..i + |begin|][15];
    assert text[j + 15] == text[j..j + |end|][15];
    assert text[j] == text[j..j + |end|][0];
    assert forall k :: i < k < i + |begin| ==> text[k] == text[i..i + |begin|][k - i];
  }

  /** The span that is read begins and ends at the two markers, in this order. */
  lemma SpanIsBetween(text: string, name: string, body: string)
    requires IsName(name)
    ensures ReadMarker(text, name).Some? ==>
      var span := ReadMarker(text, name).value;
      && span.0 <= span.1 <= |text|
      && FoundAt(text, BeginMarker(name), span.0 - |BeginMarker(name)|) && FoundAt(text, EndMarker(name), span.1)
  {
    if ReadMarker(text, name).Some? {
      var span := ReadMarker(text, name).value;
      MarkersApart(text, name, span.0 - |BeginMarker(name)|, span.1);
    }
  }

  lemma OnOneLine(text: string, what: string, q: nat)
    requires FoundAt(text, what, q) && forall d :: 0 <= d < |what| ==> what[d] != '\n'
    ensures q + |what| <= |text| && forall k :: q <= k < q + |what| ==> text[k] != '\n'
  {
    forall k | q <= k < q + |what|
      ensures text[k] != '\n'
    {
      assert text[q..q + |what|][k - q] == what[k - q];
    }
  }

  /** An end marker in `head`, a blank line, `b`, a blank line, `tail` lies wholly in `head`, `b` or `tail`. */
  lemma EndMarkerWithin(head: string, b: string, tail: string, name: string, q: nat)
    requires IsName(name) && FoundAt(head + AROUND + b + AROUND + tail, EndMarker(name), q)
    ensures var from := |head| + 2;
            || FoundAt(head, EndMarker(name), q)
            || (from <= q && FoundAt(b, EndMarker(name), q - from))
            || from + |b| + 2 <= q
  {
    var text, end := head + AROUND + b + AROUND + tail, EndMarker(name);
    var from := |head| + 2;
    assert text[|head|] == '\n' && text[|head| + 1] == '\n';
    assert text[from + |b|] == '\n' && text[from + |b| + 1] == '\n';
    MarkerText(name);
    OnOneLine(text, end, q);
    if q + |end| <= |head| {
      assert head[q..q + |end|] == text[q..q + |end|];
    } else if from <= q && q + |end| <= from + |b| {
      assert b[q - from..q - from + |end|] == text[q..q + |end|];
    }
  }

  lemma {:induction false} FirstIsFound(text: string, what: string, i: nat)
    requires FoundAt(text, what, i) && forall k :: 0 <= k < i ==> !FoundAt(text, what, k)
    ensures FindFrom(text, what, 0) == Some(i)
  {
  }

  /** A text found in `head` is found there whatever follows. */
  lemma FoundInHead(head: string, rest: string, what: string, k: nat)
    requires k + |what| <= |head|
    ensures FoundAt(head + rest, what, k) <==> FoundAt(head, what, k)
  {
    assert (head + rest)[k..k + |what|] == head[k..k + |what|];
  }

  lemma FoundLater(head: string, rest: string, what: string, k: nat)
    ensures FoundAt(head + rest, what, |head| + k) <==> FoundAt(rest, what, k)
  {
    if k + |what| <= |rest| {
      assert (head + rest)[|head| + k..|head| + k + |what|] == rest[k..k + |what|];
    }
  }

  lemma {:induction false} BeginStays(head: string, rest: string, rest': string, begin: string)
    requires |begin| <= |head| && FindFrom(head + rest, begin, 0) == Some(|head| - |begin|)
    ensures FindFrom(head + rest', begin, 0) == Some(|head| - |begin|)
  {
    forall k: nat | k <= |head| - |begin|
      ensures FoundAt(head + rest', begin, k) <==> FoundAt(head + rest, begin, k)
    {
      FoundInHead(head, rest, begin, k);
      FoundInHead(head, rest', begin, k);
    }
    FirstIsFound(head + rest', begin, |head| - |begin|);
  }

  /** Where the end marker is in the replaced text: in the new block if that holds one, else after it. */
  function NewEnd(head: string, b: string, name: string): nat {
    var inner := FindFrom(b, EndMarker(name), 0);
    |head| + 2 + if inner.Some? then inner.value else |b| + 2
  }

  lemma {:induction false} EndMoves(head: string, b: string, tail: string, name: string)
    requires IsName(name) && FoundAt(tail, EndMarker(name), 0)
    requires forall k :: 0 <= k < |head| ==> !FoundAt(head, EndMarker(name), k)
    ensures FindFrom(head + AROUND + b + AROUND + tail, EndMarker(name), 0) == Some(NewEnd(head, b, name))
  {
    hide FoundAt, FindFrom, EndMarker, NewEnd;
    EndIsThere(head, b, tail, name);
    NoEndBefore(head, b, tail, name);
    FirstIsFound(head + AROUND + b + AROUND + tail, EndMarker(name), NewEnd(head, b, name));
  }

  lemma EndIsThere(head: string, b: string, tail: string, name: string)
    requires FoundAt(tail, EndMarker(name), 0)
    ensures FoundAt(head + AROUND + b + AROUND + tail, EndMarker(name), NewEnd(head, b, name))
  {
    hide FoundAt, FindFrom, EndMarker;
    var end := EndMarker(name);
    var inner := FindFrom(b, end, 0);
    if inner.Some? {
      assert head + AROUND + b + AROUND + tail == (head + AROUND) + (b + AROUND + tail) && b + AROUND + tail == b + (AROUND + tail);
      FoundLater(head + AROUND, b + AROUND + tail, end, inner.value);
      InnerIsWhole(b, end, inner.value);
      FoundInHead(b, AROUND + tail, end, inner.value);
    } else {
      FoundLater(head + AROUND + b + AROUND, tail, end, 0);
    }
  }

  lemma InnerIsWhole(text: string, what: string, i: nat)
    requires FoundAt(text, what, i)
    ensures i + |what| <= |text|
  {
  }

  lemma NoEndBefore(head: string, b: string, tail: string, name: string)
    requires IsName(name) && forall k :: 0 <= k < |head| ==> !FoundAt(head, EndMarker(name), k)
    ensures forall q :: 0 <= q < NewEnd(head, b, name) ==> !FoundAt(head + AROUND + b + AROUND + tail, EndMarker(name), q)
  {
    hide FindFrom;
    var now := head + AROUND + b + AROUND + tail;
    forall q | 0 <= q < NewEnd(head, b, name)
      ensures !FoundAt(now, EndMarker(name), q)
    {
      if FoundAt(now, EndMarker(name), q) {
        EndMarkerWithin(head, b, tail, name, q);
      }
    }
  }

  /** The first end marker of a text is not in what comes before it. */
  lemma {:induction false} NoneBefore(text: string, name: string, from: nat, j: nat)
    requires from <= j <= |text| && FindFrom(text, EndMarker(name), 0) == Some(j)
    ensures forall k :: 0 <= k < from ==> !FoundAt(text[..from], EndMarker(name), k)
    ensures FoundAt(text[j..], EndMarker(name), 0)
  {
    hide FindFrom, EndMarker;
    assert text == text[..from] + text[from..] && text == text[..j] + text[j..];
    FoundLater(text[..j], text[j..], EndMarker(name), 0);
    forall k | 0 <= k < from && FoundAt(text[..from], EndMarker(name), k)
      ensures false
    {
      FoundInHead(text[..from], text[from..], EndMarker(name), k);
    }
  }

  /** What a replaced text reads back as: the new block, up to the first end marker in it. */
  lemma ReadReplaced(text: string, name: string, body: string)
    requires IsName(name) && ReadMarker(text, name).Some?
    ensures var span, b := ReadMarker(text, name).value, Strip(body);
            ReadMarker(ReplaceMarker(text, name, body).value, name) == Some((span.0, NewEnd(text[..span.0], b, name)))
  {
    hide FindFrom, EndMarker, BeginMarker, Strip, FoundAt, NewEnd;
    SpanIsBetween(text, name, body);
    var span, b := ReadMarker(text, name).value, Strip(body);
    var head, tail := text[..span.0], text[span.1..];
    NoneBefore(text, name, span.0, span.1);
    assert text == head + text[span.0..];
    BeginStays(head, text[span.0..], AROUND + b + AROUND + tail, BeginMarker(name));
    assert head + (AROUND + b + AROUND + tail) == head + AROUND + b + AROUND + tail;
    EndMoves(head, b, tail, name);
    EndIsLater(head, b, name);
  }

  lemma {:induction false} EndIsLater(head: string, b: string, name: string)
    ensures |head| <= NewEnd(head, b, name)
    ensures FindFrom(b, EndMarker(name), 0).None? ==> NewEnd(head, b, name) == |head| + 2 + |b| + 2
  {
  }

  lemma WrittenOut(head: string, b: string, tail: string)
    ensures var once := head + AROUND + b + AROUND + tail;
            && once[..|head|] == head
            && once[|head| + 2 + |b| + 2..] == tail
            && once[|head|..|head| + 2 + |b| + 2] == AROUND + b + AROUND
  {
  }

  /** Replacing a block by the same body a second time changes nothing exactly when the body, stripped,
      does not hold the block's own end marker. */
  lemma ReplacingTwice(text: string, name: string, body: string)
    requires IsName(name) && ReadMarker(text, name).Some?
    ensures var once := ReplaceMarker(text, name, body);
            && once.Some?
            && (ReplaceMarker(once.value, name, body) == once <==> FindFrom(Strip(body), EndMarker(name), 0).None?)
  {
    SpanIsBetween(text, name, body);
    ReadReplaced(text, name, body);
    var span, b := ReadMarker(text, name).value, Strip(body);
    var once := ReplaceMarker(text, name, body).value;
    var inner := FindFrom(b, EndMarker(name), 0);
    WrittenOut(text[..span.0], b, text[span.1..]);
    if inner.Some? {
      assert |ReplaceMarker(once, name, body).value| > |once|;
    }
  }

  lemma EmptyBlockIsRead(name: string)
    requires IsName(name)
    ensures ReadMarker(BeginMarker(name) + EndMarker(name), name) == Some((|BeginMarker(name)|, |BeginMarker(name)|))
  {
    hide FindFrom;
    var begin, end := BeginMarker(name), EndMarker(name);
    var text := begin + end;
    MarkerText(name);
    assert begin[15] == 'b' && end[15] == 'e' && end[0] == '<';
    forall k | 0 <= k < |begin|
      ensures !FoundAt(text, end, k)
    {
      if k + |end| <= |text| {
        var d := if k == 0 then 15 else 0;
        assert text[k..k + |end|][d] == begin[k + d] != end[d];
      }
    }
    FirstIsFound(text, begin, 0);
    FirstIsFound(text, end, |begin|);
  }

  lemma EndMarkerIsTrim(name: string)
    ensures Strip(EndMarker(name)) == EndMarker(name)
  {
    hide Strip;
    assert EndMarker(name)[0] == '<' && EndMarker(name)[|EndMarker(name)| - 1] == '>';
    StripIsTrim(EndMarker(name));
  }

  /** A body that quotes the block's own end marker, in an empty block: the text grows with every run. */
  lemma QuotedMarkerGrows(name: string)
    requires IsName(name)
    ensures var begin, end := BeginMarker(name), EndMarker(name);
            var once := begin + AROUND + end + AROUND + end;
            && ReplaceMarker(begin + end, name, end) == Some(once)
            && ReplaceMarker(once, name, end) == Some(once + AROUND + end)
  {
    hide FindFrom, Strip, BeginMarker, EndMarker, ReadMarker;
    var begin, end := BeginMarker(name), EndMarker(name);
    var text, once := begin + end, begin + AROUND + end + AROUND + end;
    EmptyBlockIsRead(name);
    ReadReplaced(text, name, end);
    EndMarkerIsTrim(name);
    FirstIsFound(end, end, 0);
    assert text[..|begin|] == begin && text[|begin|..] == end;
    assert once[..|begin|] == begin && once[|begin| + 2..] == end + AROUND + end;
    assert begin + AROUND + end + AROUND + (end + AROUND + end) == once + AROUND + end;
  }

  /** What was put between the markers is what is read from between them, and nothing else has changed. */
  lemma WhatIsPutIsRead(text: string, name: string, body: string)
    requires IsName(name) && ReadMarker(text, name).Some? && FindFrom(Strip(body), EndMarker(name), 0).None?
    ensures var once := ReplaceMarker(text, name, body).value;
            var was, span := ReadMarker(text, name).value, ReadMarker(once, name);
            && span.Some? && span.value.0 <= span.value.1 <= |once|
            && once[span.value.0..span.value.1] == AROUND + Strip(body) + AROUND
            && once[..span.value.0] == text[..was.0] && once[span.value.1..] == text[was.1..]
  {
    hide FindFrom, EndMarker, BeginMarker, Strip, FoundAt, NewEnd;
    SpanIsBetween(text, name, body);
    ReadReplaced(text, name, body);
    var span := ReadMarker(text, name).value;
    EndIsLater(text[..span.0], Strip(body), name);
    WrittenOut(text[..span.0], Strip(body), text[span.1..]);
  }
}
