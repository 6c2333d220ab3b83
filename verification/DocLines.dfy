/** The lines of a drawn file tree: how one is written, and how one is read back. */
module DocLines {
  import opened Markers
  import opened Options

  const BAR := "│   "
  const BLANK := "    "
  const TEE := "├── "
  const ELBOW := "└── "

  predicate IsSegment(s: string) {
    s == BAR || s == BLANK
  }

  predicate IsGlyph(s: string) {
    s == TEE || s == ELBOW
  }

  // ---- the fields of a line ----

  /** How many four-character segments a line starts with. */
  function Segments(line: string): (n: nat)
    ensures 4 * n <= |line|
  {
    if |line| >= 4 && IsSegment(line[..4]) then 1 + Segments(line[4..]) else 0
  }

  /** The depth of a line and what stands behind its glyph; None when it is not drawn with one. */
  function Branch(line: string): Option<(nat, string)> {
    var depth := Segments(line);
    var after := line[4 * depth..];
    if |after| > 4 && IsGlyph(after[..4]) then Some((depth, after[4..])) else None
  }

  /** Where `s` first has two whitespace characters in a row. */
  function DoubleSpace(s: string): (i: Option<nat>)
    ensures i.Some? ==> i.value + 1 < |s| && IsSpace(s[i.value]) && IsSpace(s[i.value + 1])
    ensures forall k :: 0 <= k < |s| - 1 && (i.Some? ==> k < i.value) ==> !IsSpace(s[k]) || !IsSpace(s[k + 1])
  {
    if |s| < 2 then None
    else if IsSpace(s[0]) && IsSpace(s[1]) then Some(0)
    else
      var rest := DoubleSpace(s[1..]);
      assert forall k :: 1 <= k < |s| - 1 ==> s[1..][k - 1] == s[k] && s[1..][k] == s[k + 1];
      if rest.Some? then Some(rest.value + 1) else None
  }

  function DropSlashes(s: string): string {
    if s != "" && s[|s| - 1] == '/' then DropSlashes(s[..|s| - 1]) else s
  }

  /** The name and the note of an entry, which two or more spaces keep apart. */
  function NameAndNote(rest: string): (string, string) {
    var s := Strip(rest);
    var i := DoubleSpace(s);
    if i.None? then (DropSlashes(s), "")
    else (DropSlashes(s[..i.value]), Strip(Lstrip(s[i.value..])))
  }

  /** What one line of the tree says: the entry it names at `level` below the top, a root being at 0. */
  datatype Item = Item(level: nat, name: string, note: string)

  predicate EndsWith(s: string, c: char) {
    s != "" && s[|s| - 1] == c
  }

  /** A line without a glyph is a root when it ends in a slash, or is nothing but path characters. */
  predicate Rootish(line: string, word: char -> bool) {
    EndsWith(line, '/') || forall c :: c in line ==> word(c) || c in "./-"
  }

  function Fields(line: string): Item {
    var branch := Branch(line);
    var (name, note) := NameAndNote(if branch.Some? then branch.value.1 else line);
    Item(if branch.Some? then branch.value.0 + 1 else 0, name, note)
  }

  /** The item of a line, or None for one that is passed over: blank, a fence, or prose. */
  function ReadLine(raw: string, word: char -> bool): Option<Item> {
    var line := Rstrip(raw);
    if line == "" || "```" <= line || (Branch(line).None? && !Rootish(line, word)) then None
    else Some(Fields(line))
  }

  // ---- writing a line ----

  /** A file or directory name the two-space rule cannot cut: trimmed, with no two spaces in a row. */
  predicate Clean(name: string) {
    name != "" && Trim(name) && DoubleSpace(name).None?
  }

  predicate IsStem(stem: string) {
    stem == "" || (|stem| >= 4 && IsSegment(stem[..4]) && IsStem(stem[4..]))
  }

  function Spaces(n: nat): (s: string)
    ensures |s| == n && forall i :: 0 <= i < n ==> s[i] == ' '
  {
    seq(n, _ => ' ')
  }

  function Ljust(s: string, width: nat): string {
    if |s| >= width then s else s + Spaces(width - |s|)
  }

  /** One row as it is drawn: its label alone, or its label and note in their columns. */
  function DrawLine(text: string, note: string, width: nat): string {
    if note != "" then Rstrip(Ljust(text, width) + note) else text
  }

  // ---- which lines without a glyph are roots ----

  lemma {:induction false} NoGlyph(line: string)
    requires ' ' !in line
    ensures Segments(line) == 0 && Branch(line).None?
  {
    assert BAR[3] == ' ' && BLANK[3] == ' ' && TEE[3] == ' ' && ELBOW[3] == ' ';
    if |line| >= 4 {
      assert line[..4][3] == line[3] && line[3] in line;
    }
  }

  lemma {:induction false} DropSlash(s: string)
    requires !EndsWith(s, '/')
    ensures DropSlashes(s + "/") == s && DropSlashes(s) == s
  {
    assert (s + "/")[..|s|] == s;
  }

  lemma {:induction false} SingleSpaced(s: string)
    requires forall c :: c in s ==> !IsSpace(c)
    ensures Strip(s) == s && DoubleSpace(s).None? && Rstrip(s) == s
  {
    hide IsSpace;
    forall i | 0 <= i < |s|
      ensures !IsSpace(s[i])
    {
      assert s[i] in s;
    }
    StripIsTrim(s);
  }

  /** A path alone on a line is a root, with or without a slash behind it. */
  lemma {:induction false} PathIsRoot(path: string, word: char -> bool)
    requires path != "" && !EndsWith(path, '/')
    requires forall c :: c in path ==> (word(c) || c in "./-") && !IsSpace(c) && c != '`'
    ensures ReadLine(path, word) == ReadLine(path + "/", word) == Some(Item(0, path, ""))
  {
    hide IsSpace, DoubleSpace, DropSlashes, Rstrip, Strip, Segments, Branch;
    var slashed := path + "/";
    assert !IsSpace('/') by {
      SlashIsNoSpace();
    }
    SpaceIsSpace();
    NoGlyph(path);
    NoGlyph(slashed);
    SingleSpaced(path);
    SingleSpaced(slashed);
    DropSlash(path);
    assert path[0] in path;
  }

  lemma SlashIsNoSpace()
    ensures !IsSpace('/') && !IsSpace('`')
  {
  }

  lemma SpaceIsSpace()
    ensures IsSpace(' ')
  {
  }

  /** Prose is passed over: a line without a glyph and a slash at its end, with anything that no path has. */
  lemma {:induction false} ProseIsNoRoot(raw: string, word: char -> bool, c: char)
    requires Branch(Rstrip(raw)).None? && !EndsWith(Rstrip(raw), '/')
    requires c in Rstrip(raw) && !word(c) && c !in "./-"
    ensures ReadLine(raw, word).None?
  {
  }

  // ---- a drawn line reads back ----

  lemma {:induction false} StemDeepens(stem: string, segment: string)
    requires IsStem(stem) && IsSegment(segment)
    ensures IsStem(stem + segment)
  {
    if stem == "" {
      assert stem + segment == segment && segment[..4] == segment && segment[4..] == "";
    } else {
      StemDeepens(stem[4..], segment);
      assert (stem + segment)[..4] == stem[..4] && (stem + segment)[4..] == stem[4..] + segment;
    }
  }

  lemma {:induction false} StemIsRead(stem: string, glyph: string, rest: string)
    requires IsStem(stem) && IsGlyph(glyph) && rest != ""
    ensures |stem| % 4 == 0 && Segments(stem + glyph + rest) == |stem| / 4
  {
    var line := stem + glyph + rest;
    if stem == "" {
      assert line[..4] == glyph;
      assert TEE[0] == '├' && ELBOW[0] == '└' && BAR[0] == '│' && BLANK[0] == ' ';
    } else {
      StemIsRead(stem[4..], glyph, rest);
      assert line[..4] == stem[..4];
      assert line[4..] == stem[4..] + glyph + rest;
    }
  }

  lemma {:induction false} BranchIsRead(stem: string, glyph: string, rest: string)
    requires IsStem(stem) && IsGlyph(glyph) && rest != ""
    ensures |stem| % 4 == 0 && Branch(stem + glyph + rest) == Some((|stem| / 4, rest))
  {
    hide Segments, IsStem, IsSegment;
    StemIsRead(stem, glyph, rest);
    assert (stem + glyph + rest)[|stem|..] == glyph + rest;
    assert (glyph + rest)[..4] == glyph && (glyph + rest)[4..] == rest;
  }

  lemma {:induction false} DoubleSpaceIsFirst(s: string, i: nat)
    requires i + 1 < |s| && IsSpace(s[i]) && IsSpace(s[i + 1])
    requires forall k :: 0 <= k < i ==> !IsSpace(s[k]) || !IsSpace(s[k + 1])
    ensures DoubleSpace(s) == Some(i)
  {
  }

  /** A name, an optional slash and the note behind its column. */
  function Field(name: string, slash: bool, pad: nat, note: string): string {
    var text := name + if slash then "/" else "";
    if note == "" then text else text + Spaces(pad) + note
  }

  lemma TextIsClean(name: string, slash: bool)
    requires Clean(name) && '/' != name[|name| - 1]
    ensures var text := name + if slash then "/" else "";
            Clean(text) && DropSlashes(text) == name
  {
    var text := name + if slash then "/" else "";
    if slash {
      assert text[..|text| - 1] == name;
    }
    assert forall k :: 0 <= k < |name| ==> text[k] == name[k];
    assert forall k :: 0 <= k < |name| - 1 ==> !IsSpace(name[k]) || !IsSpace(name[k + 1]);
    assert !IsSpace('/') && !IsSpace(text[|text| - 1]) && !IsSpace(text[|name| - 1]);
    assert forall k :: 0 <= k < |text| - 1 ==> !IsSpace(text[k]) || !IsSpace(text[k + 1]);
  }

  lemma FieldIsRead(name: string, slash: bool, pad: nat, note: string)
    requires Clean(name) && '/' != name[|name| - 1] && Trim(note) && pad >= 2
    ensures var field := Field(name, slash, pad, note);
            NameAndNote(field) == (name, note) && Trim(field) && field != ""
  {
    var text := name + if slash then "/" else "";
    TextIsClean(name, slash);
    if note == "" {
      StripIsTrim(text);
    } else {
      NoteIsSplit(text, pad, note);
    }
  }

  lemma BlankIsSpace()
    ensures IsSpace(' ') && !IsSpace('/') && !IsSpace('`')
  {
  }

  lemma NoteIsTrim(text: string, pad: nat, note: string)
    requires Clean(text) && Trim(note) && note != ""
    ensures Trim(text + Spaces(pad) + note) && Strip(text + Spaces(pad) + note) == text + Spaces(pad) + note
  {
    hide IsSpace, Strip, DoubleSpace;
    var field := text + Spaces(pad) + note;
    assert field[0] == text[0] && field[|field| - 1] == note[|note| - 1];
    StripIsTrim(field);
  }

  /** The two spaces before a note are the first two in a row. */
  lemma {:induction false} PadIsFirst(text: string, pad: nat, note: string)
    requires Clean(text) && pad >= 2
    ensures DoubleSpace(text + Spaces(pad) + note) == Some(|text|)
  {
    hide IsSpace, DoubleSpace;
    BlankIsSpace();
    var field := text + Spaces(pad) + note;
    assert forall k :: 0 <= k < |text| ==> field[k] == text[k];
    assert field[|text|] == ' ' && field[|text| + 1] == ' ';
    forall k | 0 <= k < |text|
      ensures !IsSpace(field[k]) || !IsSpace(field[k + 1])
    {
      if k + 1 < |text| {
        assert !IsSpace(text[k]) || !IsSpace(text[k + 1]);
      }
    }
    DoubleSpaceIsFirst(field, |text|);
  }

  lemma NoteIsSplit(text: string, pad: nat, note: string)
    requires Clean(text) && Trim(note) && note != "" && pad >= 2
    ensures var field := text + Spaces(pad) + note;
            && Trim(field) && Strip(field) == field && DoubleSpace(field) == Some(|text|)
            && field[..|text|] == text && Strip(Lstrip(field[|text|..])) == note
  {
    hide IsSpace, Strip, Lstrip, DoubleSpace, Clean, Trim;
    NoteIsTrim(text, pad, note);
    PadIsFirst(text, pad, note);
    assert (text + Spaces(pad) + note)[|text|..] == Spaces(pad) + note;
    LstripPad(pad, note);
    StripIsTrim(note);
  }

  lemma {:induction false} LstripPad(pad: nat, note: string)
    requires note != "" && Trim(note)
    ensures Lstrip(Spaces(pad) + note) == note
  {
    var t := Spaces(pad) + note;
    assert t[pad] == note[0];
    assert forall k :: 0 <= k < pad ==> t[k] == ' ';
  }

  /** How a drawn line is written out: its stem, then the field. */
  lemma DrawnAsField(stem: string, name: string, slash: bool, note: string, width: nat)
    requires Clean(name) && '/' != name[|name| - 1] && Trim(note)
    requires note != "" ==> |stem + name| + (if slash then 1 else 0) + 2 <= width
    ensures var text := stem + name + if slash then "/" else "";
            exists pad :: pad >= 2 && DrawLine(text, note, width) == stem + Field(name, slash, pad, note)
  {
    var text := stem + name + if slash then "/" else "";
    if note == "" {
      assert DrawLine(text, note, width) == stem + Field(name, slash, 2, note);
    } else {
      var pad := width - |text|;
      var line := Ljust(text, width) + note;
      assert line[|line| - 1] == note[|note| - 1];
      assert line == stem + Field(name, slash, pad, note);
    }
  }

  /** An entry drawn below a root reads back as its own level, name and note. */
  lemma {:induction false} EntryReadsBack(stem: string, glyph: string, name: string, slash: bool, note: string, width: nat, word: char -> bool)
    requires IsStem(stem) && IsGlyph(glyph) && Clean(name) && '/' != name[|name| - 1] && Trim(note)
    requires note != "" ==> |stem + glyph + name| + (if slash then 1 else 0) + 2 <= width
    ensures var text := stem + glyph + name + if slash then "/" else "";
            Fields(DrawLine(text, note, width)) == Item(|stem| / 4 + 1, name, note)
    ensures var text := stem + glyph + name + if slash then "/" else "";
            ReadLine(DrawLine(text, note, width), word) == Some(Item(|stem| / 4 + 1, name, note))
  {
    hide Branch, NameAndNote, Field, DrawLine, Rstrip, Clean, Trim;
    DrawnAsField(stem + glyph, name, slash, note, width);
    var text := stem + glyph + name + if slash then "/" else "";
    var pad :| pad >= 2 && DrawLine(text, note, width) == stem + glyph + Field(name, slash, pad, note);
    var field := Field(name, slash, pad, note);
    FieldIsRead(name, slash, pad, note);
    BranchIsRead(stem, glyph, field);
    BranchIsSolid(stem, glyph, field);
  }

  lemma {:induction false} BranchIsSolid(stem: string, glyph: string, field: string)
    requires IsStem(stem) && IsGlyph(glyph) && Trim(field) && field != ""
    ensures var line := stem + glyph + field;
            Rstrip(line) == line && line != "" && !("```" <= line)
  {
    var line := stem + glyph + field;
    assert line[|line| - 1] == field[|field| - 1];
    assert line[0] == if stem == "" then glyph[0] else stem[..4][0];
    assert TEE[0] == '├' && ELBOW[0] == '└' && BAR[0] == '│' && BLANK[0] == ' ';
  }

  /** A root's own path: clean, not ending in a slash, and not taken for a fence or a branch. */
  predicate RootName(name: string) {
    && Clean(name) && name[|name| - 1] != '/'
    && name[0] !in "`│├└"
  }

  /** A drawn root reads back exactly when its note is empty or ends in a slash. */
  lemma RootReadsBack(name: string, note: string, width: nat, word: char -> bool)
    requires RootName(name) && Trim(note) && (forall c :: IsSpace(c) ==> !word(c))
    requires note != "" ==> |name| + 3 <= width
    ensures Fields(DrawLine(name + "/", note, width)) == Item(0, name, note)
    ensures ReadLine(DrawLine(name + "/", note, width), word)
            == if note == "" || EndsWith(note, '/') then Some(Item(0, name, note)) else None
  {
    hide Branch, NameAndNote, DrawLine, IsSpace, DoubleSpace, Rootish, EndsWith;
    DrawnAsField("", name, true, note, width);
    assert "" + name + "/" == name + "/";
    var pad :| pad >= 2 && DrawLine(name + "/", note, width) == "" + Field(name, true, pad, note);
    var line := Field(name, true, pad, note);
    assert "" + line == line;
    FieldIsRead(name, true, pad, note);
    assert Rstrip(line) == line && line[0] == name[0];
    PlainIsNoBranch(line);
    RootishWhen(name, note, pad, word);
  }

  lemma RootishWhen(name: string, note: string, pad: nat, word: char -> bool)
    requires (forall c :: IsSpace(c) ==> !word(c)) && pad >= 2
    ensures Rootish(Field(name, true, pad, note), word) <==> note == "" || EndsWith(note, '/')
  {
    var line := Field(name, true, pad, note);
    if note == "" {
      assert line[|line| - 1] == '/';
    } else {
      assert line[|line| - 1] == note[|note| - 1];
      BlankIsSpace();
      assert line[|name| + 1] == ' ' && line[|name| + 1] in line;
    }
  }

  lemma PlainIsNoBranch(line: string)
    requires line != "" && !IsSpace(line[0]) && line[0] !in "`│├└"
    ensures Branch(line) == None && !("```" <= line)
  {
    if |line| >= 4 {
      assert line[0] == line[..4][0];
      assert BAR[0] == '│' && BLANK[0] == ' ' && TEE[0] == '├' && ELBOW[0] == '└';
    }
    assert Segments(line) == 0;
    assert line[4 * Segments(line)..] == line;
  }

  lemma FenceIsSkipped(word: char -> bool)
    ensures ReadLine("```", word) == None && ReadLine("", word) == None
  {
    assert Rstrip("```") == "```";
  }
}
