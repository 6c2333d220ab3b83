/** Reading a date-time of section 5.6 of RFC 3339 back as unix seconds. */
module Timestamps {
  import opened Calendar
  import opened Options

  // ---- the string operations the parser is made of ----

  /** The index of the first character that is one of `cs`. */
  function Find(s: string, cs: set<char>): (i: Option<nat>)
    ensures i.Some? ==> i.value < |s|
  {
    if s == "" then None
    else if s[0] in cs then Some(0)
    else
      var rest := Find(s[1..], cs);
      if rest.Some? then Some(rest.value + 1) else None
  }

  /** The parts of `s` between the separators. */
  function Split(s: string, c: char): (parts: seq<string>)
    ensures parts != []
    decreases |s|
  {
    var i := Find(s, {c});
    if i.None? then [s] else [s[..i.value]] + Split(s[i.value + 1..], c)
  }

  function PartOr(parts: seq<string>, k: nat, default: string): string {
    if k < |parts| then parts[k] else default
  }

  predicate IsDigit(c: char) {
    '0' <= c <= '9'
  }

  predicate AllDigits(s: string) {
    s == "" || (IsDigit(s[|s| - 1]) && AllDigits(s[..|s| - 1]))
  }

  function Digits(s: string): int
    requires AllDigits(s)
  {
    if s == "" then 0 else Digits(s[..|s| - 1]) * 10 + (s[|s| - 1] as int - '0' as int)
  }

  predicate InI64(n: int) {
    -0x8000_0000_0000_0000 <= n < 0x8000_0000_0000_0000
  }

  /** A signed 64-bit number: an optional sign, then at least one digit, and no overflow. */
  function ParseI64(s: string): Option<int> {
    var signed := s != "" && (s[0] == '+' || s[0] == '-');
    var body := if signed then s[1..] else s;
    if body == "" || !AllDigits(body) then None
    else
      var n := if signed && s[0] == '-' then -Digits(body) else Digits(body);
      if InI64(n) then Some(n) else None
  }

  /** Part `k` as a number; one that is left out reads as `0` when that is allowed. */
  function ParsePart(parts: seq<string>, k: nat, optional: bool): Option<int> {
    if k >= |parts| && !optional then None else ParseI64(PartOr(parts, k, "0"))
  }

  /** `Z`, or a sign and `HH[:MM]`, as seconds ahead of UTC. */
  function ZoneOffset(zone: string): Option<int> {
    if zone == "" then None
    else if zone[0] == 'Z' then Some(0)
    else
      var parts := Split(zone[1..], ':');
      var hours, minutes := ParsePart(parts, 0, false), ParsePart(parts, 1, true);
      if hours.None? || minutes.None? then None
      else Some((if zone[0] == '-' then -1 else 1) * (hours.value * 3600 + minutes.value * 60))
  }

  /** `YYYY-MM-DD` as days. */
  function DateDays(date: string): Option<int> {
    var parts := Split(date, '-');
    var year, month, day := ParsePart(parts, 0, false), ParsePart(parts, 1, false), ParsePart(parts, 2, false);
    if year.None? || month.None? || day.None? then None
    else Some(DaysFromCivil(year.value, month.value, day.value))
  }

  /** `HH:MM[:SS]` as seconds. */
  function TimeSeconds(time: string): Option<int> {
    var parts := Split(time, ':');
    var hour, minute, second := ParsePart(parts, 0, false), ParsePart(parts, 1, false), ParsePart(parts, 2, true);
    if hour.None? || minute.None? || second.None? then None
    else Some(hour.value * 3600 + minute.value * 60 + second.value)
  }

  datatype Pieces = Pieces(date: string, time: string, zone: string)

  /** The date is what precedes the `T`, the zone starts at its sign, and a fraction is dropped. */
  function Cut(stamp: string): Option<Pieces> {
    var t := Find(stamp, {'T'});
    if t.None? then None else CutTime(stamp[..t.value], stamp[t.value + 1..])
  }

  function CutTime(date: string, rest: string): Option<Pieces> {
    var zoneAt := Find(rest, {'+', '-', 'Z'});
    if zoneAt.None? then None
    else Some(Pieces(date, CutFraction(rest[..zoneAt.value]), rest[zoneAt.value..]))
  }

  function CutFraction(time: string): string {
    var dot := Find(time, {'.'});
    if dot.Some? then time[..dot.value] else time
  }

  function UnixSeconds(stamp: string): Option<int> {
    var cut := Cut(stamp);
    if cut.None? then None else ReadPieces(cut.value)
  }

  function ReadPieces(p: Pieces): Option<int> {
    var days, seconds, offset := DateDays(p.date), TimeSeconds(p.time), ZoneOffset(p.zone);
    if days.None? || seconds.None? || offset.None? then None
    else Some(days.value * 86400 + seconds.value - offset.value)
  }

  // ---- what is printed ----

  datatype Zone = Utc | Offset(negative: bool, hours: nat, minutes: nat)

  /** A date-time: leap seconds (`:60`) and any number of fraction digits included. */
  datatype Stamp = Stamp(date: Date, hour: nat, minute: nat, second: nat, fraction: string, zone: Zone)

  predicate ValidStamp(t: Stamp) {
    && ValidDate(t.date) && 0 <= t.date.year <= 9999
    && t.hour <= 23 && t.minute <= 59 && t.second <= 60
    && AllDigits(t.fraction)
    && (t.zone.Offset? ==> t.zone.hours <= 23 && t.zone.minutes <= 59)
  }

  function Digit(n: nat): (c: char)
    requires n <= 9
    ensures IsDigit(c) && c as int - '0' as int == n
  {
    (n + '0' as int) as char
  }

  function Two(n: nat): string
    requires n <= 99
  {
    [Digit(n / 10), Digit(n % 10)]
  }

  function Four(n: nat): string
    requires n <= 9999
  {
    Two(n / 100) + Two(n % 100)
  }

  function PrintZone(z: Zone): string
    requires z.Offset? ==> z.hours <= 23 && z.minutes <= 59
  {
    match z
    case Utc => "Z"
    case Offset(negative, hours, minutes) => (if negative then "-" else "+") + (Two(hours) + (":" + Two(minutes)))
  }

  function PrintDate(d: Date): string
    requires ValidDate(d) && 0 <= d.year <= 9999
  {
    Four(d.year) + ("-" + (Two(d.month) + ("-" + Two(d.day))))
  }

  function PrintTime(t: Stamp): string
    requires ValidStamp(t)
  {
    Two(t.hour) + (":" + (Two(t.minute) + (":" + Two(t.second))))
  }

  function Print(t: Stamp): string
    requires ValidStamp(t)
  {
    PrintDate(t.date) + ("T" + (PrintTime(t) + PrintFraction(t) + PrintZone(t.zone)))
  }

  /** How far the local time is ahead of UTC, in seconds. */
  function OffsetOf(z: Zone): int {
    match z
    case Utc => 0
    case Offset(negative, hours, minutes) => if negative then -(hours * 3600 + minutes * 60) else hours * 3600 + minutes * 60
  }

  /** The unix second a date-time names, by the calendar. */
  ghost function Instant(t: Stamp): int
    requires ValidStamp(t)
  {
    DayCount(t.date) * 86400 + t.hour * 3600 + t.minute * 60 + t.second
      - OffsetOf(t.zone)
  }

  // ---- reading back ----

  ghost predicate Free(s: string, cs: set<char>) {
    forall k :: 0 <= k < |s| ==> s[k] !in cs
  }

  lemma {:induction false} FindAfter(a: string, b: string, cs: set<char>)
    requires Free(a, cs) && b != "" && b[0] in cs
    ensures Find(a + b, cs) == Some(|a|)
  {
    if a == "" {
      assert a + b == b;
    } else {
      assert (a + b)[1..] == a[1..] + b;
      FindAfter(a[1..], b, cs);
    }
  }

  lemma {:induction false} FindNone(a: string, cs: set<char>)
    requires Free(a, cs)
    ensures Find(a, cs) == None
  {
    if a != "" {
      FindNone(a[1..], cs);
    }
  }

  lemma {:induction false} SplitFirst(a: string, c: char, b: string)
    requires Free(a, {c})
    ensures Split(a + ([c] + b), c) == [a] + Split(b, c)
    ensures Split(a, c) == [a]
  {
    FindNone(a, {c});
    FindAfter(a, [c] + b, {c});
    assert (a + ([c] + b))[..|a|] == a && (a + ([c] + b))[|a| + 1..] == b;
  }

  lemma {:induction false} OneMoreDigit(s: string, d: nat)
    requires d <= 9 && AllDigits(s)
    ensures AllDigits(s + [Digit(d)]) && Digits(s + [Digit(d)]) == Digits(s) * 10 + d
  {
    assert (s + [Digit(d)])[..|s|] == s;
  }

  lemma TwoParses(n: nat)
    requires n <= 99
    ensures ParseI64(Two(n)) == Some(n) && AllDigits(Two(n)) && Digits(Two(n)) == n
    ensures Free(Two(n), {'T', '-', ':', '+', 'Z', '.'})
  {
    var s := Two(n);
    OneMoreDigit("", n / 10);
    OneMoreDigit([Digit(n / 10)], n % 10);
    assert "" + [Digit(n / 10)] == [Digit(n / 10)] && [Digit(n / 10)] + [Digit(n % 10)] == s;
  }

  lemma FourParses(n: nat)
    requires n <= 9999
    ensures ParseI64(Four(n)) == Some(n)
    ensures Free(Four(n), {'T', '-', ':', '+', 'Z', '.'})
  {
    var s := Four(n);
    TwoParses(n / 100);
    var two := Two(n / 100);
    OneMoreDigit(two, n % 100 / 10);
    OneMoreDigit(two + [Digit(n % 100 / 10)], n % 100 % 10);
    assert two + [Digit(n % 100 / 10)] + [Digit(n % 100 % 10)] == s;
  }

  /** Three parts between two separators. */
  lemma {:induction false} SplitThree(a: string, b: string, c: string, sep: char)
    requires Free(a, {sep}) && Free(b, {sep}) && Free(c, {sep})
    ensures Split(a + ([sep] + (b + ([sep] + c))), sep) == [a, b, c]
  {
    SplitFirst(a, sep, b + ([sep] + c));
    SplitFirst(b, sep, c);
    SplitFirst(c, sep, "");
  }

  lemma {:induction false} DateReads(date: string, y: string, m: string, d: string, year: int, month: int, day: int)
    requires Split(date, '-') == [y, m, d]
    requires ParseI64(y) == Some(year) && ParseI64(m) == Some(month) && ParseI64(d) == Some(day)
    ensures DateDays(date) == Some(DaysFromCivil(year, month, day))
  {
  }

  lemma DateParses(d: Date)
    requires ValidDate(d) && 0 <= d.year <= 9999
    ensures DateDays(PrintDate(d)) == Some(DayCount(d))
  {
    FourParses(d.year);
    TwoParses(d.month);
    TwoParses(d.day);
    SplitThree(Four(d.year), Two(d.month), Two(d.day), '-');
    DateReads(PrintDate(d), Four(d.year), Two(d.month), Two(d.day), d.year, d.month, d.day);
    ClosedFormCounts(d);
  }

  lemma {:induction false} TimeReads(time: string, h: string, m: string, s: string, hour: int, minute: int, second: int)
    requires Split(time, ':') == [h, m, s]
    requires ParseI64(h) == Some(hour) && ParseI64(m) == Some(minute) && ParseI64(s) == Some(second)
    ensures TimeSeconds(time) == Some(hour * 3600 + minute * 60 + second)
  {
  }

  lemma TimeParses(t: Stamp)
    requires ValidStamp(t)
    ensures TimeSeconds(PrintTime(t)) == Some(t.hour * 3600 + t.minute * 60 + t.second)
  {
    TwoParses(t.hour);
    TwoParses(t.minute);
    TwoParses(t.second);
    SplitThree(Two(t.hour), Two(t.minute), Two(t.second), ':');
    TimeReads(PrintTime(t), Two(t.hour), Two(t.minute), Two(t.second), t.hour, t.minute, t.second);
  }

  lemma ZoneParses(z: Zone)
    requires z.Offset? ==> z.hours <= 23 && z.minutes <= 59
    ensures ZoneOffset(PrintZone(z)) == Some(OffsetOf(z))
  {
    if z.Offset? {
      TwoParses(z.hours);
      TwoParses(z.minutes);
      assert PrintZone(z)[1..] == Two(z.hours) + (":" + Two(z.minutes));
      SplitFirst(Two(z.hours), ':', Two(z.minutes));
      SplitFirst(Two(z.minutes), ':', "");
    }
  }

  function PrintFraction(t: Stamp): string {
    if t.fraction == "" then "" else "." + t.fraction
  }

  lemma FractionCut(time: string, fraction: string)
    requires Free(time, {'.'})
    ensures CutFraction(time + (if fraction == "" then "" else "." + fraction)) == time
  {
    if fraction != "" {
      FindAfter(time, "." + fraction, {'.'});
    } else {
      assert time + "" == time;
      FindNone(time, {'.'});
    }
  }

  lemma ZoneCut(date: string, head: string, zone: string)
    requires Free(head, {'+', '-', 'Z'}) && zone != "" && zone[0] in {'+', '-', 'Z'}
    ensures CutTime(date, head + zone) == Some(Pieces(date, CutFraction(head), zone))
  {
    FindAfter(head, zone, {'+', '-', 'Z'});
    assert (head + zone)[..|head|] == head && (head + zone)[|head|..] == zone;
  }

  lemma DateCut(date: string, rest: string)
    requires Free(date, {'T'})
    ensures Cut(date + ("T" + rest)) == CutTime(date, rest)
  {
    var stamp := date + ("T" + rest);
    FindAfter(date, "T" + rest, {'T'});
    assert stamp[..|date|] == date && stamp[|date| + 1..] == rest;
  }

  /** What the parser looks for in a stamp is not to be found any earlier. */
  lemma DateIsFree(d: Date)
    requires ValidDate(d) && 0 <= d.year <= 9999
    ensures Free(PrintDate(d), {'T'})
  {
    FourParses(d.year);
    TwoParses(d.month);
    TwoParses(d.day);
  }

  lemma {:induction false} DigitsAreFree(s: string)
    requires AllDigits(s)
    ensures Free(s, {'+', '-', 'Z'})
  {
    if s != "" {
      DigitsAreFree(s[..|s| - 1]);
    }
  }

  lemma TimeIsFree(t: Stamp)
    requires ValidStamp(t)
    ensures Free(PrintTime(t), {'.'}) && Free(PrintTime(t) + PrintFraction(t), {'+', '-', 'Z'})
  {
    DigitsAreFree(t.fraction);
    TwoParses(t.hour);
    TwoParses(t.minute);
    TwoParses(t.second);
  }

  lemma PrintedCut(t: Stamp)
    requires ValidStamp(t)
    ensures Cut(Print(t)) == Some(Pieces(PrintDate(t.date), PrintTime(t), PrintZone(t.zone)))
  {
    var date, time, fraction, zone := PrintDate(t.date), PrintTime(t), PrintFraction(t), PrintZone(t.zone);
    DateIsFree(t.date);
    TimeIsFree(t);
    PiecesCut(date, time, t.fraction, zone);
  }

  lemma PiecesCut(date: string, time: string, fraction: string, zone: string)
    requires Free(date, {'T'}) && Free(time, {'.'})
    requires zone != "" && zone[0] in {'+', '-', 'Z'}
    requires Free(time + (if fraction == "" then "" else "." + fraction), {'+', '-', 'Z'})
    ensures Cut(date + ("T" + (time + (if fraction == "" then "" else "." + fraction) + zone))) == Some(Pieces(date, time, zone))
  {
    var head := time + if fraction == "" then "" else "." + fraction;
    FractionCut(time, fraction);
    ZoneCut(date, head, zone);
    DateCut(date, head + zone);
  }

  /** Any printed date-time, with any fraction and any offset, reads back as exactly its unix second. */
  lemma PrintedParses(t: Stamp)
    requires ValidStamp(t)
    ensures UnixSeconds(Print(t)) == Some(Instant(t))
  {
    PrintedCut(t);
    PrintedReads(t);
  }

  lemma PrintedReads(t: Stamp)
    requires ValidStamp(t)
    ensures ReadPieces(Pieces(PrintDate(t.date), PrintTime(t), PrintZone(t.zone))) == Some(Instant(t))
  {
    hide DateDays, TimeSeconds, ZoneOffset, PrintDate, PrintTime, PrintZone, DayCount, OffsetOf, ValidDate, AllDigits;
    DateParses(t.date);
    TimeParses(t);
    ZoneParses(t.zone);
  }

  // ---- what may be left out, and what may not ----

  /** To the minute, and with an offset of whole hours. */
  function PrintShort(t: Stamp): string
    requires ValidStamp(t)
  {
    PrintDate(t.date) + ("T" + (Two(t.hour) + (":" + Two(t.minute)) + PrintHours(t.zone)))
  }

  function PrintHours(z: Zone): string
    requires z.Offset? ==> z.hours <= 23
  {
    match z
    case Utc => "Z"
    case Offset(negative, hours, _) => (if negative then "-" else "+") + Two(hours)
  }

  /** Seconds that are left out are none, and so are the minutes of an offset. */
  lemma ShortParses(t: Stamp)
    requires ValidStamp(t) && t.second == 0 && t.fraction == "" && (t.zone.Offset? ==> t.zone.minutes == 0)
    ensures UnixSeconds(PrintShort(t)) == Some(Instant(t))
  {
    hide PrintShort, Cut, ReadPieces, PrintDate, PrintHours, Two, ValidDate, AllDigits, Instant;
    ShortCut(t);
    ShortReads(t);
  }

  lemma ShortReads(t: Stamp)
    requires ValidStamp(t) && t.second == 0 && (t.zone.Offset? ==> t.zone.minutes == 0)
    ensures ReadPieces(Pieces(PrintDate(t.date), Two(t.hour) + (":" + Two(t.minute)), PrintHours(t.zone))) == Some(Instant(t))
  {
    hide DateDays, TimeSeconds, ZoneOffset, PrintDate, PrintHours, DayCount, OffsetOf, ValidDate, AllDigits, Two;
    DateParses(t.date);
    MinutesParse(t.hour, t.minute);
    HoursParse(t.zone);
  }

  lemma ShortCut(t: Stamp)
    requires ValidStamp(t)
    ensures Cut(PrintShort(t)) == Some(Pieces(PrintDate(t.date), Two(t.hour) + (":" + Two(t.minute)), PrintHours(t.zone)))
  {
    var time := Two(t.hour) + (":" + Two(t.minute));
    DateIsFree(t.date);
    TwoParses(t.hour);
    TwoParses(t.minute);
    assert time + "" == time;
    PiecesCut(PrintDate(t.date), time, "", PrintHours(t.zone));
  }

  lemma {:induction false} MinutesParse(hour: nat, minute: nat)
    requires hour <= 23 && minute <= 59
    ensures TimeSeconds(Two(hour) + (":" + Two(minute))) == Some(hour * 3600 + minute * 60)
  {
    TwoParses(hour);
    TwoParses(minute);
    NoneIsNought();
    SplitFirst(Two(hour), ':', Two(minute));
    SplitFirst(Two(minute), ':', "");
  }

  lemma {:induction false} HoursParse(z: Zone)
    requires z.Offset? ==> z.hours <= 23 && z.minutes == 0
    ensures ZoneOffset(PrintHours(z)) == Some(OffsetOf(z))
  {
    if z.Offset? {
      TwoParses(z.hours);
      NoneIsNought();
      assert PrintHours(z)[1..] == Two(z.hours);
      SplitFirst(Two(z.hours), ':', "");
    }
  }

  lemma {:induction false} NoneIsNought()
    ensures ParseI64("0") == Some(0)
  {
    assert AllDigits("") && Digits("") == 0 && "0"[..0] == "";
  }

  /** Without a `T`, or without a zone after it, there is no time to read. */
  lemma NoTimeNoZone(date: string, rest: string)
    requires Free(date, {'T'})
    ensures UnixSeconds(date).None?
    ensures Free(rest, {'+', '-', 'Z'}) ==> UnixSeconds(date + ("T" + rest)).None?
  {
    FindNone(date, {'T'});
    DateCut(date, rest);
    if Free(rest, {'+', '-', 'Z'}) {
      FindNone(rest, {'+', '-', 'Z'});
    }
  }

  /** A number is an optional sign and digits, and within 64 bits. */
  lemma {:induction false} NumbersRead(sign: string, digits: string)
    requires sign in ["", "+", "-"] && digits != "" && AllDigits(digits)
    ensures var n := if sign == "-" then -Digits(digits) else Digits(digits);
            ParseI64(sign + digits) == if -0x8000_0000_0000_0000 <= n <= 0x7fff_ffff_ffff_ffff then Some(n) else None
  {
    if sign == "" {
      assert sign + digits == digits;
      FirstIsDigit(digits);
    } else {
      assert (sign + digits)[1..] == digits;
    }
  }

  /** And nothing else is one. */
  lemma OnlyNumbersRead(s: string) returns (sign: string, digits: string)
    requires ParseI64(s).Some?
    ensures s == sign + digits && sign in ["", "+", "-"] && digits != "" && AllDigits(digits)
  {
    if s != "" && (s[0] == '+' || s[0] == '-') {
      sign, digits := s[..1], s[1..];
      assert sign == [s[0]];
    } else {
      sign, digits := "", s;
    }
  }

  lemma {:induction false} FirstIsDigit(s: string)
    requires s != "" && AllDigits(s)
    ensures IsDigit(s[0])
  {
    if |s| > 1 {
      FirstIsDigit(s[..|s| - 1]);
    }
  }

  /** One instant printed under two offsets reads back as one number, and two instants as two. */
  lemma OffsetsAgree(t: Stamp, u: Stamp)
    requires ValidStamp(t) && ValidStamp(u)
    ensures UnixSeconds(Print(t)) == UnixSeconds(Print(u)) <==> Instant(t) == Instant(u)
  {
    PrintedParses(t);
    PrintedParses(u);
  }
}
