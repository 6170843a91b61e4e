/**
 * The iCalendar export of a booking: escaping of TEXT values (section
 * 3.3.11 of RFC 5545), the mapping of booking statuses onto the event
 * STATUS property (section 3.8.1.11), the event UID, the date-time form
 * and the lines of the generated calendar.
 */
module CalendarService {
  import opened Common
  import opened Strings
  import opened Models

  // ---------------------------------------------------------------- escaping

  /** `s.replace(c, rep)` for a one-character `c`: every occurrence, left to right. */
  function ReplaceChar(s: string, c: char, rep: string): (r: string)
    ensures c !in s ==> r == s
    decreases |s|
  {
    if |s| == 0 then ""
    else (if s[0] == c then rep else [s[0]]) + ReplaceChar(s[1..], c, rep)
  }

  lemma {:induction false} ReplaceCharConcat(a: string, b: string, c: char, rep: string)
    ensures ReplaceChar(a + b, c, rep) == ReplaceChar(a, c, rep) + ReplaceChar(b, c, rep)
    decreases |a|
  {
    if |a| > 0 {
      assert (a + b)[0] == a[0];
      assert (a + b)[1..] == a[1..] + b;
      ReplaceCharConcat(a[1..], b, c, rep);
    } else {
      assert a + b == b;
    }
  }

  /** `_escape_ical_text`: backslash first, then comma, semicolon and newline. */
  function EscapeIcalText(text: string): string {
    var t1 := ReplaceChar(text, '\\', "\\\\");
    var t2 := ReplaceChar(t1, ',', "\\,");
    var t3 := ReplaceChar(t2, ';', "\\;");
    ReplaceChar(t3, '\n', "\\n")
  }

  predicate Special(c: char) {
    c == '\\' || c == ',' || c == ';' || c == '\n'
  }

  /** The escape of one character, as section 3.3.11 of RFC 5545 writes it. */
  function EscapeChar(c: char): (r: string)
    ensures Special(c) ==> |r| == 2 && r[0] == '\\'
    ensures !Special(c) ==> r == [c]
  {
    if c == '\\' then "\\\\"
    else if c == ',' then "\\,"
    else if c == ';' then "\\;"
    else if c == '\n' then "\\n"
    else [c]
  }

  /** The character-by-character escape. */
  function EscapeEach(s: string): string
    decreases |s|
  {
    if |s| == 0 then "" else EscapeChar(s[0]) + EscapeEach(s[1..])
  }

  /**
   * The four chained replacements are one pass over the characters: because
   * the backslash goes first, no later replacement touches a backslash an
   * earlier one inserted, and none inserts a character a later one replaces.
   */
  lemma {:induction false} EscapeIsOnePass(s: string)
    ensures EscapeIcalText(s) == EscapeEach(s)
    decreases |s|
  {
    if |s| > 0 {
      EscapeIsOnePass(s[1..]);
      assert s == [s[0]] + s[1..];
      EscapeConcat([s[0]], s[1..]);
      EscapeOneChar(s[0]);
    }
  }

  /** The chained replacements distribute over concatenation. */
  lemma EscapeConcat(a: string, b: string)
    ensures EscapeIcalText(a + b) == EscapeIcalText(a) + EscapeIcalText(b)
  {
    ReplaceCharConcat(a, b, '\\', "\\\\");
    var a1, b1 := ReplaceChar(a, '\\', "\\\\"), ReplaceChar(b, '\\', "\\\\");
    ReplaceCharConcat(a1, b1, ',', "\\,");
    var a2, b2 := ReplaceChar(a1, ',', "\\,"), ReplaceChar(b1, ',', "\\,");
    ReplaceCharConcat(a2, b2, ';', "\\;");
    var a3, b3 := ReplaceChar(a2, ';', "\\;"), ReplaceChar(b2, ';', "\\;");
    ReplaceCharConcat(a3, b3, '\n', "\\n");
  }

  /** On one character the chained replacements give that character's escape. */
  lemma EscapeOneChar(x: char)
    ensures EscapeIcalText([x]) == EscapeChar(x)
  {
    var h1 := ReplaceChar([x], '\\', "\\\\");
    assert h1 == if x == '\\' then "\\\\" else [x];
    var h2 := ReplaceChar(h1, ',', "\\,");
    var h3 := ReplaceChar(h2, ';', "\\;");
    if x == '\\' {
      assert h2 == h1 && h3 == h1;
    } else if x == ',' {
      assert h2 == "\\,";
      assert h3 == h2;
    } else if x == ';' {
      assert h2 == [x];
    }
  }

  /** A left-to-right reading of escapes: `\\`, `\,`, `\;` and `\n` each stand for one character. */
  function Unescape(s: string): string
    decreases |s|
  {
    if |s| == 0 then ""
    else if |s| >= 2 && s[0] == '\\' && (s[1] == '\\' || s[1] == ',' || s[1] == ';' || s[1] == 'n') then
      [if s[1] == 'n' then '\n' else s[1]] + Unescape(s[2..])
    else [s[0]] + Unescape(s[1..])
  }

  /** Unescaping the escaped text gives the text back. */
  lemma {:induction false} UnescapeEscape(s: string)
    ensures Unescape(EscapeIcalText(s)) == s
  {
    EscapeIsOnePass(s);
    UnescapeEach(s);
  }

  lemma {:induction false} UnescapeEach(s: string)
    ensures Unescape(EscapeEach(s)) == s
    decreases |s|
  {
    if |s| > 0 {
      UnescapeEach(s[1..]);
      var e := EscapeEach(s);
      var h := EscapeChar(s[0]);
      assert e == h + EscapeEach(s[1..]);
      if Special(s[0]) {
        assert e[2..] == EscapeEach(s[1..]);
      } else {
        assert e[1..] == EscapeEach(s[1..]);
      }
    }
  }

  function CountSpecial(s: string): nat
    decreases |s|
  {
    if |s| == 0 then 0 else (if Special(s[0]) then 1 else 0) + CountSpecial(s[1..])
  }

  /**
   * What the escaped text looks like: one extra character per special one,
   * no raw newline, every comma and semicolon right after a backslash, and
   * text without special characters left as it is.
   */
  lemma {:induction false} EscapeShape(s: string)
    ensures var e := EscapeIcalText(s);
      |e| == |s| + CountSpecial(s) &&
      (forall i :: 0 <= i < |e| ==> e[i] != '\n') &&
      (forall i :: 0 <= i < |e| && (e[i] == ',' || e[i] == ';') ==> i > 0 && e[i - 1] == '\\') &&
      ((forall i :: 0 <= i < |s| ==> !Special(s[i])) ==> e == s)
  {
    EscapeIsOnePass(s);
    EscapeEachShape(s);
  }

  lemma EscapeEachShape(s: string)
    ensures var e := EscapeEach(s);
      |e| == |s| + CountSpecial(s) &&
      (forall i :: 0 <= i < |e| ==> e[i] != '\n') &&
      (forall i :: 0 <= i < |e| && (e[i] == ',' || e[i] == ';') ==> i > 0 && e[i - 1] == '\\') &&
      ((forall i :: 0 <= i < |s| ==> !Special(s[i])) ==> e == s)
  {
    EscapeEachLength(s);
    EscapeEachNoNewline(s);
    EscapeEachGuarded(s);
    if forall i :: 0 <= i < |s| ==> !Special(s[i]) {
      EscapeEachPlain(s);
    }
  }

  lemma {:induction false} EscapeEachLength(s: string)
    ensures |EscapeEach(s)| == |s| + CountSpecial(s)
    decreases |s|
  {
    if |s| > 0 {
      EscapeEachLength(s[1..]);
    }
  }

  lemma {:induction false} EscapeEachNoNewline(s: string)
    ensures forall i :: 0 <= i < |EscapeEach(s)| ==> EscapeEach(s)[i] != '\n'
    decreases |s|
  {
    if |s| > 0 {
      EscapeEachNoNewline(s[1..]);
      NoNewlineConcat(EscapeChar(s[0]), EscapeEach(s[1..]));
    }
  }

  lemma NoNewlineConcat(h: string, t: string)
    requires forall i :: 0 <= i < |h| ==> h[i] != '\n'
    requires forall i :: 0 <= i < |t| ==> t[i] != '\n'
    ensures forall i :: 0 <= i < |h + t| ==> (h + t)[i] != '\n'
  {
  }

  /** Every comma or semicolon of the escaped text follows a backslash, and none comes first. */
  lemma {:induction false} EscapeEachGuarded(s: string)
    ensures var e := EscapeEach(s);
      (forall i :: 0 <= i < |e| && (e[i] == ',' || e[i] == ';') ==> i > 0 && e[i - 1] == '\\') &&
      (|e| > 0 ==> e[0] != ',' && e[0] != ';')
    decreases |s|
  {
    if |s| > 0 {
      EscapeEachGuarded(s[1..]);
      GuardedConcat(EscapeChar(s[0]), EscapeEach(s[1..]));
    }
  }

  lemma GuardedConcat(h: string, t: string)
    requires |h| == 1 ==> h[0] != ',' && h[0] != ';'
    requires |h| == 2 ==> h[0] == '\\'
    requires 1 <= |h| <= 2
    requires forall i :: 0 <= i < |t| && (t[i] == ',' || t[i] == ';') ==> i > 0 && t[i - 1] == '\\'
    requires |t| > 0 ==> t[0] != ',' && t[0] != ';'
    ensures var e := h + t;
      (forall i :: 0 <= i < |e| && (e[i] == ',' || e[i] == ';') ==> i > 0 && e[i - 1] == '\\') &&
      (|e| > 0 ==> e[0] != ',' && e[0] != ';')
  {
    var e := h + t;
    forall i | 0 <= i < |e| && (e[i] == ',' || e[i] == ';') ensures i > 0 && e[i - 1] == '\\' {
      if i >= |h| {
        assert e[i] == t[i - |h|];
      }
    }
  }

  /** Text without special characters is left as it is. */
  lemma {:induction false} EscapeEachPlain(s: string)
    requires forall i :: 0 <= i < |s| ==> !Special(s[i])
    ensures EscapeEach(s) == s
    decreases |s|
  {
    if |s| > 0 {
      assert forall i :: 0 <= i < |s[1..]| ==> !Special(s[1..][i]) by {
        forall i | 0 <= i < |s[1..]| ensures !Special(s[1..][i]) {
          assert s[1..][i] == s[i + 1];
        }
      }
      EscapeEachPlain(s[1..]);
      assert s == [s[0]] + s[1..];
    }
  }

  // ------------------------------------------------------------------ status

  const ICAL_TENTATIVE := "TENTATIVE"
  const ICAL_CONFIRMED := "CONFIRMED"
  const ICAL_CANCELLED := "CANCELLED"

  /** `status_map.get(booking.status, 'CONFIRMED')`. */
  function IcalStatus(status: string): (r: string)
    ensures status == STATUS_PENDING ==> r == ICAL_TENTATIVE
    ensures status == STATUS_CONFIRMED ==> r == ICAL_CONFIRMED
    ensures status == STATUS_COMPLETED ==> r == ICAL_CONFIRMED
    ensures status == STATUS_CANCELLED ==> r == ICAL_CANCELLED
    ensures status !in VALID_STATUSES ==> r == ICAL_CONFIRMED
  {
    if status == STATUS_PENDING then ICAL_TENTATIVE
    else if status == STATUS_CANCELLED then ICAL_CANCELLED
    else ICAL_CONFIRMED
  }

  /** The event is tentative only for a pending booking and cancelled only for a cancelled one. */
  lemma IcalStatusCases(status: string)
    ensures IcalStatus(status) in {ICAL_TENTATIVE, ICAL_CONFIRMED, ICAL_CANCELLED}
    ensures IcalStatus(status) == ICAL_TENTATIVE <==> status == STATUS_PENDING
    ensures IcalStatus(status) == ICAL_CANCELLED <==> status == STATUS_CANCELLED
    ensures IcalStatus(status) == ICAL_CONFIRMED <==> status != STATUS_PENDING && status != STATUS_CANCELLED
  {
  }

  // --------------------------------------------------------------------- uid

  const UID_PREFIX := "booking-"
  const UID_SUFFIX := "@campus-resource-hub"

  /** `f"booking-{booking.id}@campus-resource-hub"`. */
  function Uid(bookingId: int): (u: string)
    ensures |u| == |UID_PREFIX| + |IntToString(bookingId)| + |UID_SUFFIX|
    ensures u[..|UID_PREFIX|] == UID_PREFIX
    ensures u[|UID_PREFIX|..|u| - |UID_SUFFIX|] == IntToString(bookingId)
    ensures u[|u| - |UID_SUFFIX|..] == UID_SUFFIX
  {
    UID_PREFIX + IntToString(bookingId) + UID_SUFFIX
  }

  /** Distinct bookings get distinct UIDs. */
  lemma UidInjective(a: int, b: int)
    ensures Uid(a) == Uid(b) <==> a == b
  {
    if Uid(a) == Uid(b) {
      var ua := Uid(a);
      assert |IntToString(a)| == |IntToString(b)|;
      assert ua[|UID_PREFIX|..|ua| - |UID_SUFFIX|] == IntToString(b);
      IntToStringInjective(a, b);
    }
  }

  // --------------------------------------------------------------- date-time

  /** The fields of a naive `datetime` that `strftime('%Y%m%dT%H%M%S')` renders. */
  datatype DateTime = DateTime(year: int, month: int, day: int, hour: int, minute: int, second: int)

  /** The ranges Python's `datetime` keeps its fields in. */
  predicate ValidDateTime(d: DateTime) {
    1 <= d.year <= 9999 && 1 <= d.month <= 12 && 1 <= d.day <= 31 &&
    0 <= d.hour <= 23 && 0 <= d.minute <= 59 && 0 <= d.second <= 59
  }

  lemma TwoDigits(n: nat)
    requires n < 100
    ensures |NatToString(n)| <= 2
  {
    NatToStringLength(n, 2, Pow10(2));
  }

  lemma FourDigits(n: nat)
    requires n < 10000
    ensures |NatToString(n)| <= 4
  {
    assert Pow10(4) == 10000;
    NatToStringLength(n, 4, Pow10(4));
  }

  /** `strftime('%Y%m%dT%H%M%S')`: fifteen characters, a `T` in the middle and no zone suffix. */
  function FormatIcalDateTime(d: DateTime): (r: string)
    requires ValidDateTime(d)
    ensures |r| == 15 && r[8] == 'T'
    ensures forall i :: 0 <= i < 15 && i != 8 ==> IsDigit(r[i])
    ensures 'Z' !in r
  {
    FourDigits(d.year);
    TwoDigits(d.month);
    TwoDigits(d.day);
    TwoDigits(d.hour);
    TwoDigits(d.minute);
    TwoDigits(d.second);
    var r := PadNat(d.year, 4) + PadNat(d.month, 2) + PadNat(d.day, 2) + "T" +
      PadNat(d.hour, 2) + PadNat(d.minute, 2) + PadNat(d.second, 2);
    assert forall i :: 0 <= i < 15 && i != 8 ==> IsDigit(r[i]);
    r
  }

  /** Reading the fields back from their positions. */
  function ParseIcalDateTime(s: string): DateTime
    requires |s| == 15 && forall i :: 0 <= i < 15 && i != 8 ==> IsDigit(s[i])
  {
    DateTime(ParseDigits(s[0..4]), ParseDigits(s[4..6]), ParseDigits(s[6..8]),
      ParseDigits(s[9..11]), ParseDigits(s[11..13]), ParseDigits(s[13..15]))
  }

  /** Where each field sits in `%Y%m%dT%H%M%S`. */
  lemma FieldsAtPositions(y: string, mo: string, d: string, h: string, mi: string, sec: string)
    requires |y| == 4 && |mo| == 2 && |d| == 2 && |h| == 2 && |mi| == 2 && |sec| == 2
    ensures var r := y + mo + d + "T" + h + mi + sec;
      r[0..4] == y && r[4..6] == mo && r[6..8] == d && r[9..11] == h && r[11..13] == mi && r[13..15] == sec
  {
    var r := y + mo + d + "T" + h + mi + sec;
    var date := y + mo + d + "T";
    assert r == date + (h + mi + sec);
    assert date[0..4] == y && date[4..6] == mo && date[6..8] == d;
    assert (h + mi + sec)[0..2] == h && (h + mi + sec)[2..4] == mi && (h + mi + sec)[4..6] == sec;
  }

  /** The rendering loses nothing: every field is read back from its place. */
  lemma FormatParseRoundTrip(d: DateTime)
    requires ValidDateTime(d)
    ensures ParseIcalDateTime(FormatIcalDateTime(d)) == d
  {
    var r := FormatIcalDateTime(d);
    FourDigits(d.year);
    TwoDigits(d.month);
    TwoDigits(d.day);
    TwoDigits(d.hour);
    TwoDigits(d.minute);
    TwoDigits(d.second);
    FieldsAtPositions(PadNat(d.year, 4), PadNat(d.month, 2), PadNat(d.day, 2),
      PadNat(d.hour, 2), PadNat(d.minute, 2), PadNat(d.second, 2));
    PadNatParse(d.year, 4);
    PadNatParse(d.month, 2);
    PadNatParse(d.day, 2);
    PadNatParse(d.hour, 2);
    PadNatParse(d.minute, 2);
    PadNatParse(d.second, 2);
  }

  // ---------------------------------------------------------------- calendar

  /** What `generate_ical` reads of the booking and its resource; the description is given. */
  datatype IcalInput = IcalInput(
    bookingId: int,
    status: string,
    resourceName: string,
    resourceLocation: Option<string>,
    description: string,
    stamp: DateTime,
    start: DateTime,
    end: DateTime)

  predicate ValidInput(x: IcalInput) {
    ValidDateTime(x.stamp) && ValidDateTime(x.start) && ValidDateTime(x.end)
  }

  const APP_NAME := "Campus Resource Hub"
  const ORGANIZER_EMAIL := "noreply@campus-resource-hub.edu"

  /** The lines before the event: the calendar's own properties. */
  const CALENDAR_HEADER: seq<string> := [
    "BEGIN:VCALENDAR",
    "VERSION:2.0",
    "PRODID:-//" + APP_NAME + "//Booking System//EN",
    "CALSCALE:GREGORIAN",
    "METHOD:PUBLISH",
    "BEGIN:VEVENT"]

  /** The event's identity and times. */
  function EventTimes(x: IcalInput): (lines: seq<string>)
    requires ValidInput(x)
    ensures |lines| == 4
  {
    [ "UID:" + Uid(x.bookingId),
      "DTSTAMP:" + FormatIcalDateTime(x.stamp),
      "DTSTART:" + FormatIcalDateTime(x.start),
      "DTEND:" + FormatIcalDateTime(x.end) ]
  }

  /** The event's text properties, the summary first; a resource without a location gets the hub's name. */
  function EventText(x: IcalInput, summary: string): (lines: seq<string>)
    ensures |lines| == 6
  {
    var location := OrStr(x.resourceLocation, APP_NAME);
    [ "SUMMARY:" + summary,
      "DESCRIPTION:" + EscapeIcalText(x.description),
      "LOCATION:" + EscapeIcalText(location),
      "STATUS:" + IcalStatus(x.status),
      "ORGANIZER;CN=" + APP_NAME + ":mailto:" + ORGANIZER_EMAIL,
      "SEQUENCE:0" ]
  }

  /** The reminder an hour before the start. */
  function AlarmLines(summary: string): (lines: seq<string>)
    ensures |lines| == 5
  {
    [ "BEGIN:VALARM",
      "TRIGGER:-PT1H",
      "DESCRIPTION:Booking reminder: " + summary,
      "ACTION:DISPLAY",
      "END:VALARM" ]
  }

  const CALENDAR_FOOTER: seq<string> := ["END:VEVENT", "END:VCALENDAR"]

  /** The 23 lines of the calendar, with the summary inserted as `summary` says. */
  function CalendarLines(x: IcalInput, summary: string): (lines: seq<string>)
    requires ValidInput(x)
    ensures |lines| == 23
  {
    CALENDAR_HEADER + EventTimes(x) + EventText(x, summary) + AlarmLines(summary) + CALENDAR_FOOTER
  }

  /** The first and last lines, and the two lines that carry the summary. */
  lemma CalendarLinesAt(x: IcalInput, summary: string)
    requires ValidInput(x)
    ensures var lines := CalendarLines(x, summary);
      lines[0] == "BEGIN:VCALENDAR" && lines[22] == "END:VCALENDAR" &&
      lines[10] == "SUMMARY:" + summary &&
      lines[18] == "DESCRIPTION:Booking reminder: " + summary
  {
    var text := EventText(x, summary);
    PartsAt(CALENDAR_HEADER, EventTimes(x), text, AlarmLines(summary), CALENDAR_FOOTER);
    assert text[0] == "SUMMARY:" + summary;
    assert AlarmLines(summary)[2] == "DESCRIPTION:Booking reminder: " + summary;
    assert CALENDAR_HEADER[0] == "BEGIN:VCALENDAR";
    assert CALENDAR_FOOTER[1] == "END:VCALENDAR";
  }

  lemma PartsAt(head: seq<string>, times: seq<string>, text: seq<string>, alarm: seq<string>, foot: seq<string>)
    requires |head| == 6 && |times| == 4 && |text| == 6 && |alarm| == 5 && |foot| == 2
    ensures var lines := head + times + text + alarm + foot;
      lines[0] == head[0] && lines[10] == text[0] && lines[18] == alarm[2] && lines[22] == foot[1]
  {
  }

  function Summary(x: IcalInput): string {
    x.resourceName + " - Booking"
  }

  /** `generate_ical` as written: the summary goes into the file unescaped. */
  function GenerateIcal(x: IcalInput): string
    requires ValidInput(x)
  {
    Strip(Join(CalendarLines(x, Summary(x)), '\n'))
  }

  /** The closing `.strip()` changes nothing: the text starts with `B` and ends with `R`. */
  lemma StripKeepsCalendar(lines: seq<string>)
    requires |lines| >= 1 && |lines[0]| > 0 && lines[0][0] == 'B'
    requires |lines[|lines| - 1]| > 0 && lines[|lines| - 1][|lines[|lines| - 1]| - 1] == 'R'
    ensures Strip(Join(lines, '\n')) == Join(lines, '\n')
  {
    var j := Join(lines, '\n');
    JoinLast(lines, '\n');
    assert j[0] == 'B';
    TrimLeftNoSpace(j);
    TrimRightNoSpace(j);
  }

  /** No line of `lines` holds a newline. */
  predicate LinesFree(lines: seq<string>) {
    forall k :: 0 <= k < |lines| ==> '\n' !in lines[k]
  }

  lemma LinesFreeConcat(a: seq<string>, b: seq<string>)
    requires LinesFree(a) && LinesFree(b)
    ensures LinesFree(a + b)
  {
    forall k | 0 <= k < |a + b| ensures '\n' !in (a + b)[k] {
      if k >= |a| { assert (a + b)[k] == b[k - |a|]; }
    }
  }

  lemma FourLinesFree(a: string, b: string, c: string, d: string)
    requires '\n' !in a && '\n' !in b && '\n' !in c && '\n' !in d
    ensures LinesFree([a, b, c, d])
  {
  }

  lemma SixLinesFree(a: string, b: string, c: string, d: string, e: string, f: string)
    requires '\n' !in a && '\n' !in b && '\n' !in c && '\n' !in d && '\n' !in e && '\n' !in f
    ensures LinesFree([a, b, c, d, e, f])
  {
  }

  lemma ProdIdFree()
    ensures '\n' !in "PRODID:-//" + APP_NAME + "//Booking System//EN"
  {
    NoNewlineAfterPrefix("PRODID:-//", APP_NAME);
    NoNewlineAfterPrefix("PRODID:-//" + APP_NAME, "//Booking System//EN");
  }

  lemma HeaderFree()
    ensures LinesFree(CALENDAR_HEADER)
  {
    ProdIdFree();
    SixLinesFree("BEGIN:VCALENDAR", "VERSION:2.0", "PRODID:-//" + APP_NAME + "//Booking System//EN",
      "CALSCALE:GREGORIAN", "METHOD:PUBLISH", "BEGIN:VEVENT");
  }

  lemma FooterFree()
    ensures LinesFree(CALENDAR_FOOTER)
  {
  }

  lemma OrganizerFree()
    ensures '\n' !in "ORGANIZER;CN=" + APP_NAME + ":mailto:" + ORGANIZER_EMAIL
  {
    AppNameFree();
    EmailFree();
    PrefixesFree();
    FourPartsFree("ORGANIZER;CN=", APP_NAME, ":mailto:", ORGANIZER_EMAIL);
  }

  lemma AppNameFree()
    ensures '\n' !in APP_NAME
  {
  }

  lemma EmailFree()
    ensures '\n' !in ORGANIZER_EMAIL
  {
  }

  lemma PrefixesFree()
    ensures '\n' !in "ORGANIZER;CN=" && '\n' !in ":mailto:"
  {
  }

  lemma FourPartsFree(a: string, b: string, c: string, d: string)
    requires '\n' !in a && '\n' !in b && '\n' !in c && '\n' !in d
    ensures '\n' !in a + b + c + d
  {
    NoNewlineAfterPrefix(a, b);
    NoNewlineAfterPrefix(a + b, c);
    NoNewlineAfterPrefix(a + b + c, d);
  }

  lemma EventTimesFree(x: IcalInput)
    requires ValidInput(x)
    ensures LinesFree(EventTimes(x))
  {
    UidNoNewline(x.bookingId);
    DateTimeNoNewline(x.stamp);
    DateTimeNoNewline(x.start);
    DateTimeNoNewline(x.end);
    NoNewlineAfterPrefix("UID:", Uid(x.bookingId));
    NoNewlineAfterPrefix("DTSTAMP:", FormatIcalDateTime(x.stamp));
    NoNewlineAfterPrefix("DTSTART:", FormatIcalDateTime(x.start));
    NoNewlineAfterPrefix("DTEND:", FormatIcalDateTime(x.end));
    FourLinesFree("UID:" + Uid(x.bookingId), "DTSTAMP:" + FormatIcalDateTime(x.stamp),
      "DTSTART:" + FormatIcalDateTime(x.start), "DTEND:" + FormatIcalDateTime(x.end));
  }

  lemma EventTextFree(x: IcalInput, summary: string)
    requires '\n' !in summary
    ensures LinesFree(EventText(x, summary))
  {
    var location := OrStr(x.resourceLocation, APP_NAME);
    EscapedFieldsFree(x);
    OrganizerFree();
    NoNewlineAfterPrefix("SUMMARY:", summary);
    StatusLineFree(x.status);
    SixLinesFree("SUMMARY:" + summary, "DESCRIPTION:" + EscapeIcalText(x.description),
      "LOCATION:" + EscapeIcalText(location), "STATUS:" + IcalStatus(x.status),
      "ORGANIZER;CN=" + APP_NAME + ":mailto:" + ORGANIZER_EMAIL, "SEQUENCE:0");
  }

  /** The DESCRIPTION and LOCATION lines carry escaped text. */
  lemma EscapedFieldsFree(x: IcalInput)
    ensures '\n' !in "DESCRIPTION:" + EscapeIcalText(x.description)
    ensures '\n' !in "LOCATION:" + EscapeIcalText(OrStr(x.resourceLocation, APP_NAME))
  {
    var location := OrStr(x.resourceLocation, APP_NAME);
    EscapeNoNewline(x.description);
    EscapeNoNewline(location);
    NoNewlineAfterPrefix("DESCRIPTION:", EscapeIcalText(x.description));
    NoNewlineAfterPrefix("LOCATION:", EscapeIcalText(location));
  }

  lemma StatusLineFree(status: string)
    ensures '\n' !in "STATUS:" + IcalStatus(status)
  {
    IcalStatusCases(status);
    NoNewlineAfterPrefix("STATUS:", IcalStatus(status));
  }

  lemma EscapeNoNewline(s: string)
    ensures '\n' !in EscapeIcalText(s)
  {
    EscapeShape(s);
  }

  lemma AlarmLinesFree(summary: string)
    requires '\n' !in summary
    ensures LinesFree(AlarmLines(summary))
  {
    NoNewlineAfterPrefix("DESCRIPTION:Booking reminder: ", summary);
  }

  /** The lines of a calendar whose summary has no newline: only the summary may carry one. */
  lemma LinesFreeOfNewline(x: IcalInput, summary: string)
    requires ValidInput(x) && '\n' !in summary
    ensures LinesFree(CalendarLines(x, summary))
  {
    HeaderFree();
    FooterFree();
    EventTimesFree(x);
    EventTextFree(x, summary);
    AlarmLinesFree(summary);
    var a := CALENDAR_HEADER + EventTimes(x);
    var b := a + EventText(x, summary);
    var c := b + AlarmLines(summary);
    LinesFreeConcat(CALENDAR_HEADER, EventTimes(x));
    LinesFreeConcat(a, EventText(x, summary));
    LinesFreeConcat(b, AlarmLines(summary));
    LinesFreeConcat(c, CALENDAR_FOOTER);
  }

  lemma NoNewlineAfterPrefix(prefix: string, s: string)
    requires '\n' !in prefix && '\n' !in s
    ensures '\n' !in prefix + s
  {
  }

  lemma DateTimeNoNewline(d: DateTime)
    requires ValidDateTime(d)
    ensures '\n' !in FormatIcalDateTime(d)
  {
    var r := FormatIcalDateTime(d);
    forall i | 0 <= i < |r| ensures r[i] != '\n' {
      if i != 8 { assert IsDigit(r[i]); }
    }
  }

  lemma UidNoNewline(id: int)
    ensures '\n' !in Uid(id)
  {
    var s := IntToString(id);
    assert '\n' !in s by {
      forall i | 0 <= i < |s| ensures s[i] != '\n' {
        if i > 0 { assert IsDigit(s[i]); }
      }
    }
    assert Uid(id) == UID_PREFIX + s + UID_SUFFIX;
  }

  /**
   * As written, the file reads back as its 23 lines exactly when the
   * resource name has no newline: a newline in the name splits the SUMMARY
   * line (and the alarm's DESCRIPTION line) in two.
   */
  lemma IcalLinesAsWritten(x: IcalInput)
    requires ValidInput(x)
    ensures Split(GenerateIcal(x), '\n') == CalendarLines(x, Summary(x)) <==> '\n' !in x.resourceName
  {
    if '\n' !in x.resourceName {
      ReadsBackWithoutNewline(x);
    } else {
      var k :| 0 <= k < |x.resourceName| && x.resourceName[k] == '\n';
      NewlineBreaksSummary(x, k);
    }
  }

  lemma ReadsBackWithoutNewline(x: IcalInput)
    requires ValidInput(x) && '\n' !in x.resourceName
    ensures Split(GenerateIcal(x), '\n') == CalendarLines(x, Summary(x))
  {
    var lines := CalendarLines(x, Summary(x));
    CalendarLinesAt(x, Summary(x));
    assert Summary(x) == x.resourceName + " - Booking";
    LinesFreeOfNewline(x, Summary(x));
    StripKeepsCalendar(lines);
    SplitJoin(lines, '\n');
  }

  lemma NewlineBreaksSummary(x: IcalInput, k: int)
    requires ValidInput(x) && 0 <= k < |x.resourceName| && x.resourceName[k] == '\n'
    ensures Split(GenerateIcal(x), '\n') != CalendarLines(x, Summary(x))
  {
    var lines := CalendarLines(x, Summary(x));
    CalendarLinesAt(x, Summary(x));
    NewlineInside("SUMMARY:", x.resourceName, " - Booking", k);
    SplitNeverNewline(GenerateIcal(x), lines, 10);
  }

  lemma NewlineInside(a: string, b: string, c: string, k: int)
    requires 0 <= k < |b| && b[k] == '\n'
    ensures '\n' in a + (b + c)
  {
    assert (a + (b + c))[|a| + k] == b[k];
  }

  /** No part of a split holds the separator, so lines with a newline are never what a split gives. */
  lemma SplitNeverNewline(text: string, lines: seq<string>, i: int)
    requires 0 <= i < |lines| && '\n' in lines[i]
    ensures Split(text, '\n') != lines
  {
  }

  /** A resource called "Lab\nRoom" gives a calendar that does not read back as its lines. */
  lemma IcalSummaryNotEscaped(x: IcalInput)
    requires ValidInput(x) && x.resourceName == "Lab\nRoom"
    ensures Split(GenerateIcal(x), '\n') != CalendarLines(x, Summary(x))
  {
    assert x.resourceName[3] == '\n';
    IcalLinesAsWritten(x);
  }

  /** `GenerateIcal` with the summary escaped like the description and the location. */
  function GenerateIcalEscaped(x: IcalInput): string
    requires ValidInput(x)
  {
    Strip(Join(CalendarLines(x, EscapeIcalText(Summary(x))), '\n'))
  }

  /** With the summary escaped the file is the 23 lines whatever the resource is called. */
  lemma IcalLinesEscaped(x: IcalInput)
    requires ValidInput(x)
    ensures Split(GenerateIcalEscaped(x), '\n') == CalendarLines(x, EscapeIcalText(Summary(x)))
    ensures CalendarLines(x, EscapeIcalText(Summary(x)))[10] == "SUMMARY:" + EscapeIcalText(Summary(x))
    ensures Unescape(EscapeIcalText(Summary(x))) == Summary(x)
  {
    var summary := EscapeIcalText(Summary(x));
    EscapeShape(Summary(x));
    var lines := CalendarLines(x, summary);
    CalendarLinesAt(x, summary);
    LinesFreeOfNewline(x, summary);
    StripKeepsCalendar(lines);
    SplitJoin(lines, '\n');
    UnescapeEscape(Summary(x));
  }
}
