/**
 * Calendar feed of an agency, one all-day event a package. It is read back by splitting at CRLF and
 * undoing the escaping of text values (section 3.3.11 of RFC 5545).
 */
module CalendarFeed {
  import opened Basics

  const ICS_LINE_BREAK := "\r\n"
  const CALENDAR_UID_DOMAIN := "oumra-hadj-project.local"
  const PRODUCT := "-//Oumra-Hadj Platform" + "//Calendrier Agence//FR"

  // ---------------------------------------------------------------- text values

  /** `value.replace(/c/g, replacement)` */
  function ReplaceAll(s: string, c: char, replacement: string): string {
    if s == "" then "" else (if s[0] == c then replacement else [s[0]]) + ReplaceAll(s[1..], c, replacement)
  }

  function EscapeIcsText(value: string): string {
    ReplaceAll(ReplaceAll(ReplaceAll(ReplaceAll(value, '\\', "\\\\"), ',', "\\,"), ';', "\\;"), '\n', "\\n")
  }

  function EscapeChar(c: char): string {
    if c == '\\' then "\\\\"
    else if c == ',' then "\\,"
    else if c == ';' then "\\;"
    else if c == '\n' then "\\n"
    else [c]
  }

  function EscapeEach(s: string): string {
    if s == "" then "" else EscapeChar(s[0]) + EscapeEach(s[1..])
  }

  function Unescape(s: string): string {
    if s == "" then ""
    else if s[0] == '\\' && |s| > 1 then
      (if s[1] == 'n' || s[1] == 'N' then "\n" else [s[1]]) + Unescape(s[2..])
    else [s[0]] + Unescape(s[1..])
  }

  lemma {:induction false} ReplaceConcat(a: string, b: string, c: char, replacement: string)
    ensures ReplaceAll(a + b, c, replacement) == ReplaceAll(a, c, replacement) + ReplaceAll(b, c, replacement)
  {
    if a == "" {
      assert a + b == b;
    } else {
      assert (a + b)[1..] == a[1..] + b;
      ReplaceConcat(a[1..], b, c, replacement);
    }
  }

  lemma ReplaceOne(x: char, c: char, replacement: string)
    ensures ReplaceAll([x], c, replacement) == if x == c then replacement else [x]
  {
    assert [x][1..] == "";
  }

  lemma ReplaceTwo(x: char, y: char, c: char, replacement: string)
    requires x != c && y != c
    ensures ReplaceAll([x, y], c, replacement) == [x, y]
  {
    assert [x, y] == [x] + [y];
    ReplaceConcat([x], [y], c, replacement);
    ReplaceOne(x, c, replacement);
    ReplaceOne(y, c, replacement);
  }

  /** What the four replacements make of one character. */
  lemma EscapeOne(x: char)
    ensures EscapeIcsText([x]) == EscapeChar(x)
  {
    ReplaceOne(x, '\\', "\\\\");
    if x == '\\' {
      ReplaceTwo('\\', '\\', ',', "\\,");
      ReplaceTwo('\\', '\\', ';', "\\;");
      ReplaceTwo('\\', '\\', '\n', "\\n");
    } else {
      ReplaceOne(x, ',', "\\,");
      if x == ',' {
        ReplaceTwo('\\', ',', ';', "\\;");
        ReplaceTwo('\\', ',', '\n', "\\n");
      } else {
        ReplaceOne(x, ';', "\\;");
        if x == ';' {
          ReplaceTwo('\\', ';', '\n', "\\n");
        } else {
          ReplaceOne(x, '\n', "\\n");
        }
      }
    }
  }

  lemma EscapeConcat(a: string, b: string)
    ensures EscapeIcsText(a + b) == EscapeIcsText(a) + EscapeIcsText(b)
  {
    hide ReplaceAll;
    var a1, b1 := ReplaceAll(a, '\\', "\\\\"), ReplaceAll(b, '\\', "\\\\");
    var a2, b2 := ReplaceAll(a1, ',', "\\,"), ReplaceAll(b1, ',', "\\,");
    var a3, b3 := ReplaceAll(a2, ';', "\\;"), ReplaceAll(b2, ';', "\\;");
    ReplaceConcat(a, b, '\\', "\\\\");
    ReplaceConcat(a1, b1, ',', "\\,");
    ReplaceConcat(a2, b2, ';', "\\;");
    ReplaceConcat(a3, b3, '\n', "\\n");
  }

  lemma EscapeNothing()
    ensures EscapeIcsText("") == ""
  {
  }

  /** The four successive replacements are one map on characters: backslashes they add are never escaped again. */
  lemma {:induction false} EscapingIsPerCharacter(s: string)
    ensures EscapeIcsText(s) == EscapeEach(s)
  {
    hide EscapeIcsText;
    if s == "" {
      EscapeNothing();
    } else {
      assert s == [s[0]] + s[1..];
      EscapeConcat([s[0]], s[1..]);
      EscapeOne(s[0]);
      EscapingIsPerCharacter(s[1..]);
    }
  }

  lemma {:induction false} UnescapeEach(s: string)
    ensures Unescape(EscapeEach(s)) == s
  {
    if s != "" {
      UnescapeEach(s[1..]);
      var head, tail := EscapeChar(s[0]), EscapeEach(s[1..]);
      assert (head + tail)[|head|..] == tail;
      assert s == [s[0]] + s[1..];
    }
  }

  /** Escaping loses nothing. */
  lemma EscapeRoundTrip(s: string)
    ensures Unescape(EscapeIcsText(s)) == s
  {
    EscapingIsPerCharacter(s);
    UnescapeEach(s);
  }

  // ---------------------------------------------------------------- lines

  /** A line may hold any character but a line feed. */
  predicate IsLine(s: string) {
    '\n' !in s
  }

  predicate AreLines(lines: seq<string>) {
    forall i | 0 <= i < |lines| :: IsLine(lines[i])
  }

  lemma {:induction false} EscapedIsLine(s: string)
    ensures IsLine(EscapeEach(s))
  {
    if s != "" {
      EscapedIsLine(s[1..]);
    }
  }

  /** Splitting at every CRLF. */
  function Split(s: string): (r: seq<string>)
    ensures |r| >= 1
  {
    if s == "" then [""]
    else if ICS_LINE_BREAK <= s then [""] + Split(s[2..])
    else var r := Split(s[1..]); [[s[0]] + r[0]] + r[1..]
  }

  lemma {:induction false} SplitLine(line: string, rest: string)
    requires IsLine(line)
    ensures Split(line + ICS_LINE_BREAK + rest) == [line] + Split(rest)
  {
    var s := line + ICS_LINE_BREAK + rest;
    if line == "" {
      assert s[2..] == rest;
    } else {
      assert s[1..] == line[1..] + ICS_LINE_BREAK + rest;
      SplitLine(line[1..], rest);
      assert s[1] != '\n';
      assert [line[0]] + line[1..] == line;
    }
  }

  lemma {:induction false} SplitLast(line: string)
    requires IsLine(line)
    ensures Split(line) == [line]
  {
    if line != "" {
      SplitLast(line[1..]);
      assert [line[0]] + line[1..] == line;
    }
  }

  /** Splitting gives back the lines that were joined. */
  lemma {:induction false} SplitJoin(lines: seq<string>)
    requires lines != [] && AreLines(lines)
    ensures Split(Join(lines, ICS_LINE_BREAK)) == lines
  {
    if |lines| == 1 {
      SplitLast(lines[0]);
    } else {
      SplitJoin(lines[1..]);
      SplitLine(lines[0], Join(lines[1..], ICS_LINE_BREAK));
      assert lines == [lines[0]] + lines[1..];
    }
  }

  // ---------------------------------------------------------------- the feed

  /** `start` and `end` are the printed dates, `end` being the day after the last one. */
  datatype Package = Package(id: string, title: string, start: string, end: string)

  function EventLines(p: Package, dtstamp: string): seq<string> {
    ["BEGIN:VEVENT",
     "UID:" + p.id + "@" + CALENDAR_UID_DOMAIN,
     "DTSTAMP:" + dtstamp,
     "DTSTART;VALUE=DATE:" + p.start,
     "DTEND;VALUE=DATE:" + p.end,
     "SUMMARY:" + EscapeIcsText(p.title),
     "END:VEVENT"]
  }

  function ToIcsEvent(p: Package, dtstamp: string): string {
    Join(EventLines(p, dtstamp), ICS_LINE_BREAK)
  }

  function Events(packages: seq<Package>, dtstamp: string): seq<string> {
    if packages == [] then [] else [ToIcsEvent(packages[0], dtstamp)] + Events(packages[1..], dtstamp)
  }

  function Heading(legalName: string): seq<string> {
    ["BEGIN:VCALENDAR",
     "VERSION:2.0",
     "PRODID:" + PRODUCT,
     "CALSCALE:GREGORIAN",
     "X-WR-CALNAME:" + EscapeIcsText("Échéances clés — " + legalName)]
  }

  function GetAgencyFeed(legalName: string, packages: seq<Package>, dtstamp: string): string {
    Join(Heading(legalName) + Events(packages, dtstamp) + ["END:VCALENDAR"], ICS_LINE_BREAK)
  }

  function AllEventLines(packages: seq<Package>, dtstamp: string): seq<string> {
    if packages == [] then [] else EventLines(packages[0], dtstamp) + AllEventLines(packages[1..], dtstamp)
  }

  lemma {:induction false} JoinConcat(a: seq<string>, b: seq<string>)
    requires a != [] && b != []
    ensures Join(a + b, ICS_LINE_BREAK) == Join(a, ICS_LINE_BREAK) + ICS_LINE_BREAK + Join(b, ICS_LINE_BREAK)
  {
    if |a| == 1 {
      assert (a + b)[1..] == b;
    } else {
      assert (a + b)[1..] == a[1..] + b;
      JoinConcat(a[1..], b);
      assert a[0] + ICS_LINE_BREAK + (Join(a[1..], ICS_LINE_BREAK) + ICS_LINE_BREAK + Join(b, ICS_LINE_BREAK)) ==
             (a[0] + ICS_LINE_BREAK + Join(a[1..], ICS_LINE_BREAK)) + ICS_LINE_BREAK + Join(b, ICS_LINE_BREAK);
    }
  }

  /** Joining events that are themselves joined lines is joining all the lines. */
  lemma {:induction false} JoinEvents(packages: seq<Package>, dtstamp: string, tail: seq<string>)
    requires tail != []
    ensures Join(Events(packages, dtstamp) + tail, ICS_LINE_BREAK) == Join(AllEventLines(packages, dtstamp) + tail, ICS_LINE_BREAK)
  {
    hide EventLines;
    if packages == [] {
    } else {
      var event := EventLines(packages[0], dtstamp);
      var others := Events(packages[1..], dtstamp) + tail;
      var lines := AllEventLines(packages[1..], dtstamp) + tail;
      JoinEvents(packages[1..], dtstamp, tail);
      assert Events(packages, dtstamp) + tail == [Join(event, ICS_LINE_BREAK)] + others;
      assert AllEventLines(packages, dtstamp) + tail == event + lines;
      JoinConcat([Join(event, ICS_LINE_BREAK)], others);
      EventHasLines(packages[0], dtstamp);
      JoinConcat(event, lines);
    }
  }

  lemma EventHasLines(p: Package, dtstamp: string)
    ensures |EventLines(p, dtstamp)| == 7
  {
  }

  predicate PrintsOnLines(packages: seq<Package>, dtstamp: string) {
    IsLine(dtstamp) && forall i | 0 <= i < |packages| ::
      IsLine(packages[i].id) && IsLine(packages[i].start) && IsLine(packages[i].end)
  }

  /** None of the fixed texts of an event holds a line feed. */
  lemma EventTextsAreLines()
    ensures IsLine("BEGIN:VEVENT") && IsLine("UID:") && IsLine("@") && IsLine(CALENDAR_UID_DOMAIN) && IsLine("DTSTAMP:")
    ensures IsLine("DTSTART;VALUE=DATE:") && IsLine("DTEND;VALUE=DATE:") && IsLine("SUMMARY:") && IsLine("END:VEVENT")
  {
  }

  lemma HeadingTextsAreLines()
    ensures IsLine("BEGIN:VCALENDAR") && IsLine("VERSION:2.0") && IsLine("CALSCALE:GREGORIAN") && IsLine("X-WR-CALNAME:")
  {
  }

  lemma ProductIsLine()
    ensures IsLine(PRODUCT)
  {
    var owner, feed := "-//Oumra-Hadj Platform", "//Calendrier Agence//FR";
    assert IsLine(owner) && IsLine(feed);
  }

  lemma EventIsLines(p: Package, dtstamp: string)
    requires IsLine(dtstamp) && IsLine(p.id) && IsLine(p.start) && IsLine(p.end)
    ensures AreLines(EventLines(p, dtstamp))
  {
    EscapingIsPerCharacter(p.title);
    EscapedIsLine(p.title);
    hide EscapeIcsText;
    EventTextsAreLines();
  }

  lemma {:induction false} EventsAreLines(packages: seq<Package>, dtstamp: string)
    requires PrintsOnLines(packages, dtstamp)
    ensures |AllEventLines(packages, dtstamp)| == 7 * |packages|
    ensures AreLines(AllEventLines(packages, dtstamp))
    ensures forall i | 0 <= i < |packages| ::
              AllEventLines(packages, dtstamp)[7 * i..7 * i + 7] == EventLines(packages[i], dtstamp)
  {
    hide EventLines, IsLine;
    if packages != [] {
      var event, rest := EventLines(packages[0], dtstamp), AllEventLines(packages[1..], dtstamp);
      EventIsLines(packages[0], dtstamp);
      EventHasLines(packages[0], dtstamp);
      EventsAreLines(packages[1..], dtstamp);
      forall i | 0 <= i < |packages|
        ensures AllEventLines(packages, dtstamp)[7 * i..7 * i + 7] == EventLines(packages[i], dtstamp)
      {
        if i > 0 {
          assert rest[7 * (i - 1)..7 * (i - 1) + 7] == EventLines(packages[1..][i - 1], dtstamp);
          assert (event + rest)[7 * i..7 * i + 7] == rest[7 * (i - 1)..7 * (i - 1) + 7];
        } else {
          assert (event + rest)[0..7] == event;
        }
      }
    }
  }

  lemma HeadingIsLines(legalName: string)
    ensures |Heading(legalName)| == 5 && AreLines(Heading(legalName))
  {
    var name := "Échéances clés — " + legalName;
    EscapingIsPerCharacter(name);
    EscapedIsLine(name);
    hide EscapeIcsText;
    HeadingTextsAreLines();
    ProductIsLine();
    assert IsLine("PRODID:");
  }

  /**
   * Split at CRLF, the feed is the heading, then the seven lines of each package in order, then the
   * end line: 6 + 7n lines, whatever characters the titles contain.
   */
  lemma FeedLines(legalName: string, packages: seq<Package>, dtstamp: string)
    requires PrintsOnLines(packages, dtstamp)
    ensures var lines := Split(GetAgencyFeed(legalName, packages, dtstamp));
            && |lines| == 6 + 7 * |packages|
            && lines[..5] == Heading(legalName) && lines[|lines| - 1] == "END:VCALENDAR"
            && forall i | 0 <= i < |packages| :: lines[5 + 7 * i..12 + 7 * i] == EventLines(packages[i], dtstamp)
  {
    hide Split, Heading, EventLines, IsLine;
    var heading, events, end := Heading(legalName), AllEventLines(packages, dtstamp), ["END:VCALENDAR"];
    HeadingIsLines(legalName);
    EventsAreLines(packages, dtstamp);
    EndIsLine();
    var lines := heading + (events + end);
    assert heading + Events(packages, dtstamp) + end == heading + (Events(packages, dtstamp) + end);
    JoinConcat(heading, Events(packages, dtstamp) + end);
    JoinEvents(packages, dtstamp, end);
    JoinConcat(heading, events + end);
    SplitJoin(lines);
    forall i | 0 <= i < |packages| ensures lines[5 + 7 * i..12 + 7 * i] == EventLines(packages[i], dtstamp) {
      assert lines[5 + 7 * i..12 + 7 * i] == events[7 * i..7 * i + 7];
    }
  }

  lemma EndIsLine()
    ensures IsLine("END:VCALENDAR")
  {
  }

  /** A calendar client reads back every title exactly. */
  lemma TitlesReadBack(legalName: string, packages: seq<Package>, dtstamp: string, i: nat)
    requires PrintsOnLines(packages, dtstamp) && i < |packages|
    ensures var lines := Split(GetAgencyFeed(legalName, packages, dtstamp));
            && |lines| == 6 + 7 * |packages| && "SUMMARY:" <= lines[10 + 7 * i]
            && Unescape(lines[10 + 7 * i][8..]) == packages[i].title
  {
    hide Split, GetAgencyFeed, EscapeIcsText, Unescape;
    FeedLines(legalName, packages, dtstamp);
    var lines := Split(GetAgencyFeed(legalName, packages, dtstamp));
    assert lines[10 + 7 * i] == lines[5 + 7 * i..12 + 7 * i][5];
    assert lines[10 + 7 * i] == "SUMMARY:" + EscapeIcsText(packages[i].title);
    assert lines[10 + 7 * i][8..] == EscapeIcsText(packages[i].title);
    EscapeRoundTrip(packages[i].title);
  }

  // ---------------------------------------------------------------- dates

  /** A package with its first and last day, counted in days. */
  datatype Forfait = Forfait(id: string, title: string, firstDay: int, lastDay: int)

  /** The end of an all-day event is excluded: it is the day after the last (section 3.6.1 of RFC 5545). */
  function ToPackage(f: Forfait, toIcsDate: int -> string): Package {
    Package(f.id, f.title, toIcsDate(f.firstDay), toIcsDate(f.lastDay + 1))
  }

  function ToPackages(forfaits: seq<Forfait>, toIcsDate: int -> string): seq<Package> {
    if forfaits == [] then [] else [ToPackage(forfaits[0], toIcsDate)] + ToPackages(forfaits[1..], toIcsDate)
  }

  lemma {:induction false} PackagesOneByOne(forfaits: seq<Forfait>, toIcsDate: int -> string)
    ensures |ToPackages(forfaits, toIcsDate)| == |forfaits|
    ensures forall i | 0 <= i < |forfaits| :: ToPackages(forfaits, toIcsDate)[i] == ToPackage(forfaits[i], toIcsDate)
  {
    if forfaits != [] {
      PackagesOneByOne(forfaits[1..], toIcsDate);
    }
  }

  /** The text of a line after its property name. */
  function After(line: string, name: string): string {
    if name <= line then line[|name|..] else ""
  }

  /**
   * A reader that understands the printed dates reads back, of each package in order, its identifier, the time of
   * the feed, its first day, the day after its last, and its title.
   */
  lemma EventsReadBack(legalName: string, forfaits: seq<Forfait>, dtstamp: string, toIcsDate: int -> string,
                       parse: string -> int, i: nat)
    requires i < |forfaits| && IsLine(dtstamp) && forall f | f in forfaits :: IsLine(f.id)
    requires forall day :: IsLine(toIcsDate(day)) && parse(toIcsDate(day)) == day
    ensures var lines := Split(GetAgencyFeed(legalName, ToPackages(forfaits, toIcsDate), dtstamp));
            && |lines| == 6 + 7 * |forfaits|
            && lines[5 + 7 * i] == "BEGIN:VEVENT" && lines[11 + 7 * i] == "END:VEVENT"
            && After(lines[6 + 7 * i], "UID:") == forfaits[i].id + "@oumra-hadj-project.local"
            && After(lines[7 + 7 * i], "DTSTAMP:") == dtstamp
            && parse(After(lines[8 + 7 * i], "DTSTART;VALUE=DATE:")) == forfaits[i].firstDay
            && parse(After(lines[9 + 7 * i], "DTEND;VALUE=DATE:")) == forfaits[i].lastDay + 1
            && Unescape(After(lines[10 + 7 * i], "SUMMARY:")) == forfaits[i].title
  {
    hide Split, GetAgencyFeed, EscapeIcsText, Unescape, IsLine, ToPackages;
    var packages := ToPackages(forfaits, toIcsDate);
    PackagesOneByOne(forfaits, toIcsDate);
    assert PrintsOnLines(packages, dtstamp);
    FeedLines(legalName, packages, dtstamp);
    var lines := Split(GetAgencyFeed(legalName, packages, dtstamp));
    EventFields(packages[i], dtstamp);
    EscapeRoundTrip(forfaits[i].title);
    var event := EventLines(packages[i], dtstamp);
    hide EventLines, After;
    var part := lines[5 + 7 * i..12 + 7 * i];
    assert part == event;
    assert part[0] == lines[5 + 7 * i] && part[1] == lines[6 + 7 * i] && part[2] == lines[7 + 7 * i];
    assert part[3] == lines[8 + 7 * i] && part[4] == lines[9 + 7 * i] && part[5] == lines[10 + 7 * i];
    assert part[6] == lines[11 + 7 * i];
  }

  lemma UidText(id: string)
    ensures "UID:" + id + "@" + CALENDAR_UID_DOMAIN == "UID:" + (id + "@oumra-hadj-project.local")
  {
    assert "@" + CALENDAR_UID_DOMAIN == "@oumra-hadj-project.local";
    assert "UID:" + id + "@" + CALENDAR_UID_DOMAIN == "UID:" + (id + ("@" + CALENDAR_UID_DOMAIN));
  }

  lemma EventFields(p: Package, dtstamp: string)
    ensures var event := EventLines(p, dtstamp);
            && |event| == 7 && event[0] == "BEGIN:VEVENT" && event[6] == "END:VEVENT"
            && After(event[1], "UID:") == p.id + "@oumra-hadj-project.local"
            && After(event[2], "DTSTAMP:") == dtstamp
            && After(event[3], "DTSTART;VALUE=DATE:") == p.start
            && After(event[4], "DTEND;VALUE=DATE:") == p.end
            && After(event[5], "SUMMARY:") == EscapeIcsText(p.title)
  {
    hide EscapeIcsText, After;
    var event := EventLines(p, dtstamp);
    UidText(p.id);
    AfterName("UID:", p.id + "@oumra-hadj-project.local");
    AfterName("DTSTAMP:", dtstamp);
    AfterName("DTSTART;VALUE=DATE:", p.start);
    AfterName("DTEND;VALUE=DATE:", p.end);
    AfterName("SUMMARY:", EscapeIcsText(p.title));
  }

  lemma AfterName(name: string, text: string)
    ensures After(name + text, name) == text
  {
  }

  /** The heading opens a calendar of version 2.0 and names it after the agency. */
  lemma HeadingReadsBack(legalName: string, packages: seq<Package>, dtstamp: string)
    requires PrintsOnLines(packages, dtstamp)
    ensures var lines := Split(GetAgencyFeed(legalName, packages, dtstamp));
            && |lines| >= 6 && lines[0] == "BEGIN:VCALENDAR" && After(lines[1], "VERSION:") == "2.0"
            && lines[3] == "CALSCALE:GREGORIAN"
            && Unescape(After(lines[4], "X-WR-CALNAME:")) == "Échéances clés — " + legalName
  {
    hide Split, GetAgencyFeed, EscapeIcsText, Unescape, After;
    FeedLines(legalName, packages, dtstamp);
    var lines := Split(GetAgencyFeed(legalName, packages, dtstamp));
    assert forall k | 0 <= k < 5 :: lines[k] == lines[..5][k];
    AfterName("VERSION:", "2.0");
    assert "VERSION:2.0" == "VERSION:" + "2.0";
    AfterName("X-WR-CALNAME:", EscapeIcsText("Échéances clés — " + legalName));
    EscapeRoundTrip("Échéances clés — " + legalName);
  }
}
