/** The iCalendar export of `generateICSFile`: one VCALENDAR holding a
    VEVENT per selected session, its lines joined with CRLF. */
module Ics {
  import opened Wrappers
  import opened Sessions
  import opened Seqs
  import opened Text
  import Projections

  // ---------------------------------------------------------------------
  // Text escaping

  /** The characters the first replacement backslash-escapes. */
  predicate IsSpecial(c: char) {
    c == ',' || c == '\\' || c == ';'
  }

  /** `text.replace(/[,\\;]/g, "\\$&")`. */
  function EscapeSpecials(s: string): string {
    if s == [] then [] else (if IsSpecial(s[0]) then ['\\', s[0]] else [s[0]]) + EscapeSpecials(s[1..])
  }

  /** `.replace(/\n/g, "\\n")`: a line feed becomes a backslash and `n`. */
  function EscapeNewlines(s: string): string {
    if s == [] then [] else (if s[0] == '\n' then "\\n" else [s[0]]) + EscapeNewlines(s[1..])
  }

  /** `escapeText`: the two replacements in the order the source applies them. */
  function EscapeText(s: string): string {
    EscapeNewlines(EscapeSpecials(s))
  }

  /** The escape of one character, as section 3.3.11 of RFC 5545 has it. */
  function EscapeChar(c: char): string {
    if c == '\n' then "\\n" else if IsSpecial(c) then ['\\', c] else [c]
  }

  /** Escaping every character on its own, in a single pass. */
  function EscapeEach(s: string): string {
    if s == [] then [] else EscapeChar(s[0]) + EscapeEach(s[1..])
  }

  /** Reading TEXT back per section 3.3.11 of RFC 5545. */
  function Unescape(s: string): string
    decreases |s|
  {
    if |s| >= 2 && s[0] == '\\' && (s[1] == 'n' || s[1] == 'N') then "\n" + Unescape(s[2..])
    else if |s| >= 2 && s[0] == '\\' && IsSpecial(s[1]) then [s[1]] + Unescape(s[2..])
    else if s == [] then []
    else [s[0]] + Unescape(s[1..])
  }

  lemma {:induction false} EscapeNewlinesConcat(a: string, b: string)
    ensures EscapeNewlines(a + b) == EscapeNewlines(a) + EscapeNewlines(b)
  {
    if a != [] {
      assert (a + b)[1..] == a[1..] + b;
      EscapeNewlinesConcat(a[1..], b);
    } else {
      assert a + b == b;
    }
  }

  /** Running the specials first and the line feeds second escapes each
      character exactly once: the backslashes the first pass adds are never
      touched again. */
  lemma {:induction false} EscapeTextIsSinglePass(s: string)
    ensures EscapeText(s) == EscapeEach(s)
  {
    if s != [] {
      var head := if IsSpecial(s[0]) then ['\\', s[0]] else [s[0]];
      EscapeNewlinesConcat(head, EscapeSpecials(s[1..]));
      EscapeTextIsSinglePass(s[1..]);
      if IsSpecial(s[0]) {
        assert EscapeNewlines(head) == ['\\'] + EscapeNewlines([s[0]]);
      }
    }
  }

  lemma {:induction false} UnescapeEscapeEach(s: string)
    ensures Unescape(EscapeEach(s)) == s
  {
    if s != [] {
      var e := EscapeEach(s);
      var rest := EscapeEach(s[1..]);
      UnescapeEscapeEach(s[1..]);
      assert e == EscapeChar(s[0]) + rest;
      if s[0] == '\n' || IsSpecial(s[0]) {
        assert e[2..] == rest;
      } else {
        assert e[1..] == rest;
      }
      assert s == [s[0]] + s[1..];
    }
  }

  /** Unescaping an escaped value gives the value back. */
  lemma EscapeTextRoundTrip(s: string)
    ensures Unescape(EscapeText(s)) == s
  {
    EscapeTextIsSinglePass(s);
    UnescapeEscapeEach(s);
  }

  /** A character the escaping leaves alone. */
  predicate Plain(c: char) {
    !IsSpecial(c) && c != '\n'
  }

  lemma {:induction false} EscapeSpecialsPlain(s: string)
    requires forall i :: 0 <= i < |s| ==> Plain(s[i])
    ensures EscapeSpecials(s) == s
  {
    if s != [] {
      EscapeSpecialsPlain(s[1..]);
    }
  }

  lemma {:induction false} EscapeNewlinesPlain(s: string)
    requires forall i :: 0 <= i < |s| ==> Plain(s[i])
    ensures EscapeNewlines(s) == s
  {
    if s != [] {
      EscapeNewlinesPlain(s[1..]);
    }
  }

  /** Text without commas, semicolons, backslashes or line feeds is left as it is. */
  lemma EscapeTextPlain(s: string)
    requires forall i :: 0 <= i < |s| ==> Plain(s[i])
    ensures EscapeText(s) == s
  {
    EscapeSpecialsPlain(s);
    EscapeNewlinesPlain(s);
  }

  lemma {:induction false} EscapeEachLength(s: string)
    ensures |EscapeEach(s)| == |s| + |FilterKey(s, Plain, false)|
  {
    if s != [] {
      EscapeEachLength(s[1..]);
      assert s == [s[0]] + s[1..];
      FilterKeyConcat([s[0]], s[1..], Plain, false);
      assert FilterKey([s[0]], Plain, false) == FilterKey([], Plain, false) + (if Plain(s[0]) then [] else [s[0]]) by {
        FilterKeyAppend([], s[0], Plain, false);
        assert [] + [s[0]] == [s[0]];
      }
    }
  }

  /** The escaped value is one character longer per comma, semicolon,
      backslash and line feed. */
  lemma EscapeTextLength(s: string)
    ensures |EscapeText(s)| == |s| + |FilterKey(s, Plain, false)|
  {
    EscapeTextIsSinglePass(s);
    EscapeEachLength(s);
  }

  lemma {:induction false} EscapeEachAvoids(s: string, c: char)
    requires c != '\\' && c != 'n' && c !in s
    ensures c !in EscapeEach(s)
  {
    if s != [] {
      assert s[0] in s;
      EscapeEachAvoids(s[1..], c);
    }
  }

  /** An escaped value holds no line feed, and a carriage return only when
      the value had one. */
  lemma EscapeTextLineSafe(s: string)
    ensures '\n' !in EscapeText(s)
    ensures '\r' !in s ==> '\r' !in EscapeText(s)
  {
    EscapeTextIsSinglePass(s);
    EscapeEachNoNewline(s);
    if '\r' !in s {
      EscapeEachAvoids(s, '\r');
    }
  }

  lemma {:induction false} EscapeEachNoNewline(s: string)
    ensures '\n' !in EscapeEach(s)
  {
    if s != [] {
      EscapeEachNoNewline(s[1..]);
    }
  }

  // ---------------------------------------------------------------------
  // Dates

  /** The year as `toISOString` prints it: four digits for 0..9999, else a
      sign and six digits. */
  function IsoYear(y: Year): string {
    if 0 <= y <= 9999 then Padded(y, 4)
    else if y < 0 then "-" + Padded(-y, 6)
    else "+" + Padded(y, 6)
  }

  /** `YYYY-MM-DD`. */
  function IsoDate(t: UtcDateTime): string {
    IsoYear(t.year) + "-" + Padded(t.month, 2) + "-" + Padded(t.day, 2)
  }

  /** `HH:mm:ss`. */
  function IsoTime(t: UtcDateTime): string {
    Padded(t.hour, 2) + ":" + Padded(t.minute, 2) + ":" + Padded(t.second, 2)
  }

  /** `toISOString()`: `YYYY-MM-DDTHH:mm:ss.sssZ`. */
  function IsoString(t: UtcDateTime): string {
    IsoDate(t) + "T" + IsoTime(t) + "." + Padded(t.millis, 3) + "Z"
  }

  predicate NotDashOrColon(c: char) {
    c != '-' && c != ':'
  }

  /** `.replace(/[-:]/g, "")`. */
  function RemoveDashColon(s: string): string {
    FilterKey(s, NotDashOrColon, true)
  }

  /** `.replace(/\.\d{3}/g, "")`: scanning left to right, drop each dot
      followed by three digits together with those digits. */
  function StripMillis(s: string): (r: string)
    ensures |r| <= |s|
    decreases |s|
  {
    if |s| >= 4 && s[0] == '.' && IsDigit(s[1]) && IsDigit(s[2]) && IsDigit(s[3]) then StripMillis(s[4..])
    else if s == [] then []
    else [s[0]] + StripMillis(s[1..])
  }

  /** `formatDateForICS`. */
  function FormatDateForIcs(t: UtcDateTime): string {
    StripMillis(RemoveDashColon(IsoString(t)))
  }

  /** The year part left after the dashes are removed: the minus sign of a
      negative extended year goes with them. */
  function IcsYear(y: Year): string {
    if 0 <= y <= 9999 then Padded(y, 4)
    else if y < 0 then Padded(-y, 6)
    else "+" + Padded(y, 6)
  }

  lemma RemoveDashColonDigits(s: string)
    requires AllDigits(s)
    ensures RemoveDashColon(s) == s
  {
    FilterKeyAll(s, NotDashOrColon, true);
  }

  lemma {:induction false} StripMillisAfter(a: string, b: string)
    requires '.' !in a
    ensures StripMillis(a + b) == a + StripMillis(b)
  {
    if a != [] {
      assert a[0] in a;
      assert (a + b)[1..] == a[1..] + b;
      StripMillisAfter(a[1..], b);
    } else {
      assert a + b == b;
    }
  }

  /** Dropping the separator between two runs of digits. */
  lemma RemoveDashColonJoin(a: string, sep: string, b: string)
    requires sep == "-" || sep == ":"
    requires AllDigits(b)
    ensures RemoveDashColon(a + sep + b) == RemoveDashColon(a) + b
  {
    FilterKeyConcat(a + sep, b, NotDashOrColon, true);
    FilterKeyConcat(a, sep, NotDashOrColon, true);
    RemoveDashColonDigits(b);
    assert RemoveDashColon(sep) == [];
  }

  lemma RemoveDashColonYear(y: Year)
    ensures RemoveDashColon(IsoYear(y)) == IcsYear(y)
  {
    if 0 <= y <= 9999 {
      RemoveDashColonDigits(Padded(y, 4));
    } else {
      var sign, digits := if y < 0 then "-" else "+", Padded(if y < 0 then -y else y, 6);
      assert IsoYear(y) == sign + digits;
      FilterKeyConcat(sign, digits, NotDashOrColon, true);
      RemoveDashColonDigits(digits);
      assert RemoveDashColon("-") == [] && RemoveDashColon("+") == "+";
    }
  }

  lemma RemoveDashColonDate(t: UtcDateTime)
    ensures RemoveDashColon(IsoDate(t)) == IcsYear(t.year) + Padded(t.month, 2) + Padded(t.day, 2)
  {
    var y, m, d := IsoYear(t.year), Padded(t.month, 2), Padded(t.day, 2);
    RemoveDashColonJoin(y + "-" + m, "-", d);
    RemoveDashColonJoin(y, "-", m);
    RemoveDashColonYear(t.year);
  }

  lemma RemoveDashColonTime(t: UtcDateTime)
    ensures RemoveDashColon(IsoTime(t)) == Padded(t.hour, 2) + Padded(t.minute, 2) + Padded(t.second, 2)
  {
    var h, m, sec := Padded(t.hour, 2), Padded(t.minute, 2), Padded(t.second, 2);
    RemoveDashColonJoin(h + ":" + m, ":", sec);
    RemoveDashColonJoin(h, ":", m);
    RemoveDashColonDigits(h);
  }

  lemma RemoveDashColonIso(t: UtcDateTime)
    ensures RemoveDashColon(IsoString(t)) ==
      RemoveDashColon(IsoDate(t)) + "T" + RemoveDashColon(IsoTime(t)) + "." + Padded(t.millis, 3) + "Z"
  {
    var date, time, ms := IsoDate(t), IsoTime(t), Padded(t.millis, 3);
    FilterKeyConcat(date + "T" + time + "." + ms, "Z", NotDashOrColon, true);
    FilterKeyConcat(date + "T" + time + ".", ms, NotDashOrColon, true);
    FilterKeyConcat(date + "T" + time, ".", NotDashOrColon, true);
    FilterKeyConcat(date + "T", time, NotDashOrColon, true);
    FilterKeyConcat(date, "T", NotDashOrColon, true);
    RemoveDashColonDigits(ms);
    assert RemoveDashColon("T") == "T" && RemoveDashColon(".") == "." && RemoveDashColon("Z") == "Z";
  }

  lemma StripMillisTail(ms: string)
    requires |ms| == 3 && AllDigits(ms)
    ensures StripMillis("." + ms + "Z") == "Z"
  {
    var tail := "." + ms + "Z";
    assert tail[4..] == "Z";
    assert StripMillis("Z") == "Z";
  }

  /** The date digits of a stamp: `YYYYMMDD`. */
  function IcsDate(t: UtcDateTime): string {
    IcsYear(t.year) + Padded(t.month, 2) + Padded(t.day, 2)
  }

  /** The time digits of a stamp: `HHmmss`. */
  function IcsTime(t: UtcDateTime): string {
    Padded(t.hour, 2) + Padded(t.minute, 2) + Padded(t.second, 2)
  }

  lemma RemoveDashColonIsoParts(t: UtcDateTime)
    ensures RemoveDashColon(IsoString(t)) == (IcsDate(t) + "T" + IcsTime(t)) + ("." + Padded(t.millis, 3) + "Z")
  {
    RemoveDashColonIso(t);
    RemoveDashColonDate(t);
    RemoveDashColonTime(t);
    Regroup(RemoveDashColon(IsoDate(t)), RemoveDashColon(IsoTime(t)), Padded(t.millis, 3));
  }

  lemma Regroup(d: string, tm: string, ms: string)
    ensures d + "T" + tm + "." + ms + "Z" == (d + "T" + tm) + ("." + ms + "Z")
  {
  }

  lemma IcsDateTimeNoDot(t: UtcDateTime)
    ensures '.' !in IcsDate(t) + "T" + IcsTime(t)
  {
    DigitsAvoid(Padded(t.month, 2), '.');
    DigitsAvoid(Padded(t.day, 2), '.');
    DigitsAvoid(Padded(if t.year < 0 then -t.year else t.year, if 0 <= t.year <= 9999 then 4 else 6), '.');
    DigitsAvoid(Padded(t.hour, 2), '.');
    DigitsAvoid(Padded(t.minute, 2), '.');
    DigitsAvoid(Padded(t.second, 2), '.');
  }

  /** `formatDateForICS` yields `YYYYMMDDTHHmmssZ`: the UTC fields, zero
      padded, without separators or milliseconds (with the extended year
      form outside 0..9999). */
  lemma FormatDateForIcsFields(t: UtcDateTime)
    ensures FormatDateForIcs(t) == IcsDate(t) + "T" + IcsTime(t) + "Z"
  {
    RemoveDashColonIsoParts(t);
    IcsDateTimeNoDot(t);
    StripMillisAfter(IcsDate(t) + "T" + IcsTime(t), "." + Padded(t.millis, 3) + "Z");
    StripMillisTail(Padded(t.millis, 3));
  }

  /** For four-digit years the stamp has sixteen characters, a `T` at
      index 8 and a `Z` at the end, and digits everywhere else. */
  lemma FormatDateForIcsShape(t: UtcDateTime)
    requires 0 <= t.year <= 9999
    ensures var f := FormatDateForIcs(t);
      |f| == 16 && f[8] == 'T' && f[15] == 'Z' &&
      forall k :: 0 <= k < 16 && k != 8 && k != 15 ==> IsDigit(f[k])
  {
    FormatDateForIcsFields(t);
  }

  // ---------------------------------------------------------------------
  // Events and the calendar

  const Header: seq<string> := ["BEGIN:VCALENDAR", "VERSION:2.0", "PRODID:-//NICAR 2025//Workshop Schedule//EN"]
  const Footer := "END:VCALENDAR"
  const Crlf := "\r\n"

  /** The room name, with " (Level: x)" when the room has a level; "TBA"
      without a room. */
  function Location(w: Session): string {
    match w.room
    case None => "TBA"
    case Some(r) => r.roomName + (if r.level != "" then " (Level: " + r.level + ")" else "")
  }

  /** `value || "N/A"`. */
  function OrNotAvailable(v: string): string {
    if v == "" then "N/A" else v
  }

  /** `${first} ${last} (${affiliation})`. */
  function SpeakerText(sp: Speaker): string {
    sp.first + " " + sp.last + " (" + sp.affiliation + ")"
  }

  /** `description || "No description available"`. */
  function DescriptionText(w: Session): string {
    if w.description == "" then Projections.NoDescription else w.description
  }

  /** The type and skill level, after literal `\n` escapes. */
  function DetailsText(w: Session): string {
    "\\n\\nType: " + OrNotAvailable(w.sessionType) + "\\nSkill Level: " + OrNotAvailable(w.skillLevel)
  }

  /** The speaker list, when there are speakers. */
  function SpeakersText(w: Session): string {
    if |w.speakers| > 0 then "\\nSpeakers: " + Join(Map(w.speakers, SpeakerText), ", ") else ""
  }

  /** The DESCRIPTION value; only the description itself goes through
      `escapeText`, the details and speakers are inserted as they are. */
  function DescriptionValue(w: Session): string {
    EscapeText(DescriptionText(w)) + DetailsText(w) + SpeakersText(w)
  }

  /** `${session_id}@nicar2025`. */
  function Uid(id: int): string {
    IntToString(id) + "@nicar2025"
  }

  /** The nine lines of one VEVENT; `stamp` is the clock reading for DTSTAMP. */
  function EventLines(w: Session, stamp: UtcDateTime): seq<string> {
    ["BEGIN:VEVENT",
     "UID:" + Uid(w.id),
     "DTSTAMP:" + FormatDateForIcs(stamp),
     "DTSTART:" + FormatDateForIcs(w.utcStart),
     "DTEND:" + FormatDateForIcs(w.utcEnd),
     "SUMMARY:" + EscapeText(w.title),
     "LOCATION:" + EscapeText(Location(w)),
     "DESCRIPTION:" + DescriptionValue(w),
     "END:VEVENT"]
  }

  /** `scheduleData.filter(w => selectedWorkshops.has(w.session_id))`. */
  function SelectedSessions(data: seq<Session>, selected: seq<int>): seq<Session> {
    FilterKey(data, (w: Session) => w.id in selected, true)
  }

  /** The events of `s` one after the other; `clock(k)` is the time read
      while the k-th event is built. */
  function EventBlocks(s: seq<Session>, clock: nat -> UtcDateTime): (r: seq<string>)
    ensures |r| == 9 * |s|
  {
    EventOfNine(clock);
    BlocksLength(s, EventOf(clock), 9);
    Blocks(s, EventOf(clock))
  }

  /** The event of the k-th session. */
  function EventOf(clock: nat -> UtcDateTime): (Session, nat) -> seq<string> {
    (w: Session, k: nat) => EventLines(w, clock(k))
  }

  lemma EventOfNine(clock: nat -> UtcDateTime)
    ensures forall w, k :: |EventOf(clock)(w, k)| == 9
  {
    forall w, k ensures |EventOf(clock)(w, k)| == 9 {
      assert EventOf(clock)(w, k) == EventLines(w, clock(k));
    }
  }

  /** All lines of the file. */
  function IcsLines(sessions: seq<Session>, clock: nat -> UtcDateTime): seq<string> {
    Header + EventBlocks(sessions, clock) + [Footer]
  }

  /** Extending the prefix by one session appends that session's event. */
  lemma EventBlocksPrefix(s: seq<Session>, clock: nat -> UtcDateTime, k: nat)
    requires k < |s|
    ensures EventBlocks(s[..k + 1], clock) == EventBlocks(s[..k], clock) + EventLines(s[k], clock(k))
  {
    assert s[..k + 1] == s[..k] + [s[k]];
    BlocksSnoc(s[..k], s[k], EventOf(clock));
  }

  /** `generateICSFile`, up to the download: the header, one VEVENT per
      selected session in catalog order, the footer, joined with CRLF. */
  method GenerateIcsFile(data: seq<Session>, selected: seq<int>, clock: nat -> UtcDateTime) returns (content: string)
    ensures content == Join(IcsLines(SelectedSessions(data, selected), clock), Crlf)
  {
    var selectedSessions := SelectedSessions(data, selected);
    var icsContent := Header;
    for k := 0 to |selectedSessions|
      invariant icsContent == Header + EventBlocks(selectedSessions[..k], clock)
    {
      EventBlocksPrefix(selectedSessions, clock, k);
      AppendAssoc(Header, EventBlocks(selectedSessions[..k], clock), EventLines(selectedSessions[k], clock(k)));
      icsContent := icsContent + EventLines(selectedSessions[k], clock(k));
    }
    assert selectedSessions[..|selectedSessions|] == selectedSessions;
    icsContent := icsContent + [Footer];
    content := Join(icsContent, Crlf);
  }

  lemma EventBlocksAt(s: seq<Session>, clock: nat -> UtcDateTime, k: nat, j: nat)
    requires k < |s| && j < 9
    ensures EventBlocks(s, clock)[9 * k + j] == EventLines(s[k], clock(k))[j]
  {
    EventOfNine(clock);
    BlockOf(s, EventOf(clock), 9, k);
    var b := Blocks(s, EventOf(clock));
    assert b[9 * k + j] == b[9 * k..9 * k + 9][j];
  }

  lemma IcsLinesEnds(sessions: seq<Session>, clock: nat -> UtcDateTime)
    ensures var lines := IcsLines(sessions, clock);
      |lines| == 4 + 9 * |sessions| && lines[..3] == Header && lines[|lines| - 1] == Footer
  {
  }

  lemma IcsLinesEvent(sessions: seq<Session>, clock: nat -> UtcDateTime, k: nat, j: nat)
    requires k < |sessions| && j < 9
    ensures IcsLines(sessions, clock)[3 + 9 * k + j] == EventLines(sessions[k], clock(k))[j]
  {
    EventBlocksAt(sessions, clock, k, j);
  }

  /** The file is the three header lines, nine lines per selected session
      in catalog order, and END:VCALENDAR. */
  lemma IcsLinesShape(sessions: seq<Session>, clock: nat -> UtcDateTime)
    ensures var lines := IcsLines(sessions, clock);
      |lines| == 4 + 9 * |sessions| &&
      lines[..3] == Header && lines[|lines| - 1] == Footer &&
      forall k, j :: 0 <= k < |sessions| && 0 <= j < 9 ==>
        lines[3 + 9 * k + j] == EventLines(sessions[k], clock(k))[j]
  {
    IcsLinesEnds(sessions, clock);
    forall k, j | 0 <= k < |sessions| && 0 <= j < 9
      ensures IcsLines(sessions, clock)[3 + 9 * k + j] == EventLines(sessions[k], clock(k))[j]
    {
      IcsLinesEvent(sessions, clock, k, j);
    }
  }

  lemma SummaryLineIs(w: Session, stamp: UtcDateTime)
    ensures EventLines(w, stamp)[5] == "SUMMARY:" + EscapeText(w.title)
  {
  }

  lemma LocationLineIs(w: Session, stamp: UtcDateTime)
    ensures EventLines(w, stamp)[6] == "LOCATION:" + EscapeText(Location(w))
  {
  }

  lemma DescriptionLineIs(w: Session, stamp: UtcDateTime)
    ensures EventLines(w, stamp)[7] == "DESCRIPTION:" + DescriptionValue(w)
  {
  }

  lemma EscapedTba(w: Session)
    requires w.room.None?
    ensures EscapeText(Location(w)) == "TBA"
  {
    EscapeTextPlain("TBA");
  }

  lemma PrefixSplit(prefix: string, v: string, line: string)
    requires line == prefix + v
    ensures line[..|prefix|] == prefix && line[|prefix|..] == v
  {
  }

  /** The SUMMARY value reads back, per section 3.3.11 of RFC 5545, as the title. */
  lemma EventSummaryLine(w: Session, stamp: UtcDateTime)
    ensures var line := EventLines(w, stamp)[5];
      |line| >= 8 && line[..8] == "SUMMARY:" && Unescape(line[8..]) == w.title
  {
    SummaryLineIs(w, stamp);
    PrefixSplit("SUMMARY:", EscapeText(w.title), EventLines(w, stamp)[5]);
    EscapeTextRoundTrip(w.title);
  }

  /** The LOCATION value reads back as the room and level, and is "TBA"
      when the session has no room. */
  lemma EventLocationLine(w: Session, stamp: UtcDateTime)
    ensures var line := EventLines(w, stamp)[6];
      |line| >= 9 && line[..9] == "LOCATION:" && Unescape(line[9..]) == Location(w) &&
      (w.room.None? ==> line == "LOCATION:TBA")
  {
    LocationLineIs(w, stamp);
    PrefixSplit("LOCATION:", EscapeText(Location(w)), EventLines(w, stamp)[6]);
    EscapeTextRoundTrip(Location(w));
    if w.room.None? {
      EscapedTba(w);
      TbaLine(EventLines(w, stamp)[6]);
    }
  }

  lemma TbaLine(line: string)
    requires line == "LOCATION:" + "TBA"
    ensures line == "LOCATION:TBA"
  {
  }

  /** Only the free text of DESCRIPTION is escaped: it reads back as the
      description, or the placeholder, while the type, skill level and
      speakers follow as they are. */
  lemma EventDescriptionLine(w: Session, stamp: UtcDateTime)
    ensures var line, free := EventLines(w, stamp)[7], EscapeText(DescriptionText(w));
      line == "DESCRIPTION:" + (free + DetailsText(w) + SpeakersText(w)) &&
      Unescape(free) == DescriptionText(w) &&
      (w.description == "" ==> free == Projections.NoDescription)
  {
    DescriptionLineIs(w, stamp);
    EscapeTextRoundTrip(DescriptionText(w));
    if w.description == "" {
      EscapedPlaceholder();
    }
  }

  /** The events are the selected sessions of the catalog, in catalog order. */
  lemma SelectedSessionsSpec(data: seq<Session>, selected: seq<int>)
    ensures SubseqOf(SelectedSessions(data, selected), data)
    ensures forall w :: w in SelectedSessions(data, selected) <==> w in data && w.id in selected
    ensures forall w :: multiset(SelectedSessions(data, selected))[w] ==
              if w.id in selected then multiset(data)[w] else 0
  {
    FilterKeySubseq(data, (w: Session) => w.id in selected, true);
    forall w ensures multiset(SelectedSessions(data, selected))[w] ==
                     if w.id in selected then multiset(data)[w] else 0 {
      FilterKeyCount(data, (w: Session) => w.id in selected, true, w);
    }
  }

  lemma JoinEndsWithFooter(lines: seq<string>)
    requires |lines| >= 1 && lines[|lines| - 1] == Footer
    ensures var c := Join(lines, Crlf);
      |c| >= |Footer| && c[|c| - |Footer|..] == Footer && c[|c| - 2..] != Crlf
  {
    JoinEndsWithLast(lines, Crlf);
    var c := Join(lines, Crlf);
    assert c[|c| - 2..] == Footer[|Footer| - 2..];
  }

  /** The content ends with END:VCALENDAR and no line break after it. */
  lemma IcsFileEnd(sessions: seq<Session>, clock: nat -> UtcDateTime)
    ensures var c := Join(IcsLines(sessions, clock), Crlf);
      |c| >= |Footer| && c[|c| - |Footer|..] == Footer && c[|c| - 2..] != Crlf
  {
    IcsLinesEnds(sessions, clock);
    JoinEndsWithFooter(IcsLines(sessions, clock));
  }

  /** Different ids get different UIDs. */
  lemma UidInjective(a: int, b: int)
    requires Uid(a) == Uid(b)
    ensures a == b
  {
    var sa, sb := IntToString(a), IntToString(b);
    assert sa[0] == Uid(a)[0] && sb[0] == Uid(b)[0];
    var na, nb := if a < 0 then -a else a, if b < 0 then -b else b;
    var rest := "@nicar2025";
    var ta, tb := NatToString(na) + rest, NatToString(nb) + rest;
    if a < 0 {
      assert Uid(a) == "-" + ta;
      assert Uid(b) == "-" + tb;
      assert ta == Uid(a)[1..] && tb == Uid(b)[1..];
    } else {
      assert Uid(a) == ta && Uid(b) == tb;
    }
    assert ta == tb;
    ParseIntNatToString(na, rest);
    ParseIntNatToString(nb, rest);
  }

  // ---------------------------------------------------------------------
  // One event per selected session

  function IdOf(w: Session): int {
    w.id
  }

  lemma {:induction false} SubsequenceUniqueIds(data: seq<Session>, key: Session -> bool)
    requires UniqueIds(data)
    ensures UniqueIds(FilterKey(data, key, true))
  {
    if data != [] {
      var p, y := data[..|data| - 1], data[|data| - 1];
      assert UniqueIds(p);
      SubsequenceUniqueIds(p, key);
      var fp := FilterKey(p, key, true);
      if key(y) {
        forall i | 0 <= i < |fp| ensures fp[i].id != y.id {
          assert fp[i] in p;
          var m :| 0 <= m < |p| && p[m] == fp[i];
          assert data[m] == fp[i];
        }
      }
    }
  }

  /** With unique catalog ids, a selection without repeats whose ids all
      name catalog sessions yields exactly one event per selected id. */
  lemma SelectedSessionsCount(data: seq<Session>, selected: seq<int>)
    requires UniqueIds(data) && NoDups(selected)
    requires forall id :: id in selected ==> HasId(data, id)
    ensures |SelectedSessions(data, selected)| == |selected|
    ensures NoDups(Map(SelectedSessions(data, selected), IdOf))
    ensures forall id :: id in Map(SelectedSessions(data, selected), IdOf) <==> id in selected
  {
    var r := SelectedSessions(data, selected);
    var ids := Map(r, IdOf);
    SubsequenceUniqueIds(data, (w: Session) => w.id in selected);
    assert NoDups(ids) by {
      forall i, j | 0 <= i < j < |ids| ensures ids[i] != ids[j] {
        assert ids[i] == r[i].id && ids[j] == r[j].id;
      }
    }
    forall id ensures id in ids <==> id in selected {
      if id in selected {
        var k :| 0 <= k < |data| && data[k].id == id;
        assert data[k] in r;
        var i :| 0 <= i < |r| && r[i] == data[k];
        assert ids[i] == id;
      }
      if id in ids {
        var i :| 0 <= i < |ids| && ids[i] == id;
        assert r[i] in r;
      }
    }
    assert (set x | x in ids) == (set x | x in selected);
    NoDupsCard(ids);
    NoDupsCard(selected);
  }

  /** Escaping leaves the placeholder description as it is. */
  lemma EscapedPlaceholder()
    ensures EscapeText(Projections.NoDescription) == Projections.NoDescription
  {
    EscapeTextPlain(Projections.NoDescription);
  }
}
