/** The calendar view (`CalendarView`): the half-hour time slots of the
    grid, their labels, the placement of each selected session in one
    (day, slot) cell, and the height and offset of its card. */
module Calendar {
  import opened Wrappers
  import opened Sessions
  import opened Seqs
  import opened Text

  /** The four day columns, left to right. */
  const Days: seq<string> := ["Thursday", "Friday", "Saturday", "Sunday"]
  const FirstHour: nat := 8
  const LastHour: nat := 18
  /** Whole and half hours from 8:00 to 18:00. */
  const SlotCount: nat := 21

  // ---------------------------------------------------------------------
  // Time slots

  /** `${hour}:00` or `${hour}:30`. */
  function SlotLabel(hour: nat, half: bool): string {
    NatToString(hour) + (if half then ":30" else ":00")
  }

  /** The slot labels: slot `k` starts `30 * k` minutes after 8:00. */
  function TimeSlots(): (r: seq<string>)
    ensures |r| == SlotCount
  {
    seq(SlotCount, k requires 0 <= k < SlotCount => SlotLabel(FirstHour + k / 2, k % 2 == 1))
  }

  /** The `timeSlots` loop: each hour from 8 to 18 pushes its whole hour and,
      except for 18, its half hour. */
  method BuildTimeSlots() returns (slots: seq<string>)
    ensures slots == TimeSlots()
  {
    slots := [];
    var hour := FirstHour;
    while hour <= LastHour
      invariant FirstHour <= hour <= LastHour + 1
      invariant |slots| == if hour <= LastHour then 2 * (hour - FirstHour) else SlotCount
      invariant forall k :: 0 <= k < |slots| ==> slots[k] == TimeSlots()[k]
    {
      slots := slots + [SlotLabel(hour, false)];
      if hour != LastHour {
        slots := slots + [SlotLabel(hour, true)];
      }
      hour := hour + 1;
    }
  }

  // ---------------------------------------------------------------------
  // Reading a slot label back

  /** The hour `getHours()` reports after `setHours(h, m, 0, 0)`: minutes
      past 59 carry into the hour and hours past 23 into the next day. */
  function RolledHour(h: nat, m: nat): Hour {
    ((h * 60 + m) / 60) % 24
  }

  /** A start hour and the half-hour bucket `floor(minutes / 30)` of a minute. */
  datatype SlotKey = SlotKey(hour: Hour, bucket: nat)

  /** What `getWorkshopsForTimeSlot` derives from a slot label: the hour of
      the slot's start time and the bucket of its minute. `None` stands for
      an unparsable part (an invalid date, whose NaN fields match nothing). */
  function SlotKeyOf(timeSlot: string): (r: Option<SlotKey>)
    ensures |Split(timeSlot, ":")| < 2 ==> r.None?
  {
    var parts := Split(timeSlot, ":");
    var hour := ParseInt(parts[0]);
    var minute := if |parts| > 1 then ParseInt(parts[1]) else None;
    if hour.Some? && minute.Some? then Some(SlotKey(RolledHour(hour.value, minute.value), minute.value / 30))
    else None
  }

  /** Reading a whole- or half-hour label of an hour before 24 gives that
      hour and bucket 0 or 1. */
  lemma SlotKeyOfLabel(hour: nat, half: bool)
    requires hour < 24
    ensures SlotKeyOf(SlotLabel(hour, half)) == Some(SlotKey(hour, if half then 1 else 0))
  {
    SplitSlotLabel(hour, half);
    ParseIntNatToString(hour, "");
    assert NatToString(hour) + "" == NatToString(hour);
    ParseMinutePart(half);
    RolledHourNoCarry(hour, if half then 30 else 0);
  }

  /** The minute part of a slot label. */
  function MinutePart(half: bool): string {
    if half then "30" else "00"
  }

  /** Splitting a slot label at ":" gives the hour and the minute part. */
  lemma SplitSlotLabel(hour: nat, half: bool)
    ensures Split(SlotLabel(hour, half), ":") == [NatToString(hour), MinutePart(half)]
  {
    var h, mm := NatToString(hour), MinutePart(half);
    assert SlotLabel(hour, half) == Join([h, mm], ":");
    assert ':' !in h by { DigitsAvoid(h, ':'); }
    SplitJoin([h, mm], ":");
  }

  lemma ParseMinutePart(half: bool)
    ensures ParseInt(MinutePart(half)) == Some(if half then 30 else 0)
  {
    var m := if half then 30 else 0;
    assert MinutePart(half) == [DigitChar(m / 10), DigitChar(0)];
    ParseTwoDigits(m / 10, 0);
  }

  /** `parseInt` of a two-digit string. */
  lemma ParseTwoDigits(tens: nat, ones: nat)
    requires tens < 10 && ones < 10
    ensures ParseInt([DigitChar(tens), DigitChar(ones)]) == Some(10 * tens + ones)
  {
    var s := [DigitChar(tens), DigitChar(ones)];
    LeadingDigitsOfDigits(s, "");
    assert s + "" == s;
    assert s[..1] == [DigitChar(tens)] && [DigitChar(tens)][..0] == [];
    assert DigitsValue([DigitChar(tens)]) == tens;
    assert DigitsValue(s) == 10 * tens + ones;
  }

  /** Without minutes past 59 or hours past 23 nothing carries. */
  lemma RolledHourNoCarry(h: nat, m: nat)
    requires h < 24 && m < 60
    ensures RolledHour(h, m) == h
  {
    assert (h * 60 + m) / 60 == h;
  }

  /** Slot `k` reads back as hour `8 + k / 2` and bucket `k % 2`. */
  lemma SlotKeyOfTimeSlot(k: nat)
    requires k < SlotCount
    ensures SlotKeyOf(TimeSlots()[k]) == Some(SlotKey(FirstHour + k / 2, k % 2))
  {
    SlotKeyOfLabel(FirstHour + k / 2, k % 2 == 1);
  }

  /** Consecutive slots start 30 minutes apart, from 8:00 to 18:00. */
  lemma TimeSlotsHalfHourApart(k: nat)
    requires k < SlotCount
    ensures var key := SlotKeyOf(TimeSlots()[k]);
      key.Some? && key.value.hour * 60 + key.value.bucket * 30 == FirstHour * 60 + 30 * k
  {
    SlotKeyOfTimeSlot(k);
  }

  /** No two slots share a label, and there is no "18:30". */
  lemma TimeSlotsDistinct()
    ensures NoDups(TimeSlots())
    ensures SlotLabel(LastHour, true) !in TimeSlots()
  {
    var slots := TimeSlots();
    forall i, j | 0 <= i < j < |slots| ensures slots[i] != slots[j] {
      SlotKeyOfTimeSlot(i);
      SlotKeyOfTimeSlot(j);
    }
    if SlotLabel(LastHour, true) in slots {
      var k :| 0 <= k < |slots| && slots[k] == SlotLabel(LastHour, true);
      SlotKeyOfTimeSlot(k);
      SlotKeyOfLabel(LastHour, true);
    }
  }

  // ---------------------------------------------------------------------
  // Slot labels on screen

  /** `formatTime`: the hour before the colon on a 12-hour clock, where
      12 is kept and only later hours lose 12, then the minute text and
      the period, PM from 12 on. An unparsable hour prints as NaN (and
      counts as AM); a label without a colon has minute "undefined". */
  function FormatTime(time: string): (r: string)
    ensures ParseInt(Split(time, ":")[0]).Some? ==>
      var h := ParseInt(Split(time, ":")[0]).value;
      |r| >= 3 && (r[|r| - 3..] == " PM" <==> h >= 12)
  {
    var parts := Split(time, ":");
    var minute := if |parts| > 1 then parts[1] else "undefined";
    match ParseInt(parts[0])
    case None => "NaN:" + minute + " AM"
    case Some(h) => NatToString(if h > 12 then h - 12 else h) + ":" + minute + (if h >= 12 then " PM" else " AM")
  }

  /** The label of an hour-and-minute slot: the 12-hour hour (1 to 12 for
      the hours the grid shows), the same minute text, and PM from noon. */
  lemma FormatTimeOfLabel(hour: nat, half: bool)
    requires 1 <= hour < 24
    ensures var r := FormatTime(SlotLabel(hour, half));
      var shown := if hour > 12 then hour - 12 else hour;
      1 <= shown <= 12 &&
      r == NatToString(shown) + ":" + (if half then "30" else "00") + (if hour >= 12 then " PM" else " AM")
  {
    var h, mm := NatToString(hour), if half then "30" else "00";
    assert SlotLabel(hour, half) == Join([h, mm], ":");
    assert ':' !in h by { DigitsAvoid(h, ':'); }
    SplitJoin([h, mm], ":");
    ParseIntNatToString(hour, "");
    assert h + "" == h;
  }

  /** Noon keeps its 12 and is PM. */
  lemma FormatTimeNoon()
    ensures FormatTime(TimeSlots()[8]) == "12:00 PM"
  {
    FormatTimeOfLabel(12, false);
  }

  /** Half past eight is AM. */
  lemma FormatTimeHalfPastEight()
    ensures FormatTime(TimeSlots()[1]) == "8:30 AM"
  {
    FormatTimeOfLabel(8, true);
  }

  /** The last slot, 18:00, shows as 6 PM. */
  lemma FormatTimeLastSlot()
    ensures FormatTime(TimeSlots()[SlotCount - 1]) == "6:00 PM"
  {
    FormatTimeOfLabel(18, false);
  }

  // ---------------------------------------------------------------------
  // Sessions in a cell

  /** The cell key of a session: its local start hour and half-hour bucket. */
  function SessionKey(w: Session): SlotKey {
    SlotKey(w.localStart.hour, w.localStart.minute / 30)
  }

  /** Whether `w` shows in the cell of `day` and `timeSlot`. */
  predicate InCell(selected: seq<int>, day: string, timeSlot: string, w: Session) {
    w.id in selected && w.day == day && SlotKeyOf(timeSlot) == Some(SessionKey(w))
  }

  /** `getWorkshopsForTimeSlot`: the selected sessions of the day whose start
      falls in the hour and half-hour bucket of the slot, in input order. */
  function GetWorkshopsForTimeSlot(workshops: seq<Session>, selected: seq<int>, day: string, timeSlot: string): (r: seq<Session>)
    ensures forall w :: w in r <==> w in workshops && InCell(selected, day, timeSlot, w)
    ensures SubseqOf(r, workshops)
    ensures forall w :: multiset(r)[w] ==
              if InCell(selected, day, timeSlot, w) then multiset(workshops)[w] else 0
  {
    var key := SlotKeyOf(timeSlot);
    var isSelected := (w: Session) => w.id in selected;
    var matches := (w: Session) => w.day == day && key == Some(SessionKey(w));
    var r := FilterKey(FilterKey(workshops, isSelected, true), matches, true);
    FilterKeyTwice(workshops, isSelected, matches, (w: Session) => isSelected(w) && matches(w));
    var both := (w: Session) => isSelected(w) && matches(w);
    FilterKeySubseq(workshops, both, true);
    assert forall w :: multiset(r)[w] == if both(w) then multiset(workshops)[w] else 0 by {
      forall w ensures multiset(r)[w] == if both(w) then multiset(workshops)[w] else 0 {
        FilterKeyCount(workshops, both, true, w);
      }
    }
    r
  }

  /** A session lies on the grid when its day is one of the four columns
      and it starts between 8:00 and 18:29. */
  predicate InGrid(w: Session) {
    w.day in Days && FirstHour <= w.localStart.hour &&
    (w.localStart.hour < LastHour || (w.localStart.hour == LastHour && w.localStart.minute < 30))
  }

  /** The slot of a session on the grid. */
  function SlotIndex(w: Session): (k: nat)
    requires InGrid(w)
    ensures k < SlotCount
  {
    2 * (w.localStart.hour - FirstHour) + w.localStart.minute / 30
  }

  /** A selected session falls in exactly one cell when it lies on the grid
      (its day's column, the slot of its start), and in none otherwise. */
  lemma ExactlyOneCell(workshops: seq<Session>, selected: seq<int>, w: Session, i: nat, k: nat)
    requires w in workshops && w.id in selected
    requires i < |Days| && k < SlotCount
    ensures w in GetWorkshopsForTimeSlot(workshops, selected, Days[i], TimeSlots()[k]) <==>
              InGrid(w) && Days[i] == w.day && k == SlotIndex(w)
  {
    SlotKeyOfTimeSlot(k);
    SlotKeyIsStart(w, k);
    assert Days[i] in Days;
  }

  /** Slot `k`'s key is a session's key exactly when the session starts
      between 8:00 and 18:29 and `k` is the slot of its start. */
  lemma SlotKeyIsStart(w: Session, k: nat)
    requires k < SlotCount
    ensures SlotKey(FirstHour + k / 2, k % 2) == SessionKey(w) <==>
              FirstHour <= w.localStart.hour &&
              (w.localStart.hour < LastHour || (w.localStart.hour == LastHour && w.localStart.minute < 30)) &&
              k == 2 * (w.localStart.hour - FirstHour) + w.localStart.minute / 30
  {
  }

  // ---------------------------------------------------------------------
  // Card geometry

  /** Card height in rem for a duration in minutes: four per half hour. */
  function HeightOf(minutes: int): (r: real)
    ensures r > 0.0 <==> minutes > 0
    ensures r == 0.0 <==> minutes == 0
  {
    (minutes as real / 30.0) * 4.0
  }

  /** `calculateSessionHeight`: a card has height exactly when its session
      lasts, and a half-hour session is one slot (4 rem) tall. */
  function SessionHeight(w: Session): (r: real)
    ensures r > 0.0 <==> w.start < w.end
    ensures r == 0.0 <==> w.start == w.end
    ensures w.end - w.start == 30 ==> r == 4.0
  {
    HeightOf(w.end - w.start)
  }

  /** The height is linear in the duration: 4 rem per half hour, so a
      30-minute session is 4 rem and a 90-minute one 12 rem. */
  lemma HeightLinear(a: int, b: int, n: int)
    ensures HeightOf(a + b) == HeightOf(a) + HeightOf(b)
    ensures HeightOf(30 * n) == 4.0 * n as real
    ensures HeightOf(30) == 4.0 && HeightOf(90) == 12.0
  {
  }

  /** Card offset in rem below the top of its slot for a start minute. */
  function OffsetOf(minute: Minute): (r: real)
    ensures 0.0 <= r < 4.0
    ensures r == 0.0 <==> minute % 30 == 0
  {
    ((minute % 30) as real / 30.0) * 4.0
  }

  /** `calculateTopOffset`: how far below its slot's top a card starts,
      less than one slot, and zero on the hour and half hour. */
  function TopOffset(w: Session): (r: real)
    ensures 0.0 <= r < 4.0
    ensures r == 0.0 <==> w.localStart.minute % 30 == 0
  {
    OffsetOf(w.localStart.minute)
  }

  /** Within a half hour, a later start sits lower. */
  lemma OffsetIncreasing(a: Minute, b: Minute)
    requires a / 30 == b / 30 && a < b
    ensures OffsetOf(a) < OffsetOf(b)
  {
  }

  /** The card's top edge, measured from the top of the 8:00 row, is the
      session's start in half hours times four: the slot chosen for it and
      the offset inside that slot add up to its true start. */
  lemma CardTopMatchesStart(w: Session)
    requires InGrid(w)
    ensures 4.0 * SlotIndex(w) as real + TopOffset(w) ==
              HeightOf((w.localStart.hour - FirstHour) * 60 + w.localStart.minute)
  {
    var m := w.localStart.minute;
    assert m == 30 * (m / 30) + m % 30;
  }

  // ---------------------------------------------------------------------
  // The view

  /** What the component shows: the empty-state notice, or the grid's time
      labels and, per day column, the sessions of each slot. */
  datatype View = EmptyState | Grid(timeLabels: seq<string>, columns: seq<seq<seq<Session>>>)

  /** The render: the empty state exactly when nothing is selected (even if
      the selected sessions are filtered out of `workshops`), otherwise a
      4 by 21 grid. */
  function RenderCalendar(workshops: seq<Session>, selected: seq<int>): (v: View)
    ensures v.EmptyState? <==> |selected| == 0
    ensures v.Grid? ==> |v.timeLabels| == SlotCount && |v.columns| == |Days| &&
                        forall i :: 0 <= i < |Days| ==> |v.columns[i]| == SlotCount
  {
    if |selected| == 0 then EmptyState
    else Grid(Map(TimeSlots(), FormatTime),
              seq(|Days|, i requires 0 <= i < |Days| =>
                seq(SlotCount, k requires 0 <= k < SlotCount =>
                  GetWorkshopsForTimeSlot(workshops, selected, Days[i], TimeSlots()[k]))))
  }

  /** On the rendered grid, each selected session that lies on the grid
      shows in its own day's column at its slot and in no other cell. */
  lemma RenderShowsEachOnce(workshops: seq<Session>, selected: seq<int>, w: Session)
    requires w in workshops && w.id in selected
    ensures var v := RenderCalendar(workshops, selected);
      v.Grid? &&
      forall i, k :: 0 <= i < |Days| && 0 <= k < SlotCount ==>
        (w in v.columns[i][k] <==> InGrid(w) && Days[i] == w.day && k == SlotIndex(w))
  {
    var v := RenderCalendar(workshops, selected);
    forall i, k | 0 <= i < |Days| && 0 <= k < SlotCount
      ensures w in v.columns[i][k] <==> InGrid(w) && Days[i] == w.day && k == SlotIndex(w)
    {
      ExactlyOneCell(workshops, selected, w, i, k);
    }
  }
}
