/** The list-view projections of the `WorkshopScheduler` component: the
    three filters, the two sorts, the filter choices, the description
    preview and the day / start-time grouping. */
module Projections {
  import opened Wrappers
  import opened Sessions
  import opened Seqs
  import opened Text

  const DescriptionPreviewLength: nat := 100
  /** The text shown, and exported, for a session without a description.
      Written as a concatenation so that the verifier does not unfold
      recursive functions applied to it character by character. */
  const NoDescription := "No description" + " available"

  /** `truncateDescription`: a placeholder for an empty description, the
      description itself when short, else its first 100 characters and "...". */
  function TruncateDescription(description: string): (r: string)
    ensures description == [] ==> r == NoDescription
    ensures 0 < |description| <= DescriptionPreviewLength ==> r == description
    ensures |description| > DescriptionPreviewLength ==>
              |r| == DescriptionPreviewLength + 3 &&
              r[..DescriptionPreviewLength] == description[..DescriptionPreviewLength] &&
              r[DescriptionPreviewLength..] == "..."
  {
    if description == [] then NoDescription
    else if |description| <= DescriptionPreviewLength then description
    else description[..DescriptionPreviewLength] + "..."
  }

  // ---------------------------------------------------------------------
  // Filters

  /** The value a filter holds when it lets everything through. */
  const All := "all"

  datatype Filters = Filters(day: string, skillLevel: string, sessionType: string)

  predicate MatchesFilters(f: Filters, w: Session) {
    (f.day == All || w.day == f.day) &&
    (f.skillLevel == All || w.skillLevel == f.skillLevel) &&
    (f.sessionType == All || w.sessionType == f.sessionType)
  }

  /** `filteredWorkshops`: the catalog sessions every filter accepts. */
  function FilterWorkshops(data: seq<Session>, f: Filters): seq<Session> {
    FilterKey(data, (w: Session) => MatchesFilters(f, w), true)
  }

  /** The filtered list keeps exactly the sessions every non-"all" filter
      accepts, in catalog order. */
  lemma FilteredIsOrderedSelection(data: seq<Session>, f: Filters)
    ensures SubseqOf(FilterWorkshops(data, f), data)
    ensures forall w :: w in FilterWorkshops(data, f) <==> w in data && MatchesFilters(f, w)
    ensures forall w :: multiset(FilterWorkshops(data, f))[w] ==
              if MatchesFilters(f, w) then multiset(data)[w] else 0
    ensures forall w :: w in FilterWorkshops(data, f) ==>
              (f.day != All ==> w.day == f.day) &&
              (f.skillLevel != All ==> w.skillLevel == f.skillLevel) &&
              (f.sessionType != All ==> w.sessionType == f.sessionType)
  {
    FilterKeySubseq(data, (w: Session) => MatchesFilters(f, w), true);
    forall w ensures multiset(FilterWorkshops(data, f))[w] ==
                     if MatchesFilters(f, w) then multiset(data)[w] else 0 {
      FilterKeyCount(data, (w: Session) => MatchesFilters(f, w), true, w);
    }
  }

  /** With the three filters on "all" the whole catalog is listed. */
  lemma AllFiltersKeepEverything(data: seq<Session>)
    ensures FilterWorkshops(data, Filters(All, All, All)) == data
  {
    FilterKeyAll(data, (w: Session) => MatchesFilters(Filters(All, All, All), w), true);
  }

  // ---------------------------------------------------------------------
  // Sorting

  /** `a.room?.room_name || ""`. */
  function RoomKey(w: Session): string {
    match w.room
    case None => ""
    case Some(r) => r.roomName
  }

  /** The comparator of `sortedWorkshops`: start time, then room name. */
  predicate ByStartThenRoom(a: Session, b: Session) {
    a.start < b.start || (a.start == b.start && StrLe(RoomKey(a), RoomKey(b)))
  }

  /** The comparator of `groupedWorkshops`: start time only. */
  predicate ByStart(a: Session, b: Session) {
    a.start <= b.start
  }

  lemma ByStartThenRoomIsTotalPreorder()
    ensures TotalPreorder(ByStartThenRoom)
  {
    forall a: Session, b: Session ensures ByStartThenRoom(a, b) || ByStartThenRoom(b, a) {
      StrLeTotal(RoomKey(a), RoomKey(b));
    }
    forall a: Session, b: Session, c: Session | ByStartThenRoom(a, b) && ByStartThenRoom(b, c)
      ensures ByStartThenRoom(a, c)
    {
      if a.start == b.start == c.start {
        StrLeTransitive(RoomKey(a), RoomKey(b), RoomKey(c));
      }
    }
  }

  lemma ByStartIsTotalPreorder()
    ensures TotalPreorder(ByStart)
  {
  }

  /** `sortedWorkshops`. */
  function SortWorkshops(filtered: seq<Session>): seq<Session> {
    SortBy(filtered, ByStartThenRoom)
  }

  /** The sorted list is a permutation of the filtered one, ordered by start
      and then by room name (a missing room counting as ""), and sessions
      with the same start and room keep their filtered order. */
  lemma SortedWorkshopsOrdered(filtered: seq<Session>)
    ensures multiset(SortWorkshops(filtered)) == multiset(filtered)
    ensures forall i, j :: 0 <= i < j < |SortWorkshops(filtered)| ==>
              var a, b := SortWorkshops(filtered)[i], SortWorkshops(filtered)[j];
              a.start < b.start || (a.start == b.start && StrLe(RoomKey(a), RoomKey(b)))
    ensures forall x :: EquivTo(SortWorkshops(filtered), x, ByStartThenRoom) ==
                        EquivTo(filtered, x, ByStartThenRoom)
  {
    ByStartThenRoomIsTotalPreorder();
    SortBySorted(filtered, ByStartThenRoom);
    forall x ensures EquivTo(SortWorkshops(filtered), x, ByStartThenRoom) == EquivTo(filtered, x, ByStartThenRoom) {
      SortByStable(filtered, x, ByStartThenRoom);
    }
  }

  // ---------------------------------------------------------------------
  // Filter choices

  predicate NonEmptyText(v: string) {
    v != ""
  }

  function DayOf(w: Session): string { w.day }
  function SkillOf(w: Session): string { w.skillLevel }
  function TypeOf(w: Session): string { w.sessionType }

  /** `[...new Set(values)].sort()`, optionally after `.filter(Boolean)`. */
  function Choices(values: seq<string>, dropEmpty: bool): seq<string> {
    var d := Distinct(values);
    SortBy(if dropEmpty then FilterKey(d, NonEmptyText, true) else d, StrLe)
  }

  datatype FilterOptions = FilterOptions(days: seq<string>, skillLevels: seq<string>, sessionTypes: seq<string>)

  /** `filterOptions`: the distinct days, skill levels and session types of
      the catalog, sorted; empty skill levels and types are left out. */
  function FilterOptionsOf(data: seq<Session>): FilterOptions {
    FilterOptions(
      Choices(Map(data, DayOf), false),
      Choices(Map(data, SkillOf), true),
      Choices(Map(data, TypeOf), true))
  }

  /** Each value comes strictly after the ones before it. */
  predicate StrictlyAscending(c: seq<string>) {
    forall i, j :: 0 <= i < j < |c| ==> StrLe(c[i], c[j]) && c[i] != c[j]
  }

  /** A choice list is strictly increasing and holds exactly the values
      present (the non-empty ones, when empty values are dropped). */
  lemma ChoicesSpec(values: seq<string>, dropEmpty: bool)
    ensures var c := Choices(values, dropEmpty);
      StrictlyAscending(c) &&
      (forall v :: v in c <==> v in values && (dropEmpty ==> v != ""))
  {
    var d := Distinct(values);
    var kept := if dropEmpty then FilterKey(d, NonEmptyText, true) else d;
    if dropEmpty {
      FilterKeySubseqNoDups(d, NonEmptyText, true);
    }
    assert NoDups(kept);
    var c := SortBy(kept, StrLe);
    assert TotalPreorder(StrLe) by {
      forall a, b ensures StrLe(a, b) || StrLe(b, a) { StrLeTotal(a, b); }
      forall a, b, c | StrLe(a, b) && StrLe(b, c) ensures StrLe(a, c) { StrLeTransitive(a, b, c); }
    }
    SortBySorted(kept, StrLe);
    SortByNoDups(kept, StrLe);
    forall v ensures v in c <==> v in kept {
      assert v in c <==> v in multiset(c);
      assert v in kept <==> v in multiset(kept);
    }
  }

  lemma {:induction false} FilterKeySubseqNoDups(s: seq<string>, key: string -> bool, k: bool)
    requires NoDups(s)
    ensures NoDups(FilterKey(s, key, k))
  {
    if s != [] {
      var p := s[..|s| - 1];
      assert NoDups(p);
      FilterKeySubseqNoDups(p, key, k);
      assert s[|s| - 1] !in p;
    }
  }

  /** The choices of one session field: strictly increasing, and holding
      exactly the values some session has (the non-empty ones, when empty
      values are dropped). */
  lemma FieldChoices(data: seq<Session>, field: Session -> string, dropEmpty: bool)
    ensures var c := Choices(Map(data, field), dropEmpty);
      StrictlyAscending(c) &&
      forall v :: v in c <==> (dropEmpty ==> v != "") && exists w :: w in data && field(w) == v
  {
    ChoicesSpec(Map(data, field), dropEmpty);
    forall v ensures v in Map(data, field) <==> exists w :: w in data && field(w) == v {
      if exists w :: w in data && field(w) == v {
        var w :| w in data && field(w) == v;
        var k :| 0 <= k < |data| && data[k] == w;
        assert Map(data, field)[k] == v;
      }
    }
  }

  /** The day, skill level and type choices are each the catalog's distinct
      values, sorted; empty skill levels and types are left out. */
  lemma FilterOptionsSorted(data: seq<Session>)
    ensures var o := FilterOptionsOf(data);
      StrictlyAscending(o.days) && StrictlyAscending(o.skillLevels) && StrictlyAscending(o.sessionTypes) &&
      (forall v :: v in o.days <==> exists w :: w in data && w.day == v) &&
      (forall v :: v in o.skillLevels <==> v != "" && exists w :: w in data && w.skillLevel == v) &&
      (forall v :: v in o.sessionTypes <==> v != "" && exists w :: w in data && w.sessionType == v)
  {
    FieldChoices(data, DayOf, false);
    FieldChoices(data, SkillOf, true);
    FieldChoices(data, TypeOf, true);
  }

  // ---------------------------------------------------------------------
  // Start-time labels

  /** The hour on a 12-hour clock face. */
  function Hour12(h: Hour): (r: nat)
    ensures 1 <= r <= 12
  {
    if h % 12 == 0 then 12 else h % 12
  }

  function Meridiem(h: Hour): string {
    if h < 12 then "AM" else "PM"
  }

  /** What follows the hour in a label: ":mm AM" or ":mm PM". */
  function ClockTail(t: ClockTime): (r: string)
    ensures |r| == 6 && r[0] == ':' && r[1..3] == Padded(t.minute, 2) && r[3] == ' ' &&
            r[4..] == Meridiem(t.hour)
  {
    ":" + Padded(t.minute, 2) + " " + Meridiem(t.hour)
  }

  /** `formatDateTime`: the en-US short time, e.g. "9:05 AM" or "12:30 PM". */
  function FormatDateTime(t: ClockTime): (r: string)
    ensures 7 <= |r| <= 8 && r[|r| - 2..] == Meridiem(t.hour)
  {
    var h, tail := NatToString(Hour12(t.hour)), ClockTail(t);
    TwoDigitsAtMost(Hour12(t.hour));
    assert (h + tail)[|h + tail| - 2..] == tail[4..];
    h + tail
  }

  lemma TwoDigitsAtMost(n: nat)
    requires n < 100
    ensures |NatToString(n)| <= 2
  {
    if n >= 10 {
      assert NatToString(n) == NatToString(n / 10) + [DigitChar(n % 10)];
    }
  }

  /** The inner grouping key of a session. */
  function StartLabel(w: Session): string {
    FormatDateTime(w.localStart)
  }

  lemma PaddedMinuteInjective(a: Minute, b: Minute)
    requires Padded(a, 2) == Padded(b, 2)
    ensures a == b
  {
    var pa, pb := Padded(a, 2), Padded(b, 2);
    assert pa[1] == pb[1] && pa[0] == pb[0];
    assert pa == Padded(a / 10, 1) + [DigitChar(a % 10)];
    assert Padded(a / 10, 1) == [DigitChar(a / 10 % 10)];
    assert pb == Padded(b / 10, 1) + [DigitChar(b % 10)];
    assert Padded(b / 10, 1) == [DigitChar(b / 10 % 10)];
  }

  lemma Hour12Injective(a: Hour, b: Hour)
    requires Hour12(a) == Hour12(b) && Meridiem(a) == Meridiem(b)
    ensures a == b
  {
    assert (a < 12) == (b < 12) by {
      assert Meridiem(a)[0] == Meridiem(b)[0];
    }
  }

  /** Different clock times get different labels, so grouping by label is
      grouping by local start time of day. */
  lemma FormatDateTimeInjective(a: ClockTime, b: ClockTime)
    requires FormatDateTime(a) == FormatDateTime(b)
    ensures a == b
  {
    var ha, hb := NatToString(Hour12(a.hour)), NatToString(Hour12(b.hour));
    var ra, rb := ClockTail(a), ClockTail(b);
    ParseIntNatToString(Hour12(a.hour), ra);
    ParseIntNatToString(Hour12(b.hour), rb);
    assert Hour12(a.hour) == Hour12(b.hour);
    assert ra == (ha + ra)[|ha|..] && rb == (hb + rb)[|hb|..];
    assert ra == rb;
    PaddedMinuteInjective(a.minute, b.minute);
    Hour12Injective(a.hour, b.hour);
  }

  lemma StartLabelsEqualIff(v: Session, w: Session)
    ensures StartLabel(v) == StartLabel(w) <==> v.localStart == w.localStart
  {
    if StartLabel(v) == StartLabel(w) {
      FormatDateTimeInjective(v.localStart, w.localStart);
    }
  }

  // ---------------------------------------------------------------------
  // Grouping by day and start time

  /** The sessions of one day keyed by start label; `labels` lists the keys
      in insertion order. `Object.entries` returns string keys in that order
      (labels such as "9:00 AM" are never integer-like). */
  datatype TimeGroups = TimeGroups(labels: seq<string>, lists: map<string, seq<Session>>)

  /** `groupedWorkshops`: day -> start label -> sessions, with `days`
      listing the outer keys in insertion order. That is the order of a
      JavaScript object's keys only for keys that are not integer-like,
      and a day named like an inherited property (`constructor`) would not
      get a group of its own; the model treats every day as an ordinary key. */
  datatype Grouping = Grouping(days: seq<string>, slots: map<string, TimeGroups>)

  /** The inner grouping of a day's sessions `s`. */
  function TimeGroupsOf(s: seq<Session>): TimeGroups {
    TimeGroups(Distinct(Map(s, StartLabel)), GroupLists(s, StartLabel))
  }

  /** The grouping of the sequence `s`, taken in order. */
  function GroupingOf(s: seq<Session>): Grouping {
    Grouping(Distinct(Map(s, DayOf)), ByDay(GroupLists(s, DayOf)))
  }

  /** Each day's sessions regrouped by start label. */
  function ByDay(byDay: map<string, seq<Session>>): map<string, TimeGroups> {
    map d | d in byDay :: TimeGroupsOf(byDay[d])
  }

  /** What one `forEach` step does to the inner dictionary. */
  function AddToTimeGroups(tg: TimeGroups, w: Session): TimeGroups {
    var t := StartLabel(w);
    if t in tg.lists then TimeGroups(tg.labels, tg.lists[t := tg.lists[t] + [w]])
    else TimeGroups(tg.labels + [t], tg.lists[t := [w]])
  }

  lemma TimeGroupsStep(q: seq<Session>, w: Session)
    ensures TimeGroupsOf(q + [w]) == AddToTimeGroups(TimeGroupsOf(q), w)
  {
    MapAppend(q, w, StartLabel);
    DistinctAppend(Map(q, StartLabel), StartLabel(w));
    GroupListsAppend(q, w, StartLabel);
  }

  /** What one `forEach` step does to the outer dictionary. */
  function AddToGrouping(g: Grouping, w: Session): Grouping {
    var d := w.day;
    if d in g.slots then Grouping(g.days, g.slots[d := AddToTimeGroups(g.slots[d], w)])
    else Grouping(g.days + [d], g.slots[d := AddToTimeGroups(TimeGroups([], map[]), w)])
  }

  lemma GroupingOfAt(s: seq<Session>, e: string)
    requires e in GroupLists(s, DayOf)
    ensures e in GroupingOf(s).slots && GroupingOf(s).slots[e] == TimeGroupsOf(GroupLists(s, DayOf)[e])
  {
  }

  lemma GroupingStepOtherDay(p: seq<Session>, w: Session, e: string)
    requires e in GroupingOf(p + [w]).slots && e != w.day
    ensures e in GroupingOf(p).slots && GroupingOf(p + [w]).slots[e] == GroupingOf(p).slots[e]
  {
    GroupingOfAt(p + [w], e);
    GroupListsAppendAt(p, w, DayOf, e);
    GroupingOfAt(p, e);
  }

  lemma GroupingStepKnownDay(p: seq<Session>, w: Session)
    requires w.day in GroupingOf(p).slots
    ensures w.day in GroupingOf(p + [w]).slots
    ensures GroupingOf(p + [w]).slots[w.day] == AddToTimeGroups(GroupingOf(p).slots[w.day], w)
  {
    GroupListsAppendKeys(p, w, DayOf);
    GroupingOfAt(p + [w], w.day);
    GroupListsAppendAt(p, w, DayOf, w.day);
    GroupingOfAt(p, w.day);
    TimeGroupsStep(GroupLists(p, DayOf)[w.day], w);
  }

  lemma TimeGroupsOfOne(w: Session)
    ensures TimeGroupsOf([w]) == AddToTimeGroups(TimeGroups([], map[]), w)
  {
    TimeGroupsStep([], w);
    assert [] + [w] == [w];
    assert GroupLists([], StartLabel) == map[];
  }

  lemma GroupingStepNewDay(p: seq<Session>, w: Session)
    requires w.day !in GroupingOf(p).slots
    ensures w.day in GroupingOf(p + [w]).slots
    ensures GroupingOf(p + [w]).slots[w.day] == AddToTimeGroups(TimeGroups([], map[]), w)
  {
    assert w.day !in GroupLists(p, DayOf);
    GroupListsAppendKeys(p, w, DayOf);
    GroupListsAppendAt(p, w, DayOf, w.day);
    GroupingOfAt(p + [w], w.day);
    TimeGroupsOfOne(w);
  }

  lemma GroupingStepDays(p: seq<Session>, w: Session)
    ensures GroupingOf(p + [w]).days == AddToGrouping(GroupingOf(p), w).days
  {
    MapAppend(p, w, DayOf);
    DistinctAppend(Map(p, DayOf), w.day);
  }

  lemma GroupingStepKeys(p: seq<Session>, w: Session)
    ensures GroupingOf(p + [w]).slots.Keys == GroupingOf(p).slots.Keys + {w.day}
  {
    GroupListsAppendKeys(p, w, DayOf);
  }

  lemma GroupingStepOtherDays(p: seq<Session>, w: Session)
    ensures forall e :: e in GroupingOf(p + [w]).slots && e != w.day ==>
              e in GroupingOf(p).slots && GroupingOf(p + [w]).slots[e] == GroupingOf(p).slots[e]
  {
    forall e | e in GroupingOf(p + [w]).slots && e != w.day
      ensures e in GroupingOf(p).slots && GroupingOf(p + [w]).slots[e] == GroupingOf(p).slots[e]
    {
      GroupingStepOtherDay(p, w, e);
    }
  }

  lemma GroupingStepSlots(p: seq<Session>, w: Session)
    ensures GroupingOf(p + [w]).slots == AddToGrouping(GroupingOf(p), w).slots
  {
    var before := GroupingOf(p).slots;
    var after := GroupingOf(p + [w]).slots;
    GroupingStepKeys(p, w);
    GroupingStepOtherDays(p, w);
    if w.day in before {
      GroupingStepKnownDay(p, w);
      MapUpdateExtensional(after, before, w.day, AddToTimeGroups(before[w.day], w));
    } else {
      GroupingStepNewDay(p, w);
      MapUpdateExtensional(after, before, w.day, AddToTimeGroups(TimeGroups([], map[]), w));
    }
  }

  /** One `forEach` step of the source turns the grouping of a prefix into
      the grouping of the prefix extended by one session. */
  lemma GroupingStep(p: seq<Session>, w: Session)
    ensures GroupingOf(p + [w]) == AddToGrouping(GroupingOf(p), w)
  {
    GroupingStepDays(p, w);
    GroupingStepSlots(p, w);
  }

  lemma GroupingOfEmpty()
    ensures GroupingOf([]) == Grouping([], map[])
  {
    assert GroupLists([], DayOf) == map[];
  }

  /** The dictionaries after the `forEach` has filed the sessions of `s`
      one after the other, starting from `{}`. */
  function Filed(s: seq<Session>): Grouping {
    if s == [] then Grouping([], map[]) else AddToGrouping(Filed(s[..|s| - 1]), s[|s| - 1])
  }

  /** Filing session by session yields exactly the grouping of `s`: every
      key lists its sessions in the order of `s`, keys in first-use order. */
  lemma {:induction false} FiledIsGroupingOf(s: seq<Session>)
    ensures Filed(s) == GroupingOf(s)
  {
    if s == [] {
      GroupingOfEmpty();
    } else {
      var p, x := s[..|s| - 1], s[|s| - 1];
      assert s == p + [x];
      FiledIsGroupingOf(p);
      GroupingStep(p, x);
      calc {
        Filed(s);
        AddToGrouping(Filed(p), x);
        AddToGrouping(GroupingOf(p), x);
        GroupingOf(p + [x]);
      }
    }
  }

  /** `groupedWorkshops`: sorts the filtered sessions by start time and
      files each one under its day and its start label. */
  method GroupWorkshops(filtered: seq<Session>) returns (g: Grouping)
    ensures g == GroupingOf(SortBy(filtered, ByStart))
  {
    var sortedData := SortBy(filtered, ByStart);
    var days: seq<string> := [];
    var groups: map<string, TimeGroups> := map[];
    for i := 0 to |sortedData|
      invariant Grouping(days, groups) == Filed(sortedData[..i])
    {
      ghost var prev := Grouping(days, groups);
      var workshop := sortedData[i];
      var day := workshop.day;
      var startTime := StartLabel(workshop);
      if day !in groups {
        groups := groups[day := TimeGroups([], map[])];
        days := days + [day];
      }
      var inner := groups[day];
      ghost var inner0 := inner;
      if startTime !in inner.lists {
        inner := TimeGroups(inner.labels + [startTime], inner.lists[startTime := []]);
      }
      inner := inner.(lists := inner.lists[startTime := inner.lists[startTime] + [workshop]]);
      if startTime !in inner0.lists {
        assert [] + [workshop] == [workshop];
        MapOverwrite(inner0.lists, startTime, [], [workshop]);
      }
      if day !in prev.slots {
        MapOverwrite(prev.slots, day, TimeGroups([], map[]), inner);
      }
      groups := groups[day := inner];
      assert sortedData[..i + 1][..i] == sortedData[..i];
    }
    assert sortedData[..|sortedData|] == sortedData;
    FiledIsGroupingOf(sortedData);
    g := Grouping(days, groups);
  }

  /** The list a session is filed under, or [] when there is none. */
  function ListAt(g: Grouping, d: string, t: string): seq<Session> {
    if d in g.slots && t in g.slots[d].lists then g.slots[d].lists[t] else []
  }

  /** Every session lands in the list of its own day and start label and in
      no other; each list keeps the order of `s`. */
  lemma GroupingFilesEachSessionOnce(s: seq<Session>, w: Session, d: string, t: string)
    requires w in s
    ensures w in ListAt(GroupingOf(s), d, t) <==> d == w.day && t == StartLabel(w)
    ensures SubseqOf(ListAt(GroupingOf(s), d, t), FilterKey(s, DayOf, d))
  {
    var g := GroupingOf(s);
    var k :| 0 <= k < |s| && s[k] == w;
    assert Map(s, DayOf)[k] == w.day;
    var sd := FilterKey(s, DayOf, w.day);
    assert w in sd;
    var j :| 0 <= j < |sd| && sd[j] == w;
    assert Map(sd, StartLabel)[j] == StartLabel(w);
    if d in g.slots && t in g.slots[d].lists {
      FilterKeySubseq(FilterKey(s, DayOf, d), StartLabel, t);
    } else {
      assert ListAt(g, d, t) == [];
    }
  }

  /** Each list of the grouping of a start-sorted sequence is in start order. */
  lemma GroupedListsSortedByStart(filtered: seq<Session>, d: string, t: string)
    ensures SortedBy(ListAt(GroupingOf(SortBy(filtered, ByStart)), d, t), ByStart)
  {
    var s := SortBy(filtered, ByStart);
    ByStartIsTotalPreorder();
    SortBySorted(filtered, ByStart);
    FilterKeySorted(s, DayOf, d, ByStart);
    FilterKeySorted(FilterKey(s, DayOf, d), StartLabel, t, ByStart);
  }

  /** The day keys come in the order of their first session in `s`. */
  lemma GroupingDaysInFirstOccurrenceOrder(s: seq<Session>, i: nat, j: nat)
    requires i < j < |GroupingOf(s).days|
    ensures var g := GroupingOf(s);
      IndexOf(Map(s, DayOf), g.days[i]) < IndexOf(Map(s, DayOf), g.days[j])
  {
    DistinctFirstOccurrence(Map(s, DayOf), i, j);
  }

  /** Number of sessions in the lists named by `labels`. */
  function ListsTotal(labels: seq<string>, lists: map<string, seq<Session>>): nat {
    if labels == [] then 0
    else (if labels[0] in lists then |lists[labels[0]]| else 0) + ListsTotal(labels[1..], lists)
  }

  /** Number of sessions in the whole grouping, summed over its keys. */
  function GroupingTotal(days: seq<string>, slots: map<string, TimeGroups>): nat {
    if days == [] then 0
    else
      (if days[0] in slots then ListsTotal(slots[days[0]].labels, slots[days[0]].lists) else 0) +
      GroupingTotal(days[1..], slots)
  }

  lemma {:induction false} ListsTotalCounts(q: seq<Session>, labels: seq<string>)
    ensures ListsTotal(labels, TimeGroupsOf(q).lists) == SumCounts(q, StartLabel, labels)
  {
    if labels != [] {
      ListsTotalCounts(q, labels[1..]);
      var t := labels[0];
      if t !in Map(q, StartLabel) {
        forall y | y in q ensures StartLabel(y) != t {
          var j :| 0 <= j < |q| && q[j] == y;
          assert Map(q, StartLabel)[j] == StartLabel(y);
        }
        FilterKeyNone(q, StartLabel, t);
      }
    }
  }

  lemma {:induction false} GroupingTotalCounts(s: seq<Session>, days: seq<string>)
    ensures GroupingTotal(days, GroupingOf(s).slots) == SumCounts(s, DayOf, days)
  {
    if days != [] {
      GroupingTotalCounts(s, days[1..]);
      var d := days[0];
      var sd := FilterKey(s, DayOf, d);
      if d in Map(s, DayOf) {
        ListsTotalCounts(sd, Distinct(Map(sd, StartLabel)));
        SumCountsDistinct(sd, StartLabel);
      } else {
        forall y | y in s ensures DayOf(y) != d {
          var j :| 0 <= j < |s| && s[j] == y;
          assert Map(s, DayOf)[j] == DayOf(y);
        }
        FilterKeyNone(s, DayOf, d);
      }
    }
  }

  /** Grouping neither loses nor duplicates a session. */
  lemma GroupingPreservesCount(s: seq<Session>)
    ensures GroupingTotal(GroupingOf(s).days, GroupingOf(s).slots) == |s|
  {
    GroupingTotalCounts(s, GroupingOf(s).days);
    SumCountsDistinct(s, DayOf);
  }
}
