# NICAR workshop scheduler — a Dafny model

The scheduler is a single-page app for the NICAR 2025 conference. It lists a
fixed catalog of workshop sessions and filters them by day, skill level and
session type. The attendee picks sessions and is told when a pick overlaps a
session already picked. The picks can be shown on a week grid and exported
as an iCalendar file. This project models the logic behind those views and
proves what it does:

- `Sessions` (`sessions.dfy`): the session, room and speaker records, and the
  lookup of a session by id.
- `Conflict` (`conflict.dfy`): the selection engine. The `Scheduler` class
  holds the selected ids (an insertion-ordered set), the single conflict
  alert and the expanded cards. Its methods are `checkTimeConflict`,
  `handleWorkshopSelect` and `toggleCardExpansion`. Its headline invariant
  is that the selected sessions never overlap pairwise.
- `Projections` (`projections.dfy`): the three filters, the two sorts, the
  filter choices, `truncateDescription`, the start-time labels, and
  `groupedWorkshops`. The last is a loop filling a nested dictionary, proved
  equal to a day → start label → sessions grouping.
- `Ics` (`ics.dfy`): `generateICSFile`. This covers TEXT escaping (section
  3.3.11 of RFC 5545), the UTC DATE-TIME stamp (section 3.3.5), the UID, the
  nine lines of each VEVENT, and the loop that builds the line list joined
  with CRLF.
- `Calendar` (`calendar.dfy`): `CalendarView`. This covers the 21 half-hour
  slots, their labels, the cell each selected session lands in, card height
  and offset, and the empty-selection gate.
- `Text`, `Seqs` and `Wrappers`: the JavaScript string and array operations
  these rely on. These are decimal printing, `parseInt`, `split`/`join`,
  `filter`, the stable `sort`, and `new Set` for distinct values.

Representation choices:

- **Timestamps.** A session's start and end are absolute times in whole
  minutes, which is what the conflict test and the card height compare. The
  local wall-clock start, which `getHours`/`getMinutes` and the time labels
  read, is a field. So are the UTC calendar fields that `toISOString` prints.
- **Clock.** `new Date()` for DTSTAMP is read once per event, so it becomes a
  parameter `clock: nat -> UtcDateTime` giving the reading for the k-th event.
- **Selection set.** A JavaScript `Set` is modelled as a sequence without
  duplicates, kept in insertion order.
- **Absent fields.** A missing room is `None`. The text fields the export
  reads are assumed present; an empty one is `""`. Where the code guards a
  field with `||`, a missing field behaves like an empty one.

In these places the code behaves in ways a reader might not expect; the
model follows the code:

- The grouped listing sorts by start time only (`WorkshopScheduler.tsx`
  lines 240-242). Only `sortedWorkshops`, the list passed to the calendar
  view, breaks ties by room, so the room order shows only among sessions in
  the same calendar cell.
- A selected id missing from the catalog makes `checkTimeConflict`
  dereference `undefined` and throw. The model makes "every selected id is
  in the catalog" a precondition.
- The conflict search visits the selection in insertion order.
- The file's lines are joined with CRLF, so no CRLF follows `END:VCALENDAR`.
- Lines are not folded.
- Only the title, the location and the free-text description are escaped.
  The type, the skill level and the speaker list are inserted as they are.
- A selected session whose day is not one of the four columns, or that
  starts outside 8:00–18:29, lands in no calendar cell at all.

## Model

| member | source | states |
|---|---|---|
| Sessions.Find | src/components/WorkshopScheduler.tsx:106 | `find` returns the first session with the id, or nothing exactly when no session has it |
| Sessions.Lookup | src/components/WorkshopScheduler.tsx:106 | the session found for a selected id is in the catalog and carries that id |
| Sessions.LookupOwnId | src/components/WorkshopScheduler.tsx:106 | with unique ids, looking up a catalog session's own id finds that very session |
| Conflict.Overlaps | src/components/WorkshopScheduler.tsx:107-110 | the overlap test of two sessions; its laws are Conflict.OverlapsSymmetric and Conflict.TouchingDoNotOverlap |
| Conflict.OverlapsSymmetric | src/components/WorkshopScheduler.tsx:107-110 | the overlap test is symmetric |
| Conflict.TouchingDoNotOverlap | src/components/WorkshopScheduler.tsx:107-110 | sessions that only meet at an endpoint do not conflict |
| Conflict.FirstConflict | src/components/WorkshopScheduler.tsx:104-115 | no result exactly when no selected session overlaps the candidate; otherwise the first overlapping one in selection order |
| Conflict.Remove | src/components/WorkshopScheduler.tsx:82 | `Set.delete`: removes exactly that id, keeps the others in order, keeps the set duplicate-free |
| Conflict.Toggled | src/components/WorkshopScheduler.tsx:80-86 | membership flips for the toggled id only; no duplicates appear |
| Conflict.ToggledTwice | src/components/WorkshopScheduler.tsx:80-86 | toggling twice restores membership, and the very sequence when the id was absent |
| Conflict.RemoveKeepsConflictFree | src/components/WorkshopScheduler.tsx:120-123 | deselecting keeps the selection overlap-free |
| Conflict.AddKeepsConflictFree | src/components/WorkshopScheduler.tsx:125-134 | adding a session that overlaps no selected session keeps the selection overlap-free |
| Conflict.AddKeepsFacts | src/components/WorkshopScheduler.tsx:131-134 | adding a non-conflicting new id keeps the set duplicate-free and known, changes no other id's membership, and preserves freedom from overlap |
| Conflict.Scheduler.constructor | src/components/WorkshopScheduler.tsx:65-67 | starts with nothing selected, no alert and no card expanded |
| Conflict.Scheduler.CheckTimeConflict | src/components/WorkshopScheduler.tsx:104-115 | the loop with early return yields the first conflict in insertion order, or none |
| Conflict.Scheduler.HandleWorkshopSelect | src/components/WorkshopScheduler.tsx:117-137 | the three outcomes (deselect and clear the alert; reject with alert {candidate, conflict}; add and clear the alert), no other id's membership changes, and an overlap-free selection stays overlap-free |
| Conflict.Scheduler.ToggleCardExpansion | src/components/WorkshopScheduler.tsx:75-87 | the expanded set is toggled at that id; selection and alert are untouched |
| Projections.TruncateDescription | src/components/WorkshopScheduler.tsx:89-93 | placeholder for an empty description, the description itself up to 100 characters, else its first 100 characters followed by "..." |
| Projections.FilterWorkshops | src/components/WorkshopScheduler.tsx:152-162 | `filteredWorkshops`; its contract is Projections.FilteredIsOrderedSelection and Projections.AllFiltersKeepEverything |
| Projections.FilteredIsOrderedSelection | src/components/WorkshopScheduler.tsx:152-162 | the filtered list is an order-preserving subsequence of the catalog holding exactly the sessions that every non-"all" filter accepts, each with all its copies |
| Projections.AllFiltersKeepEverything | src/components/WorkshopScheduler.tsx:152-162 | with all three filters on "all" the list is the catalog |
| Projections.ByStartThenRoomIsTotalPreorder | src/components/WorkshopScheduler.tsx:165-169 | the comparator (start, then room name with a missing room as "") is total and transitive |
| Projections.SortWorkshops | src/components/WorkshopScheduler.tsx:164-170 | `sortedWorkshops`; its contract is Projections.SortedWorkshopsOrdered |
| Projections.SortedWorkshopsOrdered | src/components/WorkshopScheduler.tsx:164-170 | the sorted list is a permutation of the filtered one, ordered by start then room, and equal-key sessions keep their filtered order |
| Projections.ChoicesSpec | src/components/WorkshopScheduler.tsx:141-147 | a choice list is strictly increasing and holds exactly the values present (non-empty ones where `filter(Boolean)` applies) |
| Projections.FilterOptionsOf | src/components/WorkshopScheduler.tsx:139-150 | `filterOptions`; its contract is Projections.FilterOptionsSorted |
| Projections.FieldChoices | src/components/WorkshopScheduler.tsx:141-147 | the choices of one field are strictly increasing and are exactly the values some session has, non-empty where empty ones are dropped |
| Projections.FilterOptionsSorted | src/components/WorkshopScheduler.tsx:139-150 | the day, skill level and type lists are each strictly increasing and hold exactly the catalog's values, with empty levels and types dropped |
| Projections.Hour12 | src/components/WorkshopScheduler.tsx:95-102 | the 12-hour clock hour is between 1 and 12 |
| Projections.ClockTail | src/components/WorkshopScheduler.tsx:95-102 | the label after the hour is ":", the two-digit minute, a space and AM/PM |
| Projections.FormatDateTime | src/components/WorkshopScheduler.tsx:95-102 | `formatDateTime` gives 7 or 8 characters ending in AM before noon and PM from noon; it is injective (Projections.FormatDateTimeInjective) |
| Projections.FormatDateTimeInjective | src/components/WorkshopScheduler.tsx:95-102 | different clock times get different labels |
| Projections.StartLabelsEqualIff | src/components/WorkshopScheduler.tsx:246 | two sessions share a start label exactly when their local start times agree |
| Projections.TimeGroupsStep | src/components/WorkshopScheduler.tsx:251-254 | adding a session to a day's groups appends it to its label's list, creating the label if new |
| Projections.GroupingStep | src/components/WorkshopScheduler.tsx:244-255 | grouping one more session is one step of the `forEach` body |
| Projections.GroupingOfEmpty | src/components/WorkshopScheduler.tsx:239 | grouping nothing gives the empty dictionary |
| Projections.FiledIsGroupingOf | src/components/WorkshopScheduler.tsx:244-255 | filing the sessions one by one gives the declarative grouping |
| Projections.GroupWorkshops | src/components/WorkshopScheduler.tsx:238-258 | the loop over the start-sorted sessions builds exactly the grouping of that sorted list |
| Projections.GroupingFilesEachSessionOnce | src/components/WorkshopScheduler.tsx:244-255 | a session is in the list at (d, t) exactly when d is its day and t its start label, and each list keeps the day's order |
| Projections.GroupedListsSortedByStart | src/components/WorkshopScheduler.tsx:240-254 | every inner list is non-decreasing in start |
| Projections.GroupingDaysInFirstOccurrenceOrder | src/components/WorkshopScheduler.tsx:248-250 | day keys come in first-occurrence order of the sorted data |
| Projections.GroupingPreservesCount | src/components/WorkshopScheduler.tsx:244-255 | the lists of all days and labels together hold as many sessions as were grouped |
| Seqs.Distinct | src/components/WorkshopScheduler.tsx:141 | `[...new Set(values)]` has no duplicates and the same members |
| Seqs.SortBySorted | src/components/WorkshopScheduler.tsx:165-169 | `sort` with a total preorder returns a sorted list |
| Seqs.SortByStable | src/components/WorkshopScheduler.tsx:165-169 | `sort` is stable: equal-key elements keep their order |
| Seqs.FilterKeySubseq | src/components/WorkshopScheduler.tsx:153 | `filter` keeps an order-preserving subsequence |
| Seqs.FilterKeyCount | src/components/WorkshopScheduler.tsx:153 | `filter` keeps every copy of a kept value and no copy of the others |
| Seqs.FilterKeyTwice | src/components/CalendarView.tsx:35-45 | two chained filters keep, in order, what both keep |
| Text.ParseIntNatToString | src/components/CalendarView.tsx:23 | `parseInt` reads back a printed number followed by a non-digit |
| Text.SplitJoin | src/components/CalendarView.tsx:31 | `split` undoes `join` when no part holds the separator's first character (the separator's only character for ":") |
| Text.StrLeTotal | src/components/WorkshopScheduler.tsx:168 | the string order is total |
| Text.StrLeTransitive | src/components/WorkshopScheduler.tsx:168 | the string order is transitive |
| Ics.EscapeText | src/components/WorkshopScheduler.tsx:195-197 | `escapeText`; its contract is Ics.EscapeTextIsSinglePass, Ics.EscapeTextRoundTrip, Ics.EscapeTextLength, Ics.EscapeTextPlain and Ics.EscapeTextLineSafe |
| Ics.EscapeTextIsSinglePass | src/components/WorkshopScheduler.tsx:195-197 | the two replacements escape each character exactly once: one backslash before `,` `;` `\`, `\n` for a line feed, nothing re-escaped |
| Ics.EscapeTextRoundTrip | src/components/WorkshopScheduler.tsx:195-197 | unescaping per section 3.3.11 of RFC 5545 returns the input |
| Ics.EscapeTextLength | src/components/WorkshopScheduler.tsx:195-197 | the output is one character longer per comma, semicolon, backslash and line feed |
| Ics.EscapeTextPlain | src/components/WorkshopScheduler.tsx:195-197 | text without those four characters is unchanged |
| Ics.EscapeTextLineSafe | src/components/WorkshopScheduler.tsx:195-197 | escaped text holds no line feed, and no carriage return unless the input had one |
| Ics.RemoveDashColonYear | src/components/WorkshopScheduler.tsx:190-191 | removing `-` and `:` from the ISO year keeps its digits and drops the sign of a negative year |
| Ics.RemoveDashColonIso | src/components/WorkshopScheduler.tsx:190-191 | removing `-` and `:` leaves date digits, `T`, time digits, the milliseconds and `Z` |
| Ics.StripMillisTail | src/components/WorkshopScheduler.tsx:192 | the `.ddd` milliseconds before `Z` are removed |
| Ics.FormatDateForIcs | src/components/WorkshopScheduler.tsx:188-193 | `formatDateForICS`; its contract is Ics.FormatDateForIcsFields and Ics.FormatDateForIcsShape |
| Ics.FormatDateForIcsFields | src/components/WorkshopScheduler.tsx:188-193 | the stamp is the date digits, `T`, the time digits and `Z` |
| Ics.FormatDateForIcsShape | src/components/WorkshopScheduler.tsx:188-193 | for four-digit years the stamp is `YYYYMMDDTHHMMSSZ`: 16 characters, `T` at 8, `Z` at 15, digits elsewhere |
| Ics.Location | src/components/WorkshopScheduler.tsx:199-201 | the event location; its contract is Ics.EventLocationLine |
| Ics.DescriptionValue | src/components/WorkshopScheduler.tsx:211-220 | the DESCRIPTION value; its contract is Ics.EventDescriptionLine |
| Ics.Uid | src/components/WorkshopScheduler.tsx:205 | the event UID; its contract is Ics.UidInjective |
| Ics.EventLines | src/components/WorkshopScheduler.tsx:203-222 | the nine lines of one event; their contract is Ics.EventSummaryLine, Ics.EventLocationLine and Ics.EventDescriptionLine |
| Ics.SelectedSessions | src/components/WorkshopScheduler.tsx:173-175 | the sessions exported; their contract is Ics.SelectedSessionsSpec and Ics.SelectedSessionsCount |
| Ics.IcsLines | src/components/WorkshopScheduler.tsx:177-225 | all lines of the file; their contract is Ics.IcsLinesShape and Ics.IcsFileEnd |
| Ics.EventBlocks | src/components/WorkshopScheduler.tsx:183-223 | nine lines per session |
| Ics.GenerateIcsFile | src/components/WorkshopScheduler.tsx:172-227 | the loop's content is the CRLF join of the header, the events of the selected sessions and END:VCALENDAR |
| Ics.IcsLinesShape | src/components/WorkshopScheduler.tsx:177-225 | 3 header lines, then the nine lines of each selected session in catalog order, then END:VCALENDAR |
| Ics.SelectedSessionsSpec | src/components/WorkshopScheduler.tsx:173-175 | the exported sessions are exactly the selected ones, in catalog order, each with all its copies |
| Ics.SelectedSessionsCount | src/components/WorkshopScheduler.tsx:173-175 | with unique catalog ids and known selected ids, there is one event per selected id |
| Ics.IcsFileEnd | src/components/WorkshopScheduler.tsx:225-227 | the content ends with END:VCALENDAR and no CRLF after it |
| Ics.UidInjective | src/components/WorkshopScheduler.tsx:205 | different session ids give different UIDs |
| Ics.EventSummaryLine | src/components/WorkshopScheduler.tsx:209 | the SUMMARY value unescapes to the title |
| Ics.EventLocationLine | src/components/WorkshopScheduler.tsx:199-210 | the LOCATION value unescapes to the room and level, and is TBA without a room |
| Ics.EventDescriptionLine | src/components/WorkshopScheduler.tsx:211-220 | only the free text of DESCRIPTION is escaped and it unescapes to the description or the placeholder; type, level and speakers follow as they are |
| Ics.EscapedPlaceholder | src/components/WorkshopScheduler.tsx:211 | escaping leaves the placeholder description unchanged |
| Calendar.TimeSlots | src/components/CalendarView.tsx:15-20 | there are 21 slots |
| Calendar.BuildTimeSlots | src/components/CalendarView.tsx:15-20 | the loop pushes exactly the slot labels 8:00, 8:30, …, 18:00 |
| Calendar.SlotKeyOf | src/components/CalendarView.tsx:31-33 | a label without a minute part yields an invalid date, which matches nothing |
| Calendar.SlotKeyOfLabel | src/components/CalendarView.tsx:31-33 | reading a whole- or half-hour label back gives its hour and bucket |
| Calendar.RolledHourNoCarry | src/components/CalendarView.tsx:33 | `setHours` carries nothing for hours below 24 and minutes below 60 |
| Calendar.SlotKeyOfTimeSlot | src/components/CalendarView.tsx:17-33 | slot k reads back as hour 8 + k/2 and bucket k mod 2 |
| Calendar.TimeSlotsHalfHourApart | src/components/CalendarView.tsx:15-20 | slot k starts 30·k minutes after 8:00 |
| Calendar.TimeSlotsDistinct | src/components/CalendarView.tsx:15-20 | the labels are distinct and 18:30 is not among them |
| Calendar.FormatTime | src/components/CalendarView.tsx:22-28 | PM exactly when the parsed hour is 12 or more |
| Calendar.FormatTimeOfLabel | src/components/CalendarView.tsx:22-28 | a slot label shows its 12-hour hour (12 kept, later hours minus 12), the same minutes, and PM from noon |
| Calendar.FormatTimeNoon | src/components/CalendarView.tsx:22-28 | "12:00" shows as "12:00 PM" |
| Calendar.FormatTimeHalfPastEight | src/components/CalendarView.tsx:22-28 | "8:30" shows as "8:30 AM" |
| Calendar.FormatTimeLastSlot | src/components/CalendarView.tsx:22-28 | "18:00" shows as "6:00 PM" |
| Calendar.GetWorkshopsForTimeSlot | src/components/CalendarView.tsx:30-46 | exactly the input sessions that are selected, of the day, and in the slot's hour and half-hour bucket, in input order and with all their copies |
| Calendar.SlotIndex | src/components/CalendarView.tsx:17-20 | a session on the grid has a slot among the 21 |
| Calendar.ExactlyOneCell | src/components/CalendarView.tsx:14-46 | a selected session is in the cell (day, slot) exactly when it lies on the grid, the day is its own and the slot is that of its start |
| Calendar.HeightOf | src/components/CalendarView.tsx:48-53 | the height is positive exactly for a positive duration and zero for none |
| Calendar.SessionHeight | src/components/CalendarView.tsx:48-53 | `calculateSessionHeight`: positive exactly when the session lasts, zero when it does not, 4 rem for half an hour |
| Calendar.HeightLinear | src/components/CalendarView.tsx:48-53 | the height is linear in the duration, 4 rem per half hour: 30 minutes give 4, 90 give 12 |
| Calendar.OffsetOf | src/components/CalendarView.tsx:55-59 | the offset lies in [0, 4) and is 0 exactly on :00 and :30 |
| Calendar.TopOffset | src/components/CalendarView.tsx:55-59 | `calculateTopOffset`: less than one slot (4 rem), and zero exactly on the hour and half hour |
| Calendar.OffsetIncreasing | src/components/CalendarView.tsx:55-59 | within a half hour a later start sits lower |
| Calendar.CardTopMatchesStart | src/components/CalendarView.tsx:55-59 | slot position plus offset equals the start's distance from 8:00, 4 rem per half hour |
| Calendar.RenderCalendar | src/components/CalendarView.tsx:61-97 | the empty state exactly when nothing is selected, otherwise 21 time labels and a 4 by 21 grid |
| Calendar.RenderShowsEachOnce | src/components/CalendarView.tsx:88-97 | on the rendered grid a selected session shows in its own day and slot and in no other cell |

## Left out

- Rendering is left out: JSX, CSS classes, icons, the card, alert and button components, the view-mode switch and the expanded description text. These are presentation only.
- React hooks are left out as such: state fields become `Scheduler` fields and `useMemo` values become functions.
- The download step is left out: `Blob`, `createObjectURL`, the anchor click and `revokeObjectURL` are browser I/O.
- JavaScript `Date` is left out: parsing, time zones, daylight saving and the epoch-to-calendar conversion of `toISOString`. The UTC fields and the local clock time are session fields.
- Sub-minute precision and invalid dates are left out.
- Projections.FormatDateTime: `toLocaleTimeString` is locale data, modelled as the en-US "h:mm AM" form with an ordinary space (some runtimes print a narrow no-break space).
- Text.StrLe: `localeCompare` and the default `sort` are modelled as order by character code, not by locale collation.
- Projections.TruncateDescription: lengths count Unicode characters, while JavaScript counts UTF-16 code units, so text outside the Basic Multilingual Plane is cut at a different place.
- Text.ParseInt: `parseInt` is modelled for digit strings only, with no leading blanks and no sign. The labels it reads never have them.
- Calendar.RolledHour: `setHours` rolling past the range of valid dates is not modelled.
- Calendar.HeightOf: the card height is an exact real, without floating-point rounding or the "rem" text.
- Calendar.OffsetOf: the card offset is an exact real, without floating-point rounding or the "rem" text.
- Conflict.FirstConflict: a selected id missing from the catalog is excluded by precondition, because the code would throw there.
- Conflict.Scheduler.HandleWorkshopSelect: the model assumes the catalog's ids are unique (the `Scheduler` constructor requires it, and `ConflictFree` resolves each id as `find` does). The code never checks this. With duplicate ids it can accept an overlapping selection, because a clicked session may differ from the one its id resolves to.
- Projections.GroupingDaysInFirstOccurrenceOrder: day and start-label keys are assumed to be ordinary object keys. A JavaScript object lists integer-like keys first, in numeric order, and a fresh `{}` already answers inherited names such as `constructor`, for which `groupedWorkshops` creates no group.
- Missing text fields are not modelled. A missing title makes `escapeText` throw. A missing room name, level part or speaker name is printed as "undefined" by the template literals. A missing speaker list throws at `.length`.
- Ics.FormatDateForIcsShape: stated for years 0–9999 only, where `toISOString` prints four digits. Ics.FormatDateForIcsFields covers all years.
- The carriage-return hazard is not captured. A carriage return inside a field is not escaped, so that field can break CRLF splitting; no lemma states when splitting the file recovers its lines.
- The `canceled` field is not part of this model. Its only reader is the grid card's click gate, which skips `handleWorkshopSelect` for a canceled session; that gate is presentation and is left out. The selection engine itself accepts canceled sessions.
- The session fields the logic never reads are not part of this model. These include `track`, cost, links, tipsheets and speaker bios.
- src/main.tsx is not part of this model.
