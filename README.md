# Lifecare check-in schedule, modelled in Dafny

Lifecare keeps a daily schedule of check-in times. The app reminds its user at each time, on the weekdays they pick. This project models the app's schedule domain and proves properties of it:

- `LocalTime`, a wall-clock time of day, and its conversion to and from seconds-of-day (`clock.dfy`, module `Clock`);
- the `Weekday` enumeration and its labels (`weekday.dfy`, module `Days`);
- `WeekdaySelections`, the seven weekly recurrence flags, with counting, listing, contiguous-range detection and calendar-ordinal conversion (`weekday_selections.dfy`, module `DaySelection`);
- `CheckInTime`, one schedule entry: a mutable time plus a selection mark, with shifting that wraps at midnight and the ten-minute spacing rule (`check_in_time.dfy`, module `CheckIns`);
- the `Settings` record, reduced to the fields the schedule screens use (`settings.dfy`, module `Config`);
- the weekday check-box guard of `WeekdaySelectorView`, which refuses to empty the weekly set (`weekday_selector_view.dfy`, module `WeekdaySelector`);
- the list operations of `CheckInSettingsView`: add with a cap of 30, delete, "sort", the out-of-order hint, bulk shift with snapshot and undo, the pause buttons and the weekly-repeat summary (`check_in_settings_view.dfy`, module `CheckInSettings`);
- `Option`, in `wrappers.dfy`.

How the model is built:

- Classes whose fields the app changes in place are Dafny classes: `CheckInTime`, `WeekdaySelections`, `Settings` and the two views.
- Their loop-based operations are methods. Each loop is proved against a pure function of the state, and the properties the app relies on are lemmas about those functions.
- An entry's identity is Dafny object identity. The stored list is a `seq<CheckInTime>` with no entry in it twice; new entries go at the end.
- Swift's truncating `/` and `%` are written out (`Clock.Quot`, `Clock.Rem`), so `LocalTime.from(secondsOfDay:)` is modelled for negative inputs too.
- `shiftTime` goes through the calendar on a fixed day, 1 January 2000. It is modelled as seconds-of-day plus the offset, Euclidean modulo 86400.

Behaviour of the code that the model keeps, edge cases included:

- **Spacing rule.** Only the later of two entries less than 600 s apart is flagged: the other entry is only ever moved back a day, never forward, so of 08:00 and 08:09 only 08:09 reports a conflict (`CheckIns.SpacingRuleExamples`). Equal times flag each other.
- **Capacity.** Adding is refused, with the limit alert, when the list holds 30 or more entries (`CheckInSettings.CheckInSettingsView.AddCheckInTime`).
- **Out-of-order check.** The scan compares the first entry with -1. The hint therefore means "not ascending" only for values of at least -1, which every in-range time is (`CheckInSettings.OutOfOrderIffNotAscending`).
- **Empty weekly set.** With nothing selected, the summary is the bare list heading "The Check Ins will repeat on:" followed by a line break (`CheckInSettings.EmptySelectionMessage`).

## Model

| member | source | states |
|---|---|---|
| Clock.Quot | Lifecare/LocalTime.swift:35-37 | Swift `Int` division: the quotient q of a by b > 0 satisfies b·q ≤ a < b·(q+1) for a ≥ 0 and b·(q−1) < a ≤ b·q for a < 0, i.e. truncation toward zero |
| Clock.Rem | Lifecare/LocalTime.swift:34-36 | Swift `%`: dividend = divisor × quotient + remainder, with the remainder carrying the dividend's sign and smaller in magnitude than the divisor |
| Clock.LocalTime.InRange | Lifecare/LocalTime.swift:10-12 | the component ranges the field comments give (hour 0-23, minute 0-59, second 0-59), which the type does not enforce; `SecondsOfDay`, `FromSecondsOfDay` and `SecondsOfDayOrderIsLexicographic` state what they guarantee |
| Clock.LocalTime.SecondsOfDay | Lifecare/LocalTime.swift:10-23 | a time with components in their commented ranges lies in [0, 86400), and its seconds-of-day modulo 60 is its seconds component |
| Clock.FromSecondsOfDay | Lifecare/LocalTime.swift:33-40 | recombining the split gives back every integer, negative included; a value in [0, 86400) gives in-range components; for n ≥ 0 the components are n mod 60, (n div 60) mod 60 and n div 3600 |
| Clock.FromSecondsOfDayOfInRange | Lifecare/LocalTime.swift:15-40 | splitting the seconds-of-day of an in-range time gives back that exact time |
| Clock.DivModSixtyUnique | Lifecare/LocalTime.swift:34-37 | division by 60 has only one quotient/remainder pair with the remainder in [0, 60) |
| Clock.SecondsOfDayOrderIsLexicographic | Lifecare/LocalTime.swift:21-23 | for in-range times, fewer seconds-of-day is exactly lexicographic (hour, minute, second) order, and equal seconds-of-day means equal times |
| Days.Weekday.RawValue | Lifecare/Weekday.swift:6-7 | raw values lie in 0..6 |
| Days.Weekday.ThreeLetterDescription | Lifecare/Weekday.swift:9-20 | each label has three characters |
| Days.Weekday.TwoLetterDescription | Lifecare/Weekday.swift:22-33 | each label has two characters |
| Days.FromRawValue | Lifecare/Weekday.swift:6-7 | the failable raw-value initializer succeeds exactly on 0..6, and the day it returns has that raw value |
| Days.RawValuesAreConsecutive | Lifecare/Weekday.swift:6-7 | raw values run 0 (Mon) to 6 (Sun) in declaration order, and no two days share one |
| Days.ThreeLetterDescriptionsAreDistinct | Lifecare/Weekday.swift:9-20 | different days have different three-letter labels |
| Days.TwoLetterDescriptionIsPrefix | Lifecare/Weekday.swift:9-33 | every two-letter label is the first two characters of the day's three-letter label |
| DaySelection.IndexTablesMatchRawValues | Lifecare/WeekdaySelections.swift:25-29 | the day-to-index map and the index-to-day array both agree with the raw values, and are inverse to each other |
| DaySelection.IndexOf | Lifecare/WeekdaySelections.swift:25-26 | a day's internal index lies in 0..6, equals its raw value and maps back to the day |
| DaySelection.CountSelected | Lifecare/WeekdaySelections.swift:89-97 | the number of set flags is at most the number of flags |
| DaySelection.SelectedDays | Lifecare/WeekdaySelections.swift:48-56 | the selected days in Mon-to-Sun order, never more than the flags; `SelectedDaysAreOrdered` and `SelectedDaysAreTheSetFlags` prove they are exactly the set flags, as many as the count, strictly increasing |
| DaySelection.FirstIndexOf | Lifecare/WeekdaySelections.swift:82 | `firstIndex(of:)`: the index found holds the value and no earlier index does; the length means "not found" |
| DaySelection.LastIndexOf | Lifecare/WeekdaySelections.swift:83 | `lastIndex(of:)`: the index found holds the value and no later index does; -1 means "not found" |
| DaySelection.RunLength | Lifecare/WeekdaySelections.swift:99-114 | a run never extends past the end of the flags |
| DaySelection.FirstRunLength | Lifecare/WeekdaySelections.swift:99-114 | the length of the first run of the value, which fits between its start and the end of the flags; `FullSpanIsFirstRun` and `FirstRunEndsAtLast` tie it to the selected span |
| DaySelection.IsSingleMultidayRun | Lifecare/WeekdaySelections.swift:64-72 | holds only for at least two selected days whose first run fits in the week, and never for all seven; `FirstRunHoldsAllIffSpanIsFull` and `SubsetEndpointsCharacterization` give its meaning in both directions |
| DaySelection.SubsetEndpoints | Lifecare/WeekdaySelections.swift:64-87 | endpoints are returned exactly when the selection is a single multi-day run |
| DaySelection.CountSelectedAppend | Lifecare/WeekdaySelections.swift:89-97 | the count of a concatenation is the sum of the counts |
| DaySelection.CountSelectedSplit | Lifecare/WeekdaySelections.swift:89-97 | the count of a sequence cut in three is the sum of the three counts |
| DaySelection.CountZeroBefore | Lifecare/WeekdaySelections.swift:89-97 | no flag set before an index means the prefix counts zero |
| DaySelection.CountZeroFrom | Lifecare/WeekdaySelections.swift:89-97 | no flag set from an index on means the suffix counts zero |
| DaySelection.CountFullOnSlice | Lifecare/WeekdaySelections.swift:89-97 | a slice whose count equals its length has every flag set |
| DaySelection.CountOfSpan | Lifecare/WeekdaySelections.swift:89-97 | with no flag set outside a span, the count is the count of the span |
| DaySelection.CountZeroIffNoneSelected | Lifecare/WeekdaySelections.swift:89-97 | the count is zero exactly when no flag is set |
| DaySelection.CountFullIffAllSelected | Lifecare/WeekdaySelections.swift:89-97 | the count equals the length exactly when every flag is set |
| DaySelection.CountPositiveHasIndices | Lifecare/WeekdaySelections.swift:82-83 | a non-empty selection has a first and a last selected index, in that order, so the force-unwraps succeed |
| DaySelection.RunLengthOfBlock | Lifecare/WeekdaySelections.swift:99-114 | a block of equal flags closed by a different flag or the end has its own length as run length |
| DaySelection.RunLengthIsBlock | Lifecare/WeekdaySelections.swift:99-114 | the counted flags all hold the value, and the flag after them does not |
| DaySelection.CountLiesInSpan | Lifecare/WeekdaySelections.swift:82-97 | every selected day lies between the first and the last selected day |
| DaySelection.FullSpanIsFirstRun | Lifecare/WeekdaySelections.swift:64-114 | a fully selected span from first to last selected day is the first run, and holds every selected day |
| DaySelection.FullSpanIsRun | Lifecare/WeekdaySelections.swift:99-114 | a span holding as many set flags as its length, with none outside, is one run starting at its first index |
| DaySelection.FirstRunEndsAtLast | Lifecare/WeekdaySelections.swift:64-114 | a first run holding every selected day ends at the last selected day |
| DaySelection.FirstRunHoldsAllIffSpanIsFull | Lifecare/WeekdaySelections.swift:59-114 | the first-run test is equivalent to: count = last index − first index + 1 (both directions) |
| DaySelection.CountSelectedStep | Lifecare/WeekdaySelections.swift:89-97 | one more flag adds one to the count exactly when it is set |
| DaySelection.SubsetEndpointsCharacterization | Lifecare/WeekdaySelections.swift:59-114 | endpoints exist exactly when 2 to 6 days are selected and they fill the span from the first to the last selected day, with no wrap past Sunday |
| DaySelection.SubsetEndpointsBoundTheSelection | Lifecare/WeekdaySelections.swift:78-87 | when endpoints exist, the first lies strictly before the last, and a day is selected exactly when it lies between them |
| DaySelection.WrappedSelectionHasNoEndpoints | Lifecare/WeekdaySelections.swift:59-87 | {Sat, Sun, Mon} has no endpoints |
| DaySelection.MidweekSelectionEndpoints | Lifecare/WeekdaySelections.swift:78-87 | {Tue, Wed, Thu} has the endpoints Tue and Thu |
| DaySelection.SelectedDaysAreOrdered | Lifecare/WeekdaySelections.swift:48-56 | the listed days are as many as the count, in strictly increasing Mon-to-Sun order |
| DaySelection.SelectedDaysAreTheSetFlags | Lifecare/WeekdaySelections.swift:48-56 | a day is listed exactly when its flag is set |
| DaySelection.SelectedDaysAreTheSelection | Lifecare/WeekdaySelections.swift:48-56 | the listed days are the selected ones, as many as the count, in strictly increasing Mon-to-Sun order |
| DaySelection.WeekdaySelections.AllSelections | Lifecare/WeekdaySelections.swift:32-35 | `init(allSelections:)` sets all seven flags to the given value, so the count is 7 or 0 |
| DaySelection.WeekdaySelections.constructor | Lifecare/WeekdaySelections.swift:37-40 | the memberwise initializer stores the seven flags in Mon-to-Sun order; by default all seven are selected |
| DaySelection.WeekdaySelections.GetAllSelectedWeekdays | Lifecare/WeekdaySelections.swift:48-56 | the loop returns the selected days in order, as many as the count, and a day is listed exactly when it is selected |
| DaySelection.WeekdaySelections.GetSelectedWeekdayCount | Lifecare/WeekdaySelections.swift:89-97 | the loop returns the number of set flags, which lies in 0..7 |
| DaySelection.WeekdaySelections.GetFirstContiguousSequenceOfInterestCount | Lifecare/WeekdaySelections.swift:99-114 | the loop with its `break` returns the length of the first run of the value, scanning Mon to Sun without wrapping |
| DaySelection.WeekdaySelections.HasSingleMultidaySubsetSelection | Lifecare/WeekdaySelections.swift:64-72 | true exactly when 2 to 6 days are selected and the first run holds all of them |
| DaySelection.WeekdaySelections.GetSingleMultidaySubsetEndpointsOrNil | Lifecare/WeekdaySelections.swift:78-87 | non-nil exactly when 2 to 6 days are selected and count = last index − first index + 1 |
| DaySelection.WeekdaySelections.SetSelected | Lifecare/WeekdaySelections.swift:116-118 | the given day takes the given value and the other six days keep theirs |
| DaySelection.WeekdaySelections.IsWeekdaySelected | Lifecare/WeekdaySelections.swift:120-122 | a day reads as selected exactly when it is among the listed selected days |
| DaySelection.WeekdaySelections.IsDateSelected | Lifecare/WeekdaySelections.swift:124-131 | given the calendar's weekday number (1 = Sun), the answer is the flag of that calendar day |
| DaySelection.WeekdaySelections.AreAllDaysSelected | Lifecare/WeekdaySelections.swift:133-135 | holds exactly when the count is 7 |
| DaySelection.WeekdaySelections.AreAllDaysNotSelected | Lifecare/WeekdaySelections.swift:137-139 | holds exactly when the count is 0 |
| DaySelection.WeekdaySelections.ConvertDateOrdinalToInternalOrdinal | Lifecare/WeekdaySelections.swift:141-148 | maps calendar numbers 1..7 (Sun first) into 0..6 (Mon first), onto the same weekday |
| DaySelection.WeekdaySelections.ConvertDateOrdinalFromInternalOrdinal | Lifecare/WeekdaySelections.swift:150-157 | maps internal indices 0..6 into 1..7, onto the same weekday |
| DaySelection.OrdinalConversionsAreInverse | Lifecare/WeekdaySelections.swift:141-157 | the two conversions are inverse to each other in both directions |
| CheckIns.ShiftedTime | Lifecare/CheckInTime.swift:30-36 | a shift by any integer offsets gives an in-range time whose seconds-of-day is the old value plus the offset, modulo one day |
| CheckIns.DivModDayUnique | Lifecare/CheckInTime.swift:30-36 | division by one day has only one quotient/remainder pair with the remainder in range |
| CheckIns.ModDayRoundTrip | Lifecare/CheckInTime.swift:30-36 | adding an offset modulo one day and taking it away again gives back any value within the day |
| CheckIns.ShiftKeepsSecond | Lifecare/CheckInTime.swift:30-36 | shifting never changes the seconds component of an in-range time |
| CheckIns.ShiftThenUnshift | Lifecare/CheckInTime.swift:30-36 | shifting by (h, m) and then by (−h, −m) restores an in-range time exactly |
| CheckIns.ShiftWithinDay | Lifecare/CheckInTime.swift:30-36 | a shift that stays inside the day just adds the offset |
| CheckIns.ShiftsCompose | Lifecare/CheckInTime.swift:30-36 | two shifts in a row equal one shift by the summed offsets |
| CheckIns.ShiftAcrossMidnight | Lifecare/CheckInTime.swift:30-36 | 23:45:00 shifted by 1 h 30 min is 01:15:00 |
| CheckIns.ForcedIntoPast | Lifecare/CheckInTime.swift:70-74 | the other entry's seconds-of-day, or one day less; for times within the day the result lies in the 24 hours up to and including this entry |
| CheckIns.IsTooClose | Lifecare/CheckInTime.swift:70-78 | equal times are too close; an entry at or before this one is too close exactly when under 600 s behind; `TooCloseIsBackwardGapModuloDay` gives the test as a backward gap modulo one day |
| CheckIns.TooCloseIsBackwardGapModuloDay | Lifecare/CheckInTime.swift:64-81 | for times within one day, the spacing test is: (self − other) mod 86400 < 600 |
| CheckIns.SpacingRuleExamples | Lifecare/CheckInTime.swift:64-81 | of 08:00 and 08:09 only the later entry is flagged; equal times flag each other; 00:05 is flagged against 23:58 but not the reverse; a gap of exactly 600 s is no conflict in either direction |
| CheckIns.CheckInTime.constructor | Lifecare/CheckInTime.swift:47-49 | stores the given components with no range check (omitted ones are 0) and starts unselected |
| CheckIns.CheckInTime.WithDate | Lifecare/CheckInTime.swift:51-53 | takes the wall-clock time of the date and starts unselected |
| CheckIns.CheckInTime.WithSecondsOfDay | Lifecare/CheckInTime.swift:55-57 | takes the split of the seconds count, whose seconds-of-day is that count, and starts unselected |
| CheckIns.CheckInTime.WithTimeOf | Lifecare/CheckInTime.swift:59-62 | copies the source's time into a new, unselected entry |
| CheckIns.CheckInTime.SetTime | Lifecare/CheckInTime.swift:26-28 | replaces the time and keeps the mark |
| CheckIns.CheckInTime.ShiftTime | Lifecare/CheckInTime.swift:30-36 | the time becomes the shifted time and the mark is kept |
| CheckIns.CheckInTime.ClearSelection | Lifecare/CheckInTime.swift:38-40 | unmarks the entry and keeps its time |
| CheckIns.CheckInTime.IsTooCloseToAnotherCheckInTime | Lifecare/CheckInTime.swift:64-81 | true exactly when some entry of the list other than this very object lies less than 600 s at or before this one, moved back a day when it is later |
| CheckIns.CheckInTime.Less | Lifecare/CheckInTime.swift:84-86 | for in-range times, `<` is lexicographic (hour, minute, second) order |
| Config.Settings.constructor | Lifecare/Settings.swift:12-18 | check-ins off, no pause, and all seven weekdays selected |
| WeekdaySelector.CheckBoxTapOutcome | Lifecare/WeekdaySelectorView.swift:54-68 | a tap never changes any day other than the tapped one |
| WeekdaySelector.CountSelectedUpdate | Lifecare/WeekdaySelections.swift:116-118 | changing one flag changes the count by that flag's difference |
| WeekdaySelector.RefusedTapChangesNothing | Lifecare/WeekdaySelectorView.swift:60-65 | with prevention on, deselecting the only selected day leaves the selection unchanged and shows the guidance |
| WeekdaySelector.AcceptedTapFlipsTheDay | Lifecare/WeekdaySelectorView.swift:60-67 | every other tap flips exactly the tapped day and hides the guidance |
| WeekdaySelector.PreventionKeepsSelectionNonEmpty | Lifecare/WeekdaySelectorView.swift:60-66 | with prevention on, a non-empty selection stays non-empty whatever is tapped |
| WeekdaySelector.SelectingIsNeverRefused | Lifecare/WeekdaySelectorView.swift:60-67 | tapping an unselected day always selects it, adds one to the count and hides the guidance |
| WeekdaySelector.WithoutPreventionTheSetCanEmpty | Lifecare/WeekdaySelectorView.swift:60-67 | with prevention off, deselecting the only selected day empties the set |
| WeekdaySelector.WeekdaySelectorView.constructor | Lifecare/WeekdaySelectorView.swift:10-19 | the guidance is hidden, and the default guidance text is "The custom weekdays list cannot be empty." |
| WeekdaySelector.WeekdaySelectorView.WeekdayCheckBoxAction | Lifecare/WeekdaySelectorView.swift:54-68 | the new selections and guidance flag are the tap outcome for the old selections |
| CheckInSettings.TimesOf | Lifecare/CheckInTime.swift:22-24 | the list's times, one per entry, in list order |
| CheckInSettings.SecondsOfDayList | Lifecare/CheckInSettingsView.swift:459-462 | the seconds-of-day of each time, in order |
| CheckInSettings.SelectedCount | Lifecare/CheckInSettingsView.swift:507-514 | at most the length of the list |
| CheckInSettings.DistinctAppend | Lifecare/CheckInSettingsView.swift:480-499 | appending a new entry keeps the list free of repeats |
| CheckInSettings.Unselected | Lifecare/CheckInSettingsView.swift:507-514 | the unmarked entries in list order, never more than the list; `UnselectedKeepsExactlyTheUnmarked` proves membership, distinctness and length |
| CheckInSettings.UnselectedKeepsExactlyTheUnmarked | Lifecare/CheckInSettingsView.swift:507-514 | an entry is kept exactly when it was in the list and unmarked; each is kept once; the list shrinks by the number of marked entries |
| CheckInSettings.FirstMaxIndex | Lifecare/CheckInSettingsView.swift:433-445 | the index of the first largest value: nothing is larger, and everything before it is smaller |
| CheckInSettings.FirstMinIndex | Lifecare/CheckInSettingsView.swift:419-431 | the index of the first smallest value: nothing is smaller, and everything before it is larger |
| CheckInSettings.NewEntryTime | Lifecare/CheckInSettingsView.swift:485-496 | the new entry's time is always in range |
| CheckInSettings.NewEntryOnEmptyList | Lifecare/CheckInSettingsView.swift:485-486 | on an empty list the new entry is 13:00:00 |
| CheckInSettings.NewEntryFollowsLatest | Lifecare/CheckInSettingsView.swift:433-495 | the latest entry bounds all others; the new entry lands one hour (latest hour before 17) or one minute after it, and is later than every entry when that stays before midnight |
| CheckInSettings.InsertionPoint | Lifecare/CheckInSettingsView.swift:528 | smaller values come before the point, the rest at or after it |
| CheckInSettings.InsertAtPointKeepsOrder | Lifecare/CheckInSettingsView.swift:528 | placing a value at its insertion point keeps an ascending sequence ascending |
| CheckInSettings.InsertAtPointAddsValue | Lifecare/CheckInSettingsView.swift:528 | placing a value adds exactly it to the multiset of values |
| CheckInSettings.Insert | Lifecare/CheckInSettingsView.swift:528 | inserting into an ascending sequence keeps it ascending and adds exactly the value |
| CheckInSettings.SortedAscending | Lifecare/CheckInSettingsView.swift:528 | `sort()`: the same values with the same multiplicities, in ascending order |
| CheckInSettings.InsertLargest | Lifecare/CheckInSettingsView.swift:528 | inserting a value no smaller than the others appends it |
| CheckInSettings.SortedAscendingUnfold | Lifecare/CheckInSettingsView.swift:528 | sorting a non-empty list inserts its last value into the sorted rest |
| CheckInSettings.LastIsLargest | Lifecare/CheckInSettingsView.swift:528 | in an ascending list the front stays ascending and the last value is the largest |
| CheckInSettings.SortedAscendingOfAscending | Lifecare/CheckInSettingsView.swift:528 | sorting an ascending list changes nothing |
| CheckInSettings.AdjacentOrderIsOrder | Lifecare/CheckInSettingsView.swift:536-547 | ascending adjacent pairs make the whole sequence ascending |
| CheckInSettings.PreviousSeconds | Lifecare/CheckInSettingsView.swift:537-544 | the value an entry is compared with: -1 for the first entry, otherwise an earlier value of the list |
| CheckInSettings.DropsAt | Lifecare/CheckInSettingsView.swift:539-543 | the test of one entry; the first entry fails it exactly when its value is below -1 |
| CheckInSettings.IsOutOfOrder | Lifecare/CheckInSettingsView.swift:536-547 | some entry drops below the one before it; never on an empty list, and a one-entry list only below -1; `OutOfOrderIffNotAscending` proves it means "not ascending" for values of at least -1 |
| CheckInSettings.OutOfOrderIffNotAscending | Lifecare/CheckInSettingsView.swift:536-547 | for values of at least -1, the hint is on exactly when the list is not ascending |
| CheckInSettings.SortedListIsInOrder | Lifecare/CheckInSettingsView.swift:522-547 | right after a sort of such values, the hint is off |
| CheckInSettings.EndpointsAreFirstAndLastSelected | Lifecare/CheckInSettingsView.swift:384-386 | the range form names the first and the last selected day |
| CheckInSettings.DayName | Lifecare/CheckInSettingsView.swift:376-377 | a day as the summary interpolates it, always three characters (`Weekday.ThreeLetterDescription`) |
| CheckInSettings.ListedDays | Lifecare/CheckInSettingsView.swift:387-397 | the items of the list form; empty exactly for no days, and otherwise ending in "." |
| CheckInSettings.WeeklyRepeatMessage | Lifecare/CheckInSettingsView.swift:368-398 | the summary for seven flags; whenever a day is selected it ends in "."; the forms, in the code's order, are proved by `DailyMessage`, `SingleDayMessage`, `TwoDayMessage`, `RangeMessage` and `ListMessage` |
| CheckInSettings.DailyMessage | Lifecare/CheckInSettingsView.swift:370-372 | all seven days give "The Check Ins will repeat daily." |
| CheckInSettings.SingleDayMessage | Lifecare/CheckInSettingsView.swift:375-378 | one day D gives "The Check Ins will repeat every D." |
| CheckInSettings.TwoDayMessage | Lifecare/CheckInSettingsView.swift:379-382 | two days, adjacent or not, give "…on D and E.", Mon-first, never a range |
| CheckInSettings.RangeMessage | Lifecare/CheckInSettingsView.swift:383-386 | three to six days filling one span give "…D-E." from the first to the last selected day |
| CheckInSettings.RangeFormOfEndpoints | Lifecare/CheckInSettingsView.swift:383-386 | three to six days with endpoints give "…D-E." from those endpoints |
| CheckInSettings.ListMessage | Lifecare/CheckInSettingsView.swift:387-397 | no day, or three to six days not in one span, give the list heading followed by the listed days |
| CheckInSettings.SelectedDaysStep | Lifecare/WeekdaySelections.swift:48-56 | one more flag extends the listed days by that day exactly when it is set |
| CheckInSettings.SelectedDaysOfWeekSteps | Lifecare/WeekdaySelections.swift:48-56 | the listed days of a week, built up flag by flag from Mon to Sun |
| CheckInSettings.WeekendBoundaryPairMessage | Lifecare/CheckInSettingsView.swift:379-382 | {Sun, Mon} reads "The Check Ins will repeat on Mon and Sun." |
| CheckInSettings.MidweekRangeMessage | Lifecare/CheckInSettingsView.swift:383-386 | {Tue, Wed, Thu} reads "The Check Ins will repeat Tue-Thu." |
| CheckInSettings.WrappedSelectionMessage | Lifecare/CheckInSettingsView.swift:387-397 | {Fri, Sat, Sun, Mon} wraps, so it reads as the list "Mon, Fri, Sat, and Sun." |
| CheckInSettings.ListedFourDays | Lifecare/CheckInSettingsView.swift:387-397 | four days are listed as "A, B, C, and D." |
| CheckInSettings.WrappedListText | Lifecare/CheckInSettingsView.swift:387-397 | Mon, Fri, Sat and Sun are listed as "Mon, Fri, Sat, and Sun." |
| CheckInSettings.EmptySelectionMessage | Lifecare/CheckInSettingsView.swift:387-397 | no day selected gives the list heading alone |
| CheckInSettings.CheckInSettingsView.constructor | Lifecare/CheckInSettingsView.swift:18-27 | the screen's initial state: edit mode inactive, controls hidden, offsets zero and an empty snapshot |
| CheckInSettings.CheckInSettingsView.GetLatestCheckInTimeOrNil | Lifecare/CheckInSettingsView.swift:433-445 | nil exactly on an empty list; otherwise the first entry with the largest seconds-of-day |
| CheckInSettings.CheckInSettingsView.GetEarliestCheckInTimeOrNil | Lifecare/CheckInSettingsView.swift:419-431 | nil exactly on an empty list; otherwise the first entry with the smallest seconds-of-day |
| CheckInSettings.CheckInSettingsView.AddCheckInTime | Lifecare/CheckInSettingsView.swift:480-499 | at 30 or more entries the list is unchanged and the limit alert shows; otherwise exactly one new, unselected entry at the default time is appended and the existing entries stay; the cap of 30 is preserved |
| CheckInSettings.CheckInSettingsView.MakeNewCheckInTime | Lifecare/CheckInSettingsView.swift:485-496 | the entry built is new, unselected and at the default time |
| CheckInSettings.CheckInSettingsView.DeleteAllCheckIns | Lifecare/CheckInSettingsView.swift:501-505 | the list becomes empty; every other field of the screen, the snapshot included, keeps its value |
| CheckInSettings.CheckInSettingsView.DeleteSelectedCheckInsAction | Lifecare/CheckInSettingsView.swift:507-514 | exactly the unmarked entries remain, in their order; the list shrinks by the number of marked entries; edit mode ends; every other field keeps its value |
| CheckInSettings.CheckInSettingsView.SortCheckInTimeList | Lifecare/CheckInSettingsView.swift:522-534 | the entries keep their places but take the ascending arrangement of the old seconds-of-day (same values, by SortedAscending), as split times, and all lose their marks |
| CheckInSettings.CheckInSettingsView.CollectSecondsOfDay | Lifecare/CheckInSettingsView.swift:523-527 | the snapshot loop returns every entry's seconds-of-day, in list order, and changes nothing |
| CheckInSettings.CheckInSettingsView.AssignSecondsOfDay | Lifecare/CheckInSettingsView.swift:529-533 | the write-back loop of sort and undo gives entry i the time split from value i and unmarks it, so the list's seconds-of-day become exactly the given values |
| CheckInSettings.CheckInSettingsView.SortThenCheckOrder | Lifecare/CheckInSettingsView.swift:522-547 | on in-range times, the out-of-order hint is off right after a sort |
| CheckInSettings.CheckInSettingsView.AreCheckInTimesOutOfOrder | Lifecare/CheckInSettingsView.swift:536-547 | true exactly when some entry has fewer seconds-of-day than the one before it (the first is compared with -1) |
| CheckInSettings.CheckInSettingsView.ShowBulkEditsAction | Lifecare/CheckInSettingsView.swift:451-464 | toggles the controls, hides undo and zeroes the offsets; when opening, the snapshot is the current seconds-of-day list in order; the list is untouched |
| CheckInSettings.CheckInSettingsView.ToggleRowSelection | Lifecare/CheckInSettingsView.swift:124-125 | the row check box flips the entry's mark and keeps its time; nothing else changes |
| CheckInSettings.CheckInSettingsView.PickBulkShift | Lifecare/CheckInSettingsView.swift:179-190 | the pickers set the offsets, within -23..23 hours and -59..59 minutes; every other field keeps its value |
| CheckInSettings.CheckInSettingsView.ShiftAllCheckInsAction | Lifecare/CheckInSettingsView.swift:466-478 | nothing happens on an empty list or zero offsets; otherwise every entry is shifted by the same offsets, marks stay, and undo is offered; the list, offsets, snapshot, edit mode and alert keep their values |
| CheckInSettings.CheckInSettingsView.UndoAllBulkEditsAction | Lifecare/CheckInSettingsView.swift:400-417 | the list takes the snapshot's length, keeping the entries that were in place and adding new ones at the end; entry i gets the time of snapshot[i] and is unmarked; undo is hidden; the snapshot, offsets, controls, edit mode and alert keep their values |
| CheckInSettings.CheckInSettingsView.BulkShiftThenUndoRestores | Lifecare/CheckInSettingsView.swift:400-478 | opening bulk edit, shifting by any picked offsets and undoing restores every entry's seconds-of-day (its exact time when in range), and leaves all entries unmarked |
| CheckInSettings.CheckInSettingsView.PauseCheckInsUntilHourOfDay | Lifecare/CheckInSettingsView.swift:338-347 | pauses check-ins and stores the resume instant the calendar found |
| CheckInSettings.CheckInSettingsView.PauseCheckInsUntilDays | Lifecare/CheckInSettingsView.swift:349-362 | pauses check-ins and stores the rounded resume instant |
| CheckInSettings.CheckInSettingsView.GetWeeklyRepeatMessage | Lifecare/CheckInSettingsView.swift:368-398 | all days selected gives "daily"; no day selected gives the bare list heading |

## Left out

- `LocalTime.toDate` and `LocalTime.from(date:)`, the `date` property of `CheckInTime` and `init(date:)`: these are calendar and time-zone calls. `init(date:)` takes the wall-clock components instead, and `shiftTime` is modelled as arithmetic modulo one day. Daylight-saving transitions on 1 January 2000 in the device's zone are not modelled.
- `isDateSelected`: the calendar's weekday lookup is an input, the weekday number 1..7.
- The pause timestamps: the `Calendar.nextDate` searches, the current time and the rounding to the next hour are inputs to `PauseCheckInsUntilHourOfDay` and `PauseCheckInsUntilDays`. The request for hour 24 on the rounding path is therefore not modelled. `getAllowedRangeForPausedCheckIns` (now to now + 40 days) depends on the clock and is left out.
- The undo placeholder `CheckInTime(date: Date())` is created from the current time, which is an input (`placeholder`). It is overwritten straight away.
- SwiftUI layout, bindings, alerts and toggles: `usePauseControlsAction` and `setWeeklyScheduleAction` only flip a presentation flag, and the pause and weekly-edit panel flags are not modelled. The row check box in edit mode is modelled: it flips `CheckInTime.isSelected`, a public field of the class with no method of its own (`CheckInSettings.CheckInSettingsView.ToggleRowSelection`). `deleteCheckInTime(allIndexesToDelete:)` is private and never called by the view, so it is not modelled. The `thirtyMinutesInSeconds`, `useDevMode` and `showDevClearButton` constants are unused by the modelled logic.
- SwiftData: `modelContext.insert`, `delete` and `processPendingChanges` are modelled as direct edits of the entry sequence, with new entries appended. The store's query order is taken to be list order, and persistence is not modelled.
- `CheckInTime.getTime` is a plain read of the `time` field, which the model reads directly.
- The `description` strings, `GhostButtonStyle`, `PausedCheckInView` and `LifecareApp` are formatting or bootstrap code with no schedule logic.
- `WeekdaySelections` is a Swift value type stored inside `Settings`. It is modelled as an object that the record holds for its whole life, so copies of the struct are not modelled.
- `CheckInSettings.CheckInSettingsView.SortCheckInTimeList`: states the new seconds list as `SortedAscending` of the old one. That function's own contract gives the permutation and the ascending order, so the method does not repeat them.
- `CheckInSettings.CheckInSettingsView.GetWeeklyRepeatMessage`: its contract states only the all-days and no-day cases. The other forms are stated for `WeeklyRepeatMessage` by the per-form lemmas (`SingleDayMessage`, `TwoDayMessage`, `RangeMessage`, `ListMessage`).
- `CheckInSettings.NewEntryTime`: the default time is stated for lists of in-range times only (`NewEntryFollowsLatest`). Out-of-range stored times follow the same code path but are not characterised.
