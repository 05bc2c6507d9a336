/**
 * The schedule list operations of the check-in settings screen
 * (`CheckInSettingsView`): adding with a cap of 30, deleting, the
 * "sort" that reassigns sorted times to the existing entries, the
 * out-of-order hint, bulk shifting with a snapshot and a structural undo,
 * the pause buttons, and the weekly-repeat summary text.
 */
module CheckInSettings {

  import opened Wrappers
  import opened Clock
  import opened Days
  import opened DaySelection
  import opened CheckIns
  import opened Config

  // ---------------------------------------------------------------------
  // Values read off the entry list.

  /** The times of the entries, in list order. */
  function TimesOf(entries: seq<CheckInTime>): (times: seq<LocalTime>)
    reads entries
    ensures |times| == |entries|
    ensures forall i :: 0 <= i < |entries| ==> times[i] == entries[i].time
  {
    seq(|entries|, i reads entries requires 0 <= i < |entries| => entries[i].time)
  }

  /** Seconds-of-day of each time, in order. */
  function SecondsOfDayList(times: seq<LocalTime>): (secs: seq<int>)
    ensures |secs| == |times|
    ensures forall i :: 0 <= i < |times| ==> secs[i] == times[i].SecondsOfDay()
  {
    seq(|times|, i requires 0 <= i < |times| => times[i].SecondsOfDay())
  }

  /** No entry object appears twice in the list. */
  ghost predicate Distinct(entries: seq<CheckInTime>) {
    forall i, j :: 0 <= i < j < |entries| ==> entries[i] != entries[j]
  }

  /** The entries whose `isSelected` mark is off, in list order. */
  function Unselected(entries: seq<CheckInTime>): (kept: seq<CheckInTime>)
    reads entries
    ensures |kept| <= |entries|
  {
    if entries == [] then []
    else Unselected(entries[..|entries| - 1])
         + (if entries[|entries| - 1].isSelected then [] else [entries[|entries| - 1]])
  }

  /** Number of marked entries. */
  function SelectedCount(entries: seq<CheckInTime>): (n: nat)
    reads entries
    ensures n <= |entries|
  {
    if entries == [] then 0
    else SelectedCount(entries[..|entries| - 1]) + (if entries[|entries| - 1].isSelected then 1 else 0)
  }

  /** A new entry that is not yet in the list keeps it free of repeats. */
  lemma DistinctAppend(entries: seq<CheckInTime>, e: CheckInTime)
    requires Distinct(entries) && e !in entries
    ensures Distinct(entries + [e])
  {
  }

  /**
   * Deleting the marked entries keeps exactly the unmarked ones, each once,
   * and the list shrinks by the number of marked entries.
   */
  lemma {:induction false} UnselectedKeepsExactlyTheUnmarked(entries: seq<CheckInTime>)
    requires Distinct(entries)
    ensures forall e :: e in Unselected(entries) <==> e in entries && !e.isSelected
    ensures Distinct(Unselected(entries))
    ensures |Unselected(entries)| == |entries| - SelectedCount(entries)
  {
    if entries != [] {
      var prefix := entries[..|entries| - 1];
      var last := entries[|entries| - 1];
      assert Distinct(prefix);
      UnselectedKeepsExactlyTheUnmarked(prefix);
      assert entries == prefix + [last];
      assert last !in prefix;
    }
  }

  /** Index of the first entry with the largest value (later ties lose, as with a strict `>`). */
  function FirstMaxIndex(secs: seq<int>): (k: nat)
    requires |secs| > 0
    ensures k < |secs|
    ensures forall j :: 0 <= j < |secs| ==> secs[j] <= secs[k]
    ensures forall j :: 0 <= j < k ==> secs[j] < secs[k]
  {
    if |secs| == 1 then 0
    else
      var k := FirstMaxIndex(secs[..|secs| - 1]);
      if secs[|secs| - 1] > secs[k] then |secs| - 1 else k
  }

  /** Index of the first entry with the smallest value (later ties lose, as with a strict `<`). */
  function FirstMinIndex(secs: seq<int>): (k: nat)
    requires |secs| > 0
    ensures k < |secs|
    ensures forall j :: 0 <= j < |secs| ==> secs[k] <= secs[j]
    ensures forall j :: 0 <= j < k ==> secs[k] < secs[j]
  {
    if |secs| == 1 then 0
    else
      var k := FirstMinIndex(secs[..|secs| - 1]);
      if secs[|secs| - 1] < secs[k] then |secs| - 1 else k
  }

  /**
   * The time `addCheckInTime` gives a new entry: 13:00:00 on an empty list;
   * otherwise the latest entry's time plus one hour when that entry's hour
   * is before 17, else plus one minute.
   */
  function NewEntryTime(times: seq<LocalTime>): (t: LocalTime)
    ensures t.InRange()
  {
    if times == [] then LocalTime(hour := 13)
    else
      var latest := times[FirstMaxIndex(SecondsOfDayList(times))];
      if latest.hour < 17 then ShiftedTime(latest, 1, 0) else ShiftedTime(latest, 0, 1)
  }

  /** An empty list starts at 1 pm. */
  lemma NewEntryOnEmptyList()
    ensures NewEntryTime([]) == LocalTime(13, 0, 0)
  {
  }

  /**
   * On a list of in-range times, a new entry lands one hour (latest hour
   * before 17) or one minute (otherwise) after the latest time; when that
   * stays before midnight it is later than every entry already there.
   */
  lemma NewEntryFollowsLatest(times: seq<LocalTime>)
    requires |times| > 0
    requires forall i :: 0 <= i < |times| ==> times[i].InRange()
    ensures var latest := times[FirstMaxIndex(SecondsOfDayList(times))];
            var step := if latest.hour < 17 then SecondsPerHour else SecondsPerMinute;
            && (forall i :: 0 <= i < |times| ==> times[i].SecondsOfDay() <= latest.SecondsOfDay())
            && (latest.SecondsOfDay() + step < SecondsPerDay ==>
                  NewEntryTime(times).SecondsOfDay() == latest.SecondsOfDay() + step
                  && forall i :: 0 <= i < |times| ==> times[i].SecondsOfDay() < NewEntryTime(times).SecondsOfDay())
  {
    var secs := SecondsOfDayList(times);
    var latest := times[FirstMaxIndex(secs)];
    var n := latest.SecondsOfDay();
    assert 0 <= n;
    var next := NewEntryTime(times);
    if latest.hour < 17 {
      assert next == ShiftedTime(latest, 1, 0);
      if n + SecondsPerHour < SecondsPerDay {
        ShiftWithinDay(latest, 1, 0);
      }
    } else {
      assert next == ShiftedTime(latest, 0, 1);
      if n + SecondsPerMinute < SecondsPerDay {
        ShiftWithinDay(latest, 0, 1);
      }
    }
  }

  /** Every adjacent pair ascending (`<=`). */
  ghost predicate NonDecreasing(s: seq<int>) {
    forall i, j :: 0 <= i < j < |s| ==> s[i] <= s[j]
  }

  /** Where `x` goes in an ascending sequence: after every smaller value, before the rest. */
  function InsertionPoint(x: int, s: seq<int>): (k: nat)
    ensures k <= |s|
    ensures forall i :: 0 <= i < k ==> s[i] < x
    ensures k < |s| ==> x <= s[k]
  {
    if s == [] then 0 else if x <= s[0] then 0 else 1 + InsertionPoint(x, s[1..])
  }

  /** Placing `x` at its insertion point keeps an ascending sequence ascending. */
  lemma InsertAtPointKeepsOrder(x: int, s: seq<int>, k: nat)
    requires NonDecreasing(s) && k <= |s|
    requires (forall i :: 0 <= i < k ==> s[i] < x) && (k < |s| ==> x <= s[k])
    ensures NonDecreasing(s[..k] + [x] + s[k..])
  {
    var r := s[..k] + [x] + s[k..];
    forall i, j | 0 <= i < j < |r| ensures r[i] <= r[j] {
      if j < k {
        assert r[i] == s[i] && r[j] == s[j];
      } else if j == k {
        assert r[i] == s[i];
      } else if i < k {
        assert r[i] == s[i] && r[j] == s[j - 1] && s[i] <= s[k];
      } else if i == k {
        assert r[j] == s[j - 1] && s[k] <= s[j - 1];
      } else {
        assert r[i] == s[i - 1] && r[j] == s[j - 1];
      }
    }
  }

  /** Placing `x` anywhere adds exactly `x` to the multiset of values. */
  lemma InsertAtPointAddsValue(x: int, s: seq<int>, k: nat)
    requires k <= |s|
    ensures multiset(s[..k] + [x] + s[k..]) == multiset(s) + multiset{x}
  {
    assert s == s[..k] + s[k..];
  }

  /** Insertion of one value into an ascending sequence. */
  function Insert(x: int, s: seq<int>): (r: seq<int>)
    requires NonDecreasing(s)
    ensures |r| == |s| + 1
    ensures multiset(r) == multiset(s) + multiset{x}
    ensures NonDecreasing(r)
  {
    var k := InsertionPoint(x, s);
    InsertAtPointKeepsOrder(x, s, k);
    InsertAtPointAddsValue(x, s, k);
    s[..k] + [x] + s[k..]
  }

  /** `sort()` on `[Int]`: the ascending rearrangement of the values. */
  function SortedAscending(s: seq<int>): (r: seq<int>)
    ensures |r| == |s|
    ensures multiset(r) == multiset(s)
    ensures NonDecreasing(r)
  {
    if s == [] then []
    else
      assert s == s[..|s| - 1] + [s[|s| - 1]];
      Insert(s[|s| - 1], SortedAscending(s[..|s| - 1]))
  }

  /** Inserting a value no smaller than any other appends it. */
  lemma InsertLargest(x: int, s: seq<int>)
    requires NonDecreasing(s) && forall i :: 0 <= i < |s| ==> s[i] <= x
    ensures Insert(x, s) == s + [x]
  {
    var k := InsertionPoint(x, s);
    var r := Insert(x, s);
    assert forall i :: k <= i < |s| ==> s[i] == x;
    assert forall i :: 0 <= i < |r| ==> r[i] == (s + [x])[i];
  }

  /** Sorting a non-empty list inserts its last value into the sorted rest. */
  lemma SortedAscendingUnfold(s: seq<int>)
    requires s != []
    ensures SortedAscending(s) == Insert(s[|s| - 1], SortedAscending(s[..|s| - 1]))
  {
  }

  /** Sorting a list that is already ascending changes nothing. */
  lemma {:induction false} SortedAscendingOfAscending(s: seq<int>)
    requires NonDecreasing(s)
    ensures SortedAscending(s) == s
  {
    if s != [] {
      var p, x := s[..|s| - 1], s[|s| - 1];
      LastIsLargest(s, p);
      SortedAscendingOfAscending(p);
      SortedAscendingUnfold(s);
      InsertLargest(x, p);
      assert p + [x] == s;
    }
  }

  /** In an ascending list the front keeps its order and the last value is the largest. */
  lemma LastIsLargest(s: seq<int>, p: seq<int>)
    requires NonDecreasing(s) && s != [] && p == s[..|s| - 1]
    ensures NonDecreasing(p)
    ensures forall i :: 0 <= i < |p| ==> p[i] <= s[|s| - 1]
  {
    forall i, j | 0 <= i < j < |p| ensures p[i] <= p[j] {
      assert p[i] == s[i] && p[j] == s[j];
    }
  }

  /** The value the "previous" variable of `areCheckInTimesOutOfOrder` holds at step `i`. */
  function PreviousSeconds(secs: seq<int>, i: nat): (previous: int)
    requires i <= |secs|
    ensures previous == -1 || previous in secs[..i]
  {
    if i == 0 then -1 else secs[i - 1]
  }

  /** The value at `i` is smaller than the one before it (the first is compared with -1). */
  predicate DropsAt(secs: seq<int>, i: nat): (drops: bool)
    requires i < |secs|
    ensures i == 0 ==> (drops <==> secs[0] < -1)
  {
    PreviousSeconds(secs, i) > secs[i]
  }

  /** Some value drops below the one before it. */
  predicate IsOutOfOrder(secs: seq<int>): (outOfOrder: bool)
    ensures secs == [] ==> !outOfOrder
    ensures |secs| == 1 ==> (outOfOrder <==> DropsAt(secs, 0))
  {
    exists i :: 0 <= i < |secs| && DropsAt(secs, i)
  }

  /** Ascending adjacent pairs make the whole sequence ascending. */
  lemma {:induction false} AdjacentOrderIsOrder(s: seq<int>)
    requires forall k :: 0 < k < |s| ==> s[k - 1] <= s[k]
    ensures NonDecreasing(s)
  {
    if |s| > 1 {
      var p := s[..|s| - 1];
      AdjacentOrderIsOrder(p);
      forall i, j | 0 <= i < j < |s| ensures s[i] <= s[j] {
        if j < |s| - 1 {
          assert p[i] <= p[j];
        } else if i < |s| - 2 {
          assert p[i] <= p[|s| - 2];
        }
      }
    }
  }

  /**
   * For values that are never below -1 (every in-range time), the hint is
   * shown exactly when the list is not in ascending order.
   */
  lemma OutOfOrderIffNotAscending(secs: seq<int>)
    requires forall i :: 0 <= i < |secs| ==> secs[i] >= -1
    ensures IsOutOfOrder(secs) <==> !NonDecreasing(secs)
  {
    if !IsOutOfOrder(secs) {
      forall k | 0 < k < |secs| ensures secs[k - 1] <= secs[k] {
        assert !DropsAt(secs, k);
      }
      AdjacentOrderIsOrder(secs);
    } else {
      var i :| 0 <= i < |secs| && DropsAt(secs, i);
      assert i > 0 && secs[i - 1] > secs[i];
    }
  }

  /** Right after sorting values that are never below -1, the out-of-order hint is off. */
  lemma SortedListIsInOrder(secs: seq<int>)
    requires forall i :: 0 <= i < |secs| ==> secs[i] >= -1
    ensures !IsOutOfOrder(SortedAscending(secs))
  {
    var r := SortedAscending(secs);
    forall i | 0 <= i < |r| ensures r[i] >= -1 {
      assert r[i] in multiset(r);
      assert r[i] in secs;
    }
    OutOfOrderIffNotAscending(r);
  }

  // ---------------------------------------------------------------------
  // The weekly-repeat summary.

  /** How a day is written in the summary (string interpolation of the case, "Mon" .. "Sun"). */
  function DayName(d: Weekday): (name: string)
    ensures |name| == 3
  {
    d.ThreeLetterDescription()
  }

  /** The items of the list form: "D, " for each day but the last, then "and D.". */
  function ListedDays(days: seq<Weekday>): (text: string)
    ensures text == "" <==> days == []
    ensures days != [] ==> text[|text| - 1] == '.'
  {
    if days == [] then ""
    else if |days| == 1 then "and " + DayName(days[0]) + "."
    else DayName(days[0]) + ", " + ListedDays(days[1..])
  }

  /** `getWeeklyRepeatMessage`: daily, one day, two days, a range, else a list, in that order. */
  function WeeklyRepeatMessage(selections: seq<bool>): (message: string)
    requires |selections| == DaysPerWeek
    ensures CountSelected(selections) > 0 ==> message != [] && message[|message| - 1] == '.'
  {
    if forall i :: 0 <= i < |selections| ==> selections[i] == true then
      "The Check Ins will repeat daily."
    else
      var selectionCount := CountSelected(selections);
      var selectedWeekdays := SelectedDays(selections);
      SelectedDaysAreTheSelection(selections);
      if selectionCount == 1 then
        "The Check Ins will repeat every " + DayName(selectedWeekdays[0]) + "."
      else if selectionCount == 2 then
        "The Check Ins will repeat on " + DayName(selectedWeekdays[0]) + " and " + DayName(selectedWeekdays[1]) + "."
      else
        match SubsetEndpoints(selections)
        case Some(endpoints) =>
          "The Check Ins will repeat " + DayName(endpoints.firstWeekday) + "-" + DayName(endpoints.lastWeekday) + "."
        case None =>
          "The Check Ins will repeat on:\n" + ListedDays(selectedWeekdays)
  }

  /** The range form names the first and the last selected day. */
  lemma EndpointsAreFirstAndLastSelected(s: seq<bool>)
    requires |s| == DaysPerWeek && SubsetEndpoints(s).Some?
    ensures |SelectedDays(s)| == CountSelected(s) >= 2
    ensures SubsetEndpoints(s).value.firstWeekday == SelectedDays(s)[0]
    ensures SubsetEndpoints(s).value.lastWeekday == SelectedDays(s)[|SelectedDays(s)| - 1]
  {
    var days := SelectedDays(s);
    SelectedDaysAreTheSelection(s);
    SubsetEndpointsBoundTheSelection(s);
    IndexTablesMatchRawValues();
    var e := SubsetEndpoints(s).value;
    var f, l := e.firstWeekday, e.lastWeekday;
    assert s[IndexOf(f)] && s[IndexOf(l)];
    assert f in days && l in days;
    assert days[0] in days && days[|days| - 1] in days;
    var pf :| 0 <= pf < |days| && days[pf] == f;
    var pl :| 0 <= pl < |days| && days[pl] == l;
  }

  /** Every day selected: "daily". */
  lemma DailyMessage(s: seq<bool>)
    requires |s| == DaysPerWeek && CountSelected(s) == DaysPerWeek
    ensures WeeklyRepeatMessage(s) == "The Check Ins will repeat daily."
  {
    CountFullIffAllSelected(s);
  }

  /** One day: "every D." */
  lemma SingleDayMessage(s: seq<bool>)
    requires |s| == DaysPerWeek && CountSelected(s) == 1
    ensures |SelectedDays(s)| == 1
    ensures WeeklyRepeatMessage(s) == "The Check Ins will repeat every " + DayName(SelectedDays(s)[0]) + "."
  {
    SelectedDaysAreTheSelection(s);
    CountFullIffAllSelected(s);
  }

  /** Two days, adjacent or not: "on D and E.", in Mon-to-Sun order. */
  lemma TwoDayMessage(s: seq<bool>)
    requires |s| == DaysPerWeek && CountSelected(s) == 2
    ensures |SelectedDays(s)| == 2
    ensures WeeklyRepeatMessage(s)
            == "The Check Ins will repeat on " + DayName(SelectedDays(s)[0]) + " and " + DayName(SelectedDays(s)[1]) + "."
  {
    SelectedDaysAreTheSelection(s);
    CountFullIffAllSelected(s);
  }

  /** Three to six adjacent days within Mon..Sun: "D-E." from the first to the last selected day. */
  lemma RangeMessage(s: seq<bool>)
    requires |s| == DaysPerWeek && 3 <= CountSelected(s) <= 6
    requires CountSelected(s) == LastIndexOf(s, true) - FirstIndexOf(s, true) + 1
    ensures |SelectedDays(s)| == CountSelected(s)
    ensures WeeklyRepeatMessage(s)
            == "The Check Ins will repeat " + DayName(SelectedDays(s)[0]) + "-"
               + DayName(SelectedDays(s)[CountSelected(s) - 1]) + "."
  {
    SubsetEndpointsCharacterization(s);
    RangeFormOfEndpoints(s);
    EndpointsAreFirstAndLastSelected(s);
  }

  /** Three to six days with endpoints take the range form, written from those endpoints. */
  lemma RangeFormOfEndpoints(s: seq<bool>)
    requires |s| == DaysPerWeek && 3 <= CountSelected(s) < DaysPerWeek && SubsetEndpoints(s).Some?
    ensures WeeklyRepeatMessage(s)
            == "The Check Ins will repeat " + DayName(SubsetEndpoints(s).value.firstWeekday) + "-"
               + DayName(SubsetEndpoints(s).value.lastWeekday) + "."
  {
    CountFullIffAllSelected(s);
    assert !(forall i :: 0 <= i < |s| ==> s[i] == true);
  }

  /** No day, or three to six days that do not form one span: the list form. */
  lemma ListMessage(s: seq<bool>)
    requires |s| == DaysPerWeek
    requires CountSelected(s) == 0 || (3 <= CountSelected(s) <= 6 && SubsetEndpoints(s).None?)
    ensures WeeklyRepeatMessage(s) == "The Check Ins will repeat on:\n" + ListedDays(SelectedDays(s))
  {
    SelectedDaysAreTheSelection(s);
    CountFullIffAllSelected(s);
  }

  /** One more flag extends the listed days by that day when it is set. */
  lemma SelectedDaysStep(s: seq<bool>, k: nat)
    requires k < |s| <= DaysPerWeek
    ensures SelectedDays(s[..k + 1]) == SelectedDays(s[..k]) + (if s[k] then [IndexToWeekday[k]] else [])
  {
    assert s[..k + 1][..k] == s[..k];
  }

  /** The listed days of a full week, built up flag by flag. */
  lemma SelectedDaysOfWeekSteps(s: seq<bool>)
    requires |s| == DaysPerWeek
    ensures SelectedDays(s[..1]) == (if s[0] then [Mon] else [])
    ensures SelectedDays(s[..2]) == SelectedDays(s[..1]) + (if s[1] then [Tue] else [])
    ensures SelectedDays(s[..3]) == SelectedDays(s[..2]) + (if s[2] then [Wed] else [])
    ensures SelectedDays(s[..4]) == SelectedDays(s[..3]) + (if s[3] then [Thu] else [])
    ensures SelectedDays(s[..5]) == SelectedDays(s[..4]) + (if s[4] then [Fri] else [])
    ensures SelectedDays(s[..6]) == SelectedDays(s[..5]) + (if s[5] then [Sat] else [])
    ensures SelectedDays(s) == SelectedDays(s[..6]) + (if s[6] then [Sun] else [])
  {
    assert s[..0] == [];
    SelectedDaysStep(s, 0);
    SelectedDaysStep(s, 1);
    SelectedDaysStep(s, 2);
    SelectedDaysStep(s, 3);
    SelectedDaysStep(s, 4);
    SelectedDaysStep(s, 5);
    SelectedDaysStep(s, 6);
    assert s[..7] == s;
  }

  /** {Sun, Mon} is written Mon first, and as two days rather than a range. */
  lemma WeekendBoundaryPairMessage()
    ensures WeeklyRepeatMessage([true, false, false, false, false, false, true])
            == "The Check Ins will repeat on Mon and Sun."
  {
    var s := [true, false, false, false, false, false, true];
    SelectedDaysOfWeekSteps(s);
    assert SelectedDays(s) == [Mon, Sun];
    SelectedDaysAreTheSelection(s);
    TwoDayMessage(s);
  }

  /** Three adjacent days midweek are written as a range. */
  lemma MidweekRangeMessage()
    ensures WeeklyRepeatMessage([false, true, true, true, false, false, false])
            == "The Check Ins will repeat Tue-Thu."
  {
    var s := [false, true, true, true, false, false, false];
    SelectedDaysOfWeekSteps(s);
    assert SelectedDays(s) == [Tue, Wed, Thu];
    SelectedDaysAreTheSelection(s);
    MidweekSelectionEndpoints();
    SubsetEndpointsCharacterization(s);
    RangeMessage(s);
  }

  /** Fri, Sat, Sun, Mon wrap past Sunday, so they are listed rather than a range. */
  lemma WrappedSelectionMessage()
    ensures WeeklyRepeatMessage([true, false, false, false, true, true, true])
            == "The Check Ins will repeat on:\nMon, Fri, Sat, and Sun."
  {
    var s := [true, false, false, false, true, true, true];
    SelectedDaysOfWeekSteps(s);
    var days := SelectedDays(s);
    assert days == [Mon, Fri, Sat, Sun];
    SelectedDaysAreTheSelection(s);
    assert FirstIndexOf(s, true) == 0;
    assert LastIndexOf(s, true) == 6;
    SubsetEndpointsCharacterization(s);
    ListMessage(s);
    WrappedListText();
  }

  /** The list form's items for four days. */
  lemma {:induction false} ListedFourDays(a: Weekday, b: Weekday, c: Weekday, d: Weekday)
    ensures ListedDays([a, b, c, d])
            == DayName(a) + ", " + (DayName(b) + ", " + (DayName(c) + ", " + ("and " + DayName(d) + ".")))
  {
    assert ListedDays([d]) == "and " + DayName(d) + ".";
    assert [c, d][1..] == [d];
    assert ListedDays([c, d]) == DayName(c) + ", " + ListedDays([d]);
    assert [b, c, d][1..] == [c, d];
    assert ListedDays([b, c, d]) == DayName(b) + ", " + ListedDays([c, d]);
    assert [a, b, c, d][1..] == [b, c, d];
  }

  /** The list form's items for Mon, Fri, Sat and Sun. */
  lemma WrappedListText()
    ensures ListedDays([Mon, Fri, Sat, Sun]) == "Mon, Fri, Sat, and Sun."
  {
    ListedFourDays(Mon, Fri, Sat, Sun);
    assert DayName(Mon) == "Mon" && DayName(Fri) == "Fri" && DayName(Sat) == "Sat" && DayName(Sun) == "Sun";
  }

  /** With no day selected the text is the list heading with nothing after it. */
  lemma EmptySelectionMessage()
    ensures WeeklyRepeatMessage([false, false, false, false, false, false, false])
            == "The Check Ins will repeat on:\n"
  {
    var s := [false, false, false, false, false, false, false];
    SelectedDaysOfWeekSteps(s);
    assert SelectedDays(s) == [];
    SelectedDaysAreTheSelection(s);
    ListMessage(s);
  }

  // ---------------------------------------------------------------------
  // The screen's state and actions.

  datatype EditMode = Inactive | Transient | Active

  class CheckInSettingsView {

    /** The stored entries, in the order the store lists them; new entries go last. */
    var checkInTimes: seq<CheckInTime>
    /** The settings record (`config[0]`). */
    const config: Settings
    var editMode: EditMode
    var showBulkEditControls: bool
    var showUndoBulkEditsButton: bool
    var bulkShiftHours: int
    var bulkShiftMinutes: int
    var showCheckInLimitReachedAlert: bool
    var savedCheckInsSecondsOfDayListForBulkUndo: seq<int>
    const maximumCheckInsPerDay: int := 30

    ghost predicate Valid()
      reads this, config, config.weekdaysForCheckIns
    {
      Distinct(checkInTimes) && config.Valid()
    }

    /** The cap holds for the list and for the undo snapshot taken from it. */
    ghost predicate WithinCapacity()
      reads this
    {
      |checkInTimes| <= maximumCheckInsPerDay && |savedCheckInsSecondsOfDayListForBulkUndo| <= maximumCheckInsPerDay
    }

    /** The screen over a store holding `checkInTimes` and the record `config`. */
    constructor (config: Settings, checkInTimes: seq<CheckInTime>)
      requires Distinct(checkInTimes) && config.Valid()
      ensures Valid() && this.config == config && this.checkInTimes == checkInTimes
      ensures editMode == Inactive && !showBulkEditControls && !showUndoBulkEditsButton
      ensures bulkShiftHours == 0 && bulkShiftMinutes == 0 && !showCheckInLimitReachedAlert
      ensures savedCheckInsSecondsOfDayListForBulkUndo == []
    {
      this.config := config;
      this.checkInTimes := checkInTimes;
      editMode := Inactive;
      showBulkEditControls := false;
      showUndoBulkEditsButton := false;
      bulkShiftHours := 0;
      bulkShiftMinutes := 0;
      showCheckInLimitReachedAlert := false;
      savedCheckInsSecondsOfDayListForBulkUndo := [];
    }

    /** `getLatestCheckInTime_OrNil`: the first entry with the largest seconds-of-day. */
    method GetLatestCheckInTimeOrNil() returns (latest: CheckInTime?)
      ensures latest == null <==> checkInTimes == []
      ensures latest != null ==> latest == checkInTimes[FirstMaxIndex(SecondsOfDayList(TimesOf(checkInTimes)))]
    {
      ghost var secs := SecondsOfDayList(TimesOf(checkInTimes));
      ghost var k := 0;
      latest := null;
      for i := 0 to |checkInTimes|
        invariant i == 0 <==> latest == null
        invariant 0 < i ==> 0 <= k < i && latest == checkInTimes[k]
        invariant 0 < i ==> forall j :: 0 <= j < i ==> secs[j] <= secs[k]
        invariant 0 < i ==> forall j :: 0 <= j < k ==> secs[j] < secs[k]
      {
        var currentCheckInTime := checkInTimes[i];
        if latest == null {
          latest := currentCheckInTime;
          k := i;
          continue;
        }
        if CheckInTime.Less(latest, currentCheckInTime) {
          latest := currentCheckInTime;
          k := i;
        }
      }
      if latest != null {
        var m := FirstMaxIndex(secs);
        assert !(k < m) && !(m < k);
      }
    }

    /** `getEarliestCheckInTime_OrNil`: the first entry with the smallest seconds-of-day. */
    method GetEarliestCheckInTimeOrNil() returns (earliest: CheckInTime?)
      ensures earliest == null <==> checkInTimes == []
      ensures earliest != null ==> earliest == checkInTimes[FirstMinIndex(SecondsOfDayList(TimesOf(checkInTimes)))]
    {
      ghost var secs := SecondsOfDayList(TimesOf(checkInTimes));
      ghost var k := 0;
      earliest := null;
      for i := 0 to |checkInTimes|
        invariant i == 0 <==> earliest == null
        invariant 0 < i ==> 0 <= k < i && earliest == checkInTimes[k]
        invariant 0 < i ==> forall j :: 0 <= j < i ==> secs[k] <= secs[j]
        invariant 0 < i ==> forall j :: 0 <= j < k ==> secs[k] < secs[j]
      {
        var currentCheckInTime := checkInTimes[i];
        if earliest == null {
          earliest := currentCheckInTime;
          k := i;
          continue;
        }
        if CheckInTime.Less(currentCheckInTime, earliest) {
          earliest := currentCheckInTime;
          k := i;
        }
      }
      if earliest != null {
        var m := FirstMinIndex(secs);
        assert !(k < m) && !(m < k);
      }
    }

    /**
     * `addCheckInTime`: at 30 or more entries, raises the limit alert and
     * adds nothing; otherwise appends one new, unselected entry at the time
     * `NewEntryTime` gives, leaving the existing entries as they were.
     */
    method AddCheckInTime()
      requires Valid()
      modifies this
      ensures Valid()
      ensures old(|checkInTimes|) >= maximumCheckInsPerDay ==>
                checkInTimes == old(checkInTimes) && showCheckInLimitReachedAlert
      ensures old(|checkInTimes|) < maximumCheckInsPerDay ==>
                && |checkInTimes| == old(|checkInTimes|) + 1
                && checkInTimes[..old(|checkInTimes|)] == old(checkInTimes)
                && fresh(checkInTimes[old(|checkInTimes|)])
                && checkInTimes[old(|checkInTimes|)].time == NewEntryTime(old(TimesOf(checkInTimes)))
                && !checkInTimes[old(|checkInTimes|)].isSelected
                && showCheckInLimitReachedAlert == old(showCheckInLimitReachedAlert)
      ensures old(WithinCapacity()) ==> WithinCapacity()
      ensures editMode == old(editMode) && showBulkEditControls == old(showBulkEditControls)
      ensures showUndoBulkEditsButton == old(showUndoBulkEditsButton)
      ensures bulkShiftHours == old(bulkShiftHours) && bulkShiftMinutes == old(bulkShiftMinutes)
      ensures savedCheckInsSecondsOfDayListForBulkUndo == old(savedCheckInsSecondsOfDayListForBulkUndo)
    {
      if |checkInTimes| >= maximumCheckInsPerDay {
        showCheckInLimitReachedAlert := true;
        return;
      }
      var newCheckInTime := MakeNewCheckInTime();
      DistinctAppend(checkInTimes, newCheckInTime);
      checkInTimes := checkInTimes + [newCheckInTime];
    }

    /**
     * The entry `addCheckInTime` builds before inserting it: a new,
     * unselected entry at 13:00:00, or a copy of the latest entry moved on
     * by one hour (before 17:00) or one minute.
     */
    method MakeNewCheckInTime() returns (newCheckInTime: CheckInTime)
      ensures fresh(newCheckInTime) && !newCheckInTime.isSelected
      ensures newCheckInTime.time == NewEntryTime(old(TimesOf(checkInTimes)))
    {
      ghost var times := TimesOf(checkInTimes);
      if |checkInTimes| == 0 {
        newCheckInTime := new CheckInTime(hour := 13);
      } else {
        var latestCheckInTime := GetLatestCheckInTimeOrNil();
        ghost var latest := times[FirstMaxIndex(SecondsOfDayList(times))];
        assert latestCheckInTime.time == latest;
        newCheckInTime := new CheckInTime.WithTimeOf(latestCheckInTime);
        if latestCheckInTime.time.hour < 17 {
          newCheckInTime.ShiftTime(1, 0);
        } else {
          newCheckInTime.ShiftTime(0, 1);
        }
      }
    }

    /** `deleteAllCheckIns`: every entry is deleted from the store. */
    method DeleteAllCheckIns()
      requires Valid()
      modifies this
      ensures Valid() && checkInTimes == []
      ensures old(WithinCapacity()) ==> WithinCapacity()
      ensures savedCheckInsSecondsOfDayListForBulkUndo == old(savedCheckInsSecondsOfDayListForBulkUndo)
      ensures editMode == old(editMode) && showUndoBulkEditsButton == old(showUndoBulkEditsButton)
      ensures showBulkEditControls == old(showBulkEditControls)
      ensures bulkShiftHours == old(bulkShiftHours) && bulkShiftMinutes == old(bulkShiftMinutes)
      ensures showCheckInLimitReachedAlert == old(showCheckInLimitReachedAlert)
    {
      checkInTimes := [];
    }

    /**
     * `deleteSelectedCheckInsAction`: the marked entries are deleted, the
     * unmarked ones stay in their order, and edit mode ends.
     */
    method DeleteSelectedCheckInsAction()
      requires Valid()
      modifies this
      ensures Valid()
      ensures checkInTimes == Unselected(old(checkInTimes))
      ensures forall e :: e in checkInTimes <==> e in old(checkInTimes) && !e.isSelected
      ensures |checkInTimes| == old(|checkInTimes|) - SelectedCount(old(checkInTimes))
      ensures editMode == Inactive
      ensures old(WithinCapacity()) ==> WithinCapacity()
      ensures savedCheckInsSecondsOfDayListForBulkUndo == old(savedCheckInsSecondsOfDayListForBulkUndo)
      ensures showUndoBulkEditsButton == old(showUndoBulkEditsButton)
      ensures showBulkEditControls == old(showBulkEditControls)
      ensures bulkShiftHours == old(bulkShiftHours) && bulkShiftMinutes == old(bulkShiftMinutes)
      ensures showCheckInLimitReachedAlert == old(showCheckInLimitReachedAlert)
    {
      var remaining: seq<CheckInTime> := [];
      for index := 0 to |checkInTimes|
        invariant remaining == Unselected(checkInTimes[..index])
      {
        assert checkInTimes[..index + 1][..index] == checkInTimes[..index];
        if !checkInTimes[index].isSelected {
          remaining := remaining + [checkInTimes[index]];
        }
      }
      assert checkInTimes[..|checkInTimes|] == checkInTimes;
      UnselectedKeepsExactlyTheUnmarked(checkInTimes);
      checkInTimes := remaining;
      editMode := Inactive;
    }

    /**
     * `sortCheckInTimeList`: the entries keep their places, but take the
     * sorted list of the current seconds-of-day in order, and lose their
     * marks: by `SortedAscending`, the same values, now ascending.
     */
    method SortCheckInTimeList()
      requires Valid()
      modifies checkInTimes
      ensures SecondsOfDayList(TimesOf(checkInTimes)) == SortedAscending(old(SecondsOfDayList(TimesOf(checkInTimes))))
      ensures forall i :: 0 <= i < |checkInTimes| ==>
                checkInTimes[i].time == FromSecondsOfDay(SecondsOfDayList(TimesOf(checkInTimes))[i])
                && !checkInTimes[i].isSelected
    {
      var savedCheckInsSecondsInDayList := CollectSecondsOfDay();
      savedCheckInsSecondsInDayList := SortedAscending(savedCheckInsSecondsInDayList);
      AssignSecondsOfDay(savedCheckInsSecondsInDayList);
    }

    /** The seconds-of-day of the entries, in list order: the snapshot loops of sort and bulk edit. */
    method CollectSecondsOfDay() returns (secs: seq<int>)
      ensures secs == SecondsOfDayList(TimesOf(checkInTimes))
    {
      ghost var expected := SecondsOfDayList(TimesOf(checkInTimes));
      secs := [];
      for i := 0 to |checkInTimes|
        invariant |secs| == i
        invariant forall k :: 0 <= k < i ==> secs[k] == expected[k]
      {
        secs := secs + [checkInTimes[i].time.SecondsOfDay()];
      }
    }

    /**
     * The write-back loop of sort and undo: entry `i` takes the time split
     * from `secs[i]` and loses its mark, so the list's seconds-of-day become `secs`.
     */
    method AssignSecondsOfDay(secs: seq<int>)
      requires Distinct(checkInTimes) && |secs| == |checkInTimes|
      modifies checkInTimes
      ensures forall i :: 0 <= i < |checkInTimes| ==>
                checkInTimes[i].time == FromSecondsOfDay(secs[i]) && !checkInTimes[i].isSelected
      ensures SecondsOfDayList(TimesOf(checkInTimes)) == secs
    {
      for index := 0 to |checkInTimes|
        invariant forall k :: 0 <= k < index ==>
                    checkInTimes[k].time == FromSecondsOfDay(secs[k]) && !checkInTimes[k].isSelected
      {
        var savedLocalTime := FromSecondsOfDay(secs[index]);
        checkInTimes[index].SetTime(savedLocalTime);
        checkInTimes[index].ClearSelection();
      }
      ghost var after := SecondsOfDayList(TimesOf(checkInTimes));
      assert forall k :: 0 <= k < |after| ==> after[k] == secs[k];
    }

    /** Sorting and then asking whether the list is out of order: on in-range times, never. */
    method SortThenCheckOrder() returns (outOfOrder: bool)
      requires Valid() && forall i :: 0 <= i < |checkInTimes| ==> checkInTimes[i].time.InRange()
      modifies checkInTimes
      ensures !outOfOrder
    {
      ghost var before := SecondsOfDayList(TimesOf(checkInTimes));
      SortCheckInTimeList();
      SortedListIsInOrder(before);
      outOfOrder := AreCheckInTimesOutOfOrder();
    }

    /** `areCheckInTimesOutOfOrder`: some entry has fewer seconds than the one before it. */
    method AreCheckInTimesOutOfOrder() returns (outOfOrder: bool)
      ensures outOfOrder == IsOutOfOrder(SecondsOfDayList(TimesOf(checkInTimes)))
    {
      ghost var secs := SecondsOfDayList(TimesOf(checkInTimes));
      var previousSecondsOfDay := -1;
      for i := 0 to |checkInTimes|
        invariant previousSecondsOfDay == PreviousSeconds(secs, i)
        invariant forall j :: 0 <= j < i ==> !DropsAt(secs, j)
      {
        var currentSecondsOfDay := checkInTimes[i].time.SecondsOfDay();
        assert currentSecondsOfDay == secs[i];
        if previousSecondsOfDay > currentSecondsOfDay {
          assert DropsAt(secs, i);
          return true;
        }
        previousSecondsOfDay := currentSecondsOfDay;
        assert previousSecondsOfDay == PreviousSeconds(secs, i + 1);
      }
      return false;
    }

    /**
     * `showBulkEditsAction`: toggles the bulk-edit controls, hides undo and
     * zeroes both offsets; on opening, snapshots the seconds-of-day list.
     */
    method ShowBulkEditsAction()
      modifies this
      ensures showBulkEditControls == !old(showBulkEditControls)
      ensures !showUndoBulkEditsButton && bulkShiftHours == 0 && bulkShiftMinutes == 0
      ensures savedCheckInsSecondsOfDayListForBulkUndo
              == if showBulkEditControls then SecondsOfDayList(TimesOf(checkInTimes))
                 else old(savedCheckInsSecondsOfDayListForBulkUndo)
      ensures checkInTimes == old(checkInTimes) && editMode == old(editMode)
      ensures showCheckInLimitReachedAlert == old(showCheckInLimitReachedAlert)
      ensures old(WithinCapacity()) ==> WithinCapacity()
    {
      showBulkEditControls := !showBulkEditControls;
      showUndoBulkEditsButton := false;
      bulkShiftHours := 0;
      bulkShiftMinutes := 0;
      if showBulkEditControls {
        savedCheckInsSecondsOfDayListForBulkUndo := CollectSecondsOfDay();
      }
    }

    /** The row check box in edit mode: flips the entry's `isSelected` mark and keeps its time. */
    method ToggleRowSelection(entry: CheckInTime)
      requires entry in checkInTimes
      modifies entry
      ensures entry.isSelected == !old(entry.isSelected) && entry.time == old(entry.time)
    {
      entry.isSelected := !entry.isSelected;
    }

    /** The two offset pickers (hours -23..23, minutes -59..59) bound to the offsets. */
    method PickBulkShift(hours: int, minutes: int)
      requires -23 <= hours <= 23 && -59 <= minutes <= 59
      modifies this
      ensures bulkShiftHours == hours && bulkShiftMinutes == minutes
      ensures checkInTimes == old(checkInTimes) && showBulkEditControls == old(showBulkEditControls)
      ensures showUndoBulkEditsButton == old(showUndoBulkEditsButton)
      ensures savedCheckInsSecondsOfDayListForBulkUndo == old(savedCheckInsSecondsOfDayListForBulkUndo)
      ensures editMode == old(editMode) && showCheckInLimitReachedAlert == old(showCheckInLimitReachedAlert)
    {
      bulkShiftHours := hours;
      bulkShiftMinutes := minutes;
    }

    /**
     * `shiftAllCheckInsAction`: nothing on an empty list or zero offsets;
     * otherwise every entry is shifted by the same offsets and undo is offered.
     */
    method ShiftAllCheckInsAction()
      requires Valid()
      modifies this, checkInTimes
      ensures Valid() && checkInTimes == old(checkInTimes)
      ensures old(checkInTimes) == [] || (bulkShiftHours == 0 && bulkShiftMinutes == 0) ==>
                TimesOf(checkInTimes) == old(TimesOf(checkInTimes))
                && showUndoBulkEditsButton == old(showUndoBulkEditsButton)
      ensures !(old(checkInTimes) == [] || (bulkShiftHours == 0 && bulkShiftMinutes == 0)) ==>
                (forall i :: 0 <= i < |checkInTimes| ==>
                   checkInTimes[i].time == ShiftedTime(old(checkInTimes[i].time), bulkShiftHours, bulkShiftMinutes))
                && showUndoBulkEditsButton
      ensures forall i :: 0 <= i < |checkInTimes| ==> checkInTimes[i].isSelected == old(checkInTimes[i].isSelected)
      ensures bulkShiftHours == old(bulkShiftHours) && bulkShiftMinutes == old(bulkShiftMinutes)
      ensures showBulkEditControls == old(showBulkEditControls)
      ensures savedCheckInsSecondsOfDayListForBulkUndo == old(savedCheckInsSecondsOfDayListForBulkUndo)
      ensures old(WithinCapacity()) ==> WithinCapacity()
      ensures editMode == old(editMode) && showCheckInLimitReachedAlert == old(showCheckInLimitReachedAlert)
    {
      if |checkInTimes| == 0 {
        return;
      }
      if bulkShiftHours == 0 && bulkShiftMinutes == 0 {
        return;
      }
      for i := 0 to |checkInTimes|
        invariant unchanged(this)
        invariant forall k :: 0 <= k < i ==>
                    checkInTimes[k].time == ShiftedTime(old(checkInTimes[k].time), bulkShiftHours, bulkShiftMinutes)
        invariant forall k :: i <= k < |checkInTimes| ==> checkInTimes[k].time == old(checkInTimes[k].time)
        invariant forall k :: 0 <= k < |checkInTimes| ==> checkInTimes[k].isSelected == old(checkInTimes[k].isSelected)
      {
        checkInTimes[i].ShiftTime(bulkShiftHours, bulkShiftMinutes);
      }
      showUndoBulkEditsButton := true;
    }

    /**
     * `undoAllBulkEditsAction`: brings the list to the snapshot's length
     * (appending placeholders or dropping trailing entries), then gives
     * entry `i` the time of `snapshot[i]` and clears its mark. Entries are
     * matched by position only. `placeholder` stands for the current time
     * a placeholder entry is created with; it is overwritten.
     */
    method UndoAllBulkEditsAction(placeholder: LocalTime)
      requires Valid() && placeholder.InRange()
      modifies this, checkInTimes
      ensures Valid()
      ensures |checkInTimes| == |savedCheckInsSecondsOfDayListForBulkUndo|
      ensures forall i :: 0 <= i < |checkInTimes| ==>
                checkInTimes[i].time == FromSecondsOfDay(savedCheckInsSecondsOfDayListForBulkUndo[i])
                && !checkInTimes[i].isSelected
      ensures SecondsOfDayList(TimesOf(checkInTimes)) == savedCheckInsSecondsOfDayListForBulkUndo
      ensures forall i :: 0 <= i < |checkInTimes| && i < old(|checkInTimes|) ==> checkInTimes[i] == old(checkInTimes[i])
      ensures forall i :: old(|checkInTimes|) <= i < |checkInTimes| ==> fresh(checkInTimes[i])
      ensures !showUndoBulkEditsButton
      ensures savedCheckInsSecondsOfDayListForBulkUndo == old(savedCheckInsSecondsOfDayListForBulkUndo)
      ensures bulkShiftHours == old(bulkShiftHours) && bulkShiftMinutes == old(bulkShiftMinutes)
      ensures showBulkEditControls == old(showBulkEditControls)
      ensures old(WithinCapacity()) ==> WithinCapacity()
      ensures editMode == old(editMode) && showCheckInLimitReachedAlert == old(showCheckInLimitReachedAlert)
    {
      var undoListCount := |savedCheckInsSecondsOfDayListForBulkUndo|;
      while |checkInTimes| < undoListCount
        invariant Distinct(checkInTimes)
        invariant |checkInTimes| == old(|checkInTimes|) || |checkInTimes| <= undoListCount
        invariant |checkInTimes| >= old(|checkInTimes|) && checkInTimes[..old(|checkInTimes|)] == old(checkInTimes)
        invariant forall i :: old(|checkInTimes|) <= i < |checkInTimes| ==> fresh(checkInTimes[i])
        invariant savedCheckInsSecondsOfDayListForBulkUndo == old(savedCheckInsSecondsOfDayListForBulkUndo)
        invariant bulkShiftHours == old(bulkShiftHours) && bulkShiftMinutes == old(bulkShiftMinutes)
        invariant showBulkEditControls == old(showBulkEditControls)
        invariant editMode == old(editMode) && showCheckInLimitReachedAlert == old(showCheckInLimitReachedAlert)
        decreases undoListCount - |checkInTimes|
      {
        var placeholderCheckInTime := new CheckInTime.WithDate(placeholder);
        DistinctAppend(checkInTimes, placeholderCheckInTime);
        checkInTimes := checkInTimes + [placeholderCheckInTime];
      }
      ghost var grown := checkInTimes;
      while |checkInTimes| > undoListCount
        invariant undoListCount <= |checkInTimes| <= |grown| && checkInTimes == grown[..|checkInTimes|]
        invariant savedCheckInsSecondsOfDayListForBulkUndo == old(savedCheckInsSecondsOfDayListForBulkUndo)
        invariant bulkShiftHours == old(bulkShiftHours) && bulkShiftMinutes == old(bulkShiftMinutes)
        invariant showBulkEditControls == old(showBulkEditControls)
        invariant editMode == old(editMode) && showCheckInLimitReachedAlert == old(showCheckInLimitReachedAlert)
      {
        checkInTimes := checkInTimes[..|checkInTimes| - 1];
      }
      AssignSecondsOfDay(savedCheckInsSecondsOfDayListForBulkUndo);
      showUndoBulkEditsButton := false;
    }

    /**
     * Opening bulk edit, shifting and undoing gives every entry back its
     * seconds-of-day (its exact time, when that was in range) and leaves
     * every entry unmarked, whatever the offsets picked.
     */
    method BulkShiftThenUndoRestores(hours: int, minutes: int, placeholder: LocalTime)
      requires Valid() && !showBulkEditControls && placeholder.InRange()
      requires -23 <= hours <= 23 && -59 <= minutes <= 59
      modifies this, checkInTimes
      ensures Valid() && checkInTimes == old(checkInTimes)
      ensures SecondsOfDayList(TimesOf(checkInTimes)) == old(SecondsOfDayList(TimesOf(checkInTimes)))
      ensures forall i :: 0 <= i < |checkInTimes| && old(checkInTimes[i].time).InRange() ==>
                checkInTimes[i].time == old(checkInTimes[i].time)
      ensures forall i :: 0 <= i < |checkInTimes| ==> !checkInTimes[i].isSelected
    {
      ShowBulkEditsAction();
      ghost var snapshot := savedCheckInsSecondsOfDayListForBulkUndo;
      PickBulkShift(hours, minutes);
      ShiftAllCheckInsAction();
      UndoAllBulkEditsAction(placeholder);
      forall i | 0 <= i < |checkInTimes| && old(checkInTimes[i].time).InRange()
        ensures checkInTimes[i].time == old(checkInTimes[i].time)
      {
        FromSecondsOfDayOfInRange(old(checkInTimes[i].time));
      }
    }

    /**
     * `pauseCheckInsUntil_HourOfDay(targetHour:)`: pauses check-ins until
     * `nextMatchingHour`, the next instant the calendar finds with that hour.
     */
    method PauseCheckInsUntilHourOfDay(targetHour: int, nextMatchingHour: int)
      requires config.Valid()
      modifies config
      ensures config.Valid()
      ensures config.shouldPauseCheckIns && config.dateTimeToResumeCheckInsAfterPause == nextMatchingHour
      ensures config.enableCheckIns == old(config.enableCheckIns)
    {
      config.shouldPauseCheckIns := true;
      config.dateTimeToResumeCheckInsAfterPause := nextMatchingHour;
    }

    /**
     * `pauseCheckInsUntil_Days(daysToPause:)`: pauses check-ins until
     * `roundedResume`, the calendar's next whole hour after the instant
     * `daysToPause` days from now.
     */
    method PauseCheckInsUntilDays(daysToPause: int, roundedResume: int)
      requires config.Valid()
      modifies config
      ensures config.Valid()
      ensures config.shouldPauseCheckIns && config.dateTimeToResumeCheckInsAfterPause == roundedResume
      ensures config.enableCheckIns == old(config.enableCheckIns)
    {
      config.shouldPauseCheckIns := true;
      config.dateTimeToResumeCheckInsAfterPause := roundedResume;
    }

    /** `getWeeklyRepeatMessage` on the record's weekday selection. */
    function GetWeeklyRepeatMessage(): (message: string)
      reads this, config, config.weekdaysForCheckIns
      requires config.Valid()
      ensures config.weekdaysForCheckIns.AreAllDaysSelected() ==> message == "The Check Ins will repeat daily."
      ensures config.weekdaysForCheckIns.AreAllDaysNotSelected() ==> message == "The Check Ins will repeat on:\n"
    {
      var selections := config.weekdaysForCheckIns.selections;
      if CountSelected(selections) == DaysPerWeek then
        DailyMessage(selections);
        WeeklyRepeatMessage(selections)
      else if CountSelected(selections) == 0 then
        ListMessage(selections);
        SelectedDaysAreTheSelection(selections);
        WeeklyRepeatMessage(selections)
      else
        WeeklyRepeatMessage(selections)
    }
  }
}
