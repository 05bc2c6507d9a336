/**
 * The weekly recurrence set (`WeekdaySelections`): seven flags in the
 * internal order 0 = Mon .. 6 = Sun, with counting and listing queries,
 * detection of one contiguous multi-day run, and conversion between the
 * internal order and the host calendar's 1 = Sun .. 7 = Sat numbering.
 */
module DaySelection {

  import opened Wrappers
  import opened Days

  const DaysPerWeek: int := 7

  /** `indexToWeekdayArray`: internal index to day. */
  const IndexToWeekday: seq<Weekday> := [Mon, Tue, Wed, Thu, Fri, Sat, Sun]

  /** `weekdayToIndexMap`: day to internal index. */
  const WeekdayToIndex: map<Weekday, int> :=
    map[Mon := 0, Tue := 1, Wed := 2, Thu := 3, Fri := 4, Sat := 5, Sun := 6]

  /** The host calendar's weekday numbering: position k holds the day numbered k + 1. */
  const CalendarWeekdays: seq<Weekday> := [Sun, Mon, Tue, Wed, Thu, Fri, Sat]

  /** Both lookup tables agree with the raw values of the enumeration. */
  lemma IndexTablesMatchRawValues()
    ensures forall d: Weekday :: d in WeekdayToIndex && WeekdayToIndex[d] == d.RawValue()
    ensures forall i :: 0 <= i < DaysPerWeek ==> IndexToWeekday[i].RawValue() == i
    ensures forall d: Weekday :: IndexToWeekday[WeekdayToIndex[d]] == d
  {
    forall d: Weekday ensures d in WeekdayToIndex && WeekdayToIndex[d] == d.RawValue() {
      match d
      case Mon =>
      case Tue =>
      case Wed =>
      case Thu =>
      case Fri =>
      case Sat =>
      case Sun =>
    }
  }

  /** Internal index of a day. */
  function IndexOf(d: Weekday): (i: int)
    ensures 0 <= i < DaysPerWeek && IndexToWeekday[i] == d && i == d.RawValue()
  {
    IndexTablesMatchRawValues();
    WeekdayToIndex[d]
  }

  // ---------------------------------------------------------------------
  // The meaning of the flags, as functions of the flag sequence.

  /** Number of set flags; defined on prefixes, the way the counting loop walks. */
  function CountSelected(s: seq<bool>): (c: nat)
    ensures c <= |s|
  {
    if s == [] then 0 else CountSelected(s[..|s| - 1]) + (if s[|s| - 1] then 1 else 0)
  }

  /** The days whose flags are set, in internal order. */
  function SelectedDays(s: seq<bool>): (days: seq<Weekday>)
    requires |s| <= DaysPerWeek
    ensures |days| <= |s|
  {
    if s == [] then []
    else SelectedDays(s[..|s| - 1]) + (if s[|s| - 1] then [IndexToWeekday[|s| - 1]] else [])
  }

  /** `firstIndex(of:)`, with `|s|` standing for "not found". */
  function FirstIndexOf(s: seq<bool>, v: bool): (i: nat)
    ensures i <= |s|
    ensures i < |s| ==> s[i] == v
    ensures forall k :: 0 <= k < i ==> s[k] != v
  {
    if s == [] then 0 else if s[0] == v then 0 else 1 + FirstIndexOf(s[1..], v)
  }

  /** `lastIndex(of:)`, with `-1` standing for "not found". */
  function LastIndexOf(s: seq<bool>, v: bool): (i: int)
    ensures -1 <= i < |s|
    ensures 0 <= i ==> s[i] == v
    ensures forall k :: i < k < |s| ==> s[k] != v
  {
    if s == [] then -1
    else if s[|s| - 1] == v then |s| - 1
    else LastIndexOf(s[..|s| - 1], v)
  }

  /** Length of the block of `v` flags that starts at `from`. */
  function RunLength(s: seq<bool>, from: nat, v: bool): (n: nat)
    requires from <= |s|
    ensures from + n <= |s|
    decreases |s| - from
  {
    if from < |s| && s[from] == v then 1 + RunLength(s, from + 1, v) else 0
  }

  /** Length of the first block of `v` flags, scanning Mon to Sun without wrapping. */
  function FirstRunLength(s: seq<bool>, v: bool): (n: nat)
    ensures FirstIndexOf(s, v) + n <= |s|
  {
    RunLength(s, FirstIndexOf(s, v), v)
  }

  /** `hasSingleMultidaySubsetSelection`: 2 to 6 days selected, forming the first run. */
  predicate IsSingleMultidayRun(s: seq<bool>): (single: bool)
    ensures single ==> 2 <= CountSelected(s) && FirstIndexOf(s, true) + CountSelected(s) <= |s|
    ensures |s| == DaysPerWeek && single ==> CountSelected(s) < DaysPerWeek
  {
    var count := CountSelected(s);
    !(count < 2 || count == DaysPerWeek) && FirstRunLength(s, true) == count
  }

  /** The first and last day of a contiguous selection. */
  datatype Endpoints = Endpoints(firstWeekday: Weekday, lastWeekday: Weekday)

  /** `getSingleMultidaySubsetEndpointsOrNil`. */
  function SubsetEndpoints(s: seq<bool>): (r: Option<Endpoints>)
    requires |s| == DaysPerWeek
    ensures r.Some? <==> IsSingleMultidayRun(s)
  {
    if !IsSingleMultidayRun(s) then None
    else
      CountPositiveHasIndices(s);
      Some(Endpoints(IndexToWeekday[FirstIndexOf(s, true)], IndexToWeekday[LastIndexOf(s, true)]))
  }

  // ---------------------------------------------------------------------
  // Lemmas about those functions.

  lemma {:induction false} CountSelectedAppend(a: seq<bool>, b: seq<bool>)
    ensures CountSelected(a + b) == CountSelected(a) + CountSelected(b)
    decreases |b|
  {
    if b == [] {
      assert a + b == a;
    } else {
      assert (a + b)[..|a + b| - 1] == a + b[..|b| - 1];
      CountSelectedAppend(a, b[..|b| - 1]);
    }
  }

  /** The count of a sequence cut in three places is the sum of the three counts. */
  lemma CountSelectedSplit(s: seq<bool>, i: nat, j: nat)
    requires i <= j <= |s|
    ensures CountSelected(s) == CountSelected(s[..i]) + CountSelected(s[i..j]) + CountSelected(s[j..])
  {
    assert s == s[..i] + s[i..j] + s[j..];
    CountSelectedAppend(s[..i] + s[i..j], s[j..]);
    CountSelectedAppend(s[..i], s[i..j]);
  }

  /** No flag set before `j` means a count of zero for the prefix. */
  lemma CountZeroBefore(s: seq<bool>, j: nat)
    requires j <= |s| && forall k :: 0 <= k < j ==> !s[k]
    ensures CountSelected(s[..j]) == 0
  {
    var prefix := s[..j];
    assert forall k :: 0 <= k < |prefix| ==> prefix[k] == s[k];
    CountZeroIffNoneSelected(prefix);
  }

  /** No flag set from `i` on means a count of zero for the suffix. */
  lemma CountZeroFrom(s: seq<bool>, i: nat)
    requires i <= |s| && forall k :: i <= k < |s| ==> !s[k]
    ensures CountSelected(s[i..]) == 0
  {
    var suffix := s[i..];
    assert forall k :: 0 <= k < |suffix| ==> suffix[k] == s[i + k];
    CountZeroIffNoneSelected(suffix);
  }

  /** A slice whose count equals its length has every flag set. */
  lemma CountFullOnSlice(s: seq<bool>, i: nat, j: nat)
    requires i <= j <= |s| && CountSelected(s[i..j]) == j - i
    ensures forall k :: i <= k < j ==> s[k]
  {
    var slice := s[i..j];
    CountFullIffAllSelected(slice);
    forall k | i <= k < j ensures s[k] {
      assert slice[k - i] == s[k];
    }
  }

  /** No flag set means a count of zero, and the converse. */
  lemma {:induction false} CountZeroIffNoneSelected(s: seq<bool>)
    ensures CountSelected(s) == 0 <==> forall k :: 0 <= k < |s| ==> !s[k]
  {
    if s != [] {
      CountZeroIffNoneSelected(s[..|s| - 1]);
      assert forall k :: 0 <= k < |s| - 1 ==> s[..|s| - 1][k] == s[k];
    }
  }

  /** Every flag set means a count equal to the length, and the converse. */
  lemma {:induction false} CountFullIffAllSelected(s: seq<bool>)
    ensures CountSelected(s) == |s| <==> forall k :: 0 <= k < |s| ==> s[k]
  {
    if s != [] {
      CountFullIffAllSelected(s[..|s| - 1]);
      assert forall k :: 0 <= k < |s| - 1 ==> s[..|s| - 1][k] == s[k];
    }
  }

  lemma CountPositiveHasIndices(s: seq<bool>)
    requires CountSelected(s) > 0
    ensures FirstIndexOf(s, true) < |s| && 0 <= LastIndexOf(s, true)
    ensures FirstIndexOf(s, true) <= LastIndexOf(s, true)
  {
    CountZeroIffNoneSelected(s);
  }

  /** A block of `v` flags from `from` to `end`, closed by a different flag or the end, has that length. */
  lemma {:induction false} RunLengthOfBlock(s: seq<bool>, from: nat, end: nat, v: bool)
    requires from <= end <= |s|
    requires forall k :: from <= k < end ==> s[k] == v
    requires end == |s| || s[end] != v
    ensures RunLength(s, from, v) == end - from
    decreases end - from
  {
    if from < end {
      RunLengthOfBlock(s, from + 1, end, v);
    }
  }

  /** The flags counted by `RunLength` are all `v`, and the next one is not. */
  lemma {:induction false} RunLengthIsBlock(s: seq<bool>, from: nat, v: bool)
    requires from <= |s|
    ensures forall k :: from <= k < from + RunLength(s, from, v) ==> s[k] == v
    ensures from + RunLength(s, from, v) == |s| || s[from + RunLength(s, from, v)] != v
    decreases |s| - from
  {
    if from < |s| && s[from] == v {
      RunLengthIsBlock(s, from + 1, v);
    }
  }

  /** With no flag set outside `[f, l]`, the count is the count of that slice. */
  lemma CountOfSpan(s: seq<bool>, f: nat, l: int)
    requires f <= l + 1 <= |s|
    requires forall k :: 0 <= k < f ==> !s[k]
    requires forall k :: l < k < |s| ==> !s[k]
    ensures CountSelected(s) == CountSelected(s[f..l + 1])
  {
    CountSelectedSplit(s, f, l + 1);
    CountZeroBefore(s, f);
    CountZeroFrom(s, l + 1);
  }

  /** All selected days lie between the first and the last selected day. */
  lemma CountLiesInSpan(s: seq<bool>)
    requires CountSelected(s) > 0
    ensures FirstIndexOf(s, true) <= LastIndexOf(s, true)
    ensures CountSelected(s) == CountSelected(s[FirstIndexOf(s, true)..LastIndexOf(s, true) + 1])
  {
    CountPositiveHasIndices(s);
    CountOfSpan(s, FirstIndexOf(s, true), LastIndexOf(s, true));
  }

  /** A full span from the first to the last selected day is the first run. */
  lemma FullSpanIsFirstRun(s: seq<bool>)
    requires CountSelected(s) > 0
    requires CountSelected(s) == LastIndexOf(s, true) - FirstIndexOf(s, true) + 1
    ensures FirstRunLength(s, true) == CountSelected(s)
    ensures forall k :: FirstIndexOf(s, true) <= k <= LastIndexOf(s, true) ==> s[k]
  {
    CountPositiveHasIndices(s);
    FullSpanIsRun(s, FirstIndexOf(s, true), LastIndexOf(s, true));
  }

  /** A span `[f, l]` holding as many set flags as its length, none outside, is one run from `f`. */
  lemma FullSpanIsRun(s: seq<bool>, f: nat, l: nat)
    requires f <= l < |s|
    requires forall k :: 0 <= k < f ==> !s[k]
    requires forall k :: l < k < |s| ==> !s[k]
    requires CountSelected(s) == l - f + 1
    ensures RunLength(s, f, true) == l - f + 1
    ensures forall k :: f <= k <= l ==> s[k]
  {
    CountOfSpan(s, f, l);
    CountFullOnSlice(s, f, l + 1);
    assert l + 1 == |s| || !s[l + 1];
    RunLengthOfBlock(s, f, l + 1, true);
  }

  /** A first run that holds every selected day ends at the last selected day. */
  lemma FirstRunEndsAtLast(s: seq<bool>)
    requires CountSelected(s) > 0
    requires FirstRunLength(s, true) == CountSelected(s)
    ensures CountSelected(s) == LastIndexOf(s, true) - FirstIndexOf(s, true) + 1
  {
    CountPositiveHasIndices(s);
    var f, l := FirstIndexOf(s, true), LastIndexOf(s, true);
    var e := f + FirstRunLength(s, true);
    RunLengthIsBlock(s, f, true);
    CountSelectedSplit(s, f, e);
    CountZeroBefore(s, f);
    var run := s[f..e];
    assert forall k :: 0 <= k < |run| ==> run[k] == s[f + k];
    CountFullIffAllSelected(run);
    var after := s[e..];
    CountZeroIffNoneSelected(after);
    assert forall k :: e <= k < |s| ==> !s[k] by {
      forall k | e <= k < |s| ensures !s[k] {
        assert after[k - e] == s[k];
      }
    }
    assert l < e;
  }

  /**
   * The run test reduces to an interval test: the first block of selected
   * days holds all of them exactly when they fill the whole span from the
   * first selected day to the last.
   */
  lemma FirstRunHoldsAllIffSpanIsFull(s: seq<bool>)
    requires CountSelected(s) > 0
    ensures FirstRunLength(s, true) == CountSelected(s)
            <==> CountSelected(s) == LastIndexOf(s, true) - FirstIndexOf(s, true) + 1
  {
    if FirstRunLength(s, true) == CountSelected(s) {
      FirstRunEndsAtLast(s);
    }
    if CountSelected(s) == LastIndexOf(s, true) - FirstIndexOf(s, true) + 1 {
      FullSpanIsFirstRun(s);
    }
  }

  /** One more flag adds one to the count when it is set. */
  lemma CountSelectedStep(s: seq<bool>, k: nat)
    requires k < |s|
    ensures CountSelected(s[..k + 1]) == CountSelected(s[..k]) + (if s[k] then 1 else 0)
  {
    assert s[..k + 1][..k] == s[..k];
  }

  /**
   * The endpoints exist exactly when 2 to 6 days are selected and they are
   * one unbroken Mon-to-Sun span (no wrap from Sun back to Mon).
   */
  lemma SubsetEndpointsCharacterization(s: seq<bool>)
    requires |s| == DaysPerWeek
    ensures SubsetEndpoints(s).Some?
            <==> 2 <= CountSelected(s) <= 6
                 && CountSelected(s) == LastIndexOf(s, true) - FirstIndexOf(s, true) + 1
  {
    if CountSelected(s) > 0 {
      FirstRunHoldsAllIffSpanIsFull(s);
    }
  }

  /**
   * When the endpoints exist, the first comes strictly before the last, and
   * the selected days are exactly those from the first to the last.
   */
  lemma SubsetEndpointsBoundTheSelection(s: seq<bool>)
    requires |s| == DaysPerWeek && SubsetEndpoints(s).Some?
    ensures SubsetEndpoints(s).value.firstWeekday.RawValue() < SubsetEndpoints(s).value.lastWeekday.RawValue()
    ensures forall i :: 0 <= i < DaysPerWeek ==>
              (s[i] <==> SubsetEndpoints(s).value.firstWeekday.RawValue() <= i <= SubsetEndpoints(s).value.lastWeekday.RawValue())
  {
    SubsetEndpointsCharacterization(s);
    IndexTablesMatchRawValues();
    FullSpanIsFirstRun(s);
  }

  /** {Sat, Sun, Mon} is contiguous on a circular week, but not a range here. */
  lemma WrappedSelectionHasNoEndpoints()
    ensures SubsetEndpoints([true, false, false, false, false, true, true]).None?
  {
    var s := [true, false, false, false, false, true, true];
    SubsetEndpointsCharacterization(s);
    assert LastIndexOf(s, true) == 6;
    assert FirstIndexOf(s, true) == 0;
  }

  /** {Tue, Wed, Thu} is the range Tue to Thu. */
  lemma MidweekSelectionEndpoints()
    ensures SubsetEndpoints([false, true, true, true, false, false, false]) == Some(Endpoints(Tue, Thu))
  {
    var s := [false, true, true, true, false, false, false];
    CountSelectedStep(s, 0);
    CountSelectedStep(s, 1);
    CountSelectedStep(s, 2);
    CountSelectedStep(s, 3);
    CountSelectedStep(s, 4);
    CountSelectedStep(s, 5);
    CountSelectedStep(s, 6);
    assert s[..7] == s;
    assert s[1] && s[3];
    assert FirstIndexOf(s, true) == 1;
    assert LastIndexOf(s, true) == 3;
    SubsetEndpointsCharacterization(s);
  }

  /** The listed days are as many as the count, in strictly increasing internal order. */
  lemma {:induction false} SelectedDaysAreOrdered(s: seq<bool>)
    requires |s| <= DaysPerWeek
    ensures |SelectedDays(s)| == CountSelected(s)
    ensures forall i, j :: 0 <= i < j < |SelectedDays(s)| ==>
              SelectedDays(s)[i].RawValue() < SelectedDays(s)[j].RawValue()
    ensures forall i :: 0 <= i < |SelectedDays(s)| ==> SelectedDays(s)[i].RawValue() < |s|
  {
    if s != [] {
      var p := s[..|s| - 1];
      SelectedDaysAreOrdered(p);
      var listed, earlier := SelectedDays(s), SelectedDays(p);
      assert IndexToWeekday[|s| - 1].RawValue() == |s| - 1 by {
        IndexTablesMatchRawValues();
      }
      assert listed == earlier + (if s[|s| - 1] then [IndexToWeekday[|s| - 1]] else []);
      assert forall i :: 0 <= i < |earlier| ==> listed[i] == earlier[i];
    }
  }

  /** A day is listed exactly when its flag is set. */
  lemma {:induction false} SelectedDaysAreTheSetFlags(s: seq<bool>)
    requires |s| <= DaysPerWeek
    ensures forall d: Weekday :: d in SelectedDays(s) <==> IndexOf(d) < |s| && s[IndexOf(d)]
  {
    IndexTablesMatchRawValues();
    if s != [] {
      var p := s[..|s| - 1];
      SelectedDaysAreTheSetFlags(p);
      assert forall k :: 0 <= k < |p| ==> p[k] == s[k];
      forall d: Weekday ensures d in SelectedDays(s) <==> IndexOf(d) < |s| && s[IndexOf(d)] {
        if IndexOf(d) == |s| - 1 {
          assert d == IndexToWeekday[|s| - 1];
        } else {
          assert s[|s| - 1] ==> d != IndexToWeekday[|s| - 1];
        }
      }
    }
  }

  /**
   * The listed days are the selected ones, as many as the count, in strictly
   * increasing internal order (Mon to Sun).
   */
  lemma SelectedDaysAreTheSelection(s: seq<bool>)
    requires |s| <= DaysPerWeek
    ensures |SelectedDays(s)| == CountSelected(s)
    ensures forall d: Weekday :: d in SelectedDays(s) <==> IndexOf(d) < |s| && s[IndexOf(d)]
    ensures forall i, j :: 0 <= i < j < |SelectedDays(s)| ==>
              SelectedDays(s)[i].RawValue() < SelectedDays(s)[j].RawValue()
    ensures forall i :: 0 <= i < |SelectedDays(s)| ==> SelectedDays(s)[i].RawValue() < |s|
  {
    SelectedDaysAreOrdered(s);
    SelectedDaysAreTheSetFlags(s);
  }

  // ---------------------------------------------------------------------
  // The struct itself.

  class WeekdaySelections {

    /** The flags, index 0 = Mon .. 6 = Sun. */
    var selections: seq<bool>

    ghost predicate Valid()
      reads this
    {
      |selections| == DaysPerWeek
    }

    /** `init(allSelections:)`: every flag set to the same value. */
    constructor AllSelections(allSelections: bool)
      ensures Valid()
      ensures forall i :: 0 <= i < DaysPerWeek ==> selections[i] == allSelections
      ensures CountSelected(selections) == if allSelections then DaysPerWeek else 0
    {
      selections := [allSelections, allSelections, allSelections, allSelections,
                     allSelections, allSelections, allSelections];
      new;
      CountZeroIffNoneSelected(selections);
      CountFullIffAllSelected(selections);
    }

    /** The memberwise initializer; every day defaults to selected. */
    constructor (mon: bool := true, tue: bool := true, wed: bool := true, thu: bool := true,
                 fri: bool := true, sat: bool := true, sun: bool := true)
      ensures Valid()
      ensures selections == [mon, tue, wed, thu, fri, sat, sun]
      ensures mon && tue && wed && thu && fri && sat && sun ==> CountSelected(selections) == DaysPerWeek
    {
      selections := [mon, tue, wed, thu, fri, sat, sun];
      new;
      CountFullIffAllSelected(selections);
    }

    /** `getAllSelectedWeekdays`. */
    method GetAllSelectedWeekdays() returns (allSelectedWeekdays: seq<Weekday>)
      requires Valid()
      ensures allSelectedWeekdays == SelectedDays(selections)
      ensures |allSelectedWeekdays| == CountSelected(selections)
      ensures forall d: Weekday :: d in allSelectedWeekdays <==> IsWeekdaySelected(d)
    {
      allSelectedWeekdays := [];
      for index := 0 to |selections|
        invariant allSelectedWeekdays == SelectedDays(selections[..index])
      {
        assert selections[..index + 1][..index] == selections[..index];
        if selections[index] == true {
          allSelectedWeekdays := allSelectedWeekdays + [IndexToWeekday[index]];
        }
      }
      assert selections[..|selections|] == selections;
      SelectedDaysAreTheSelection(selections);
    }

    /** `getSelectedWeekdayCount`. */
    method GetSelectedWeekdayCount() returns (count: int)
      requires Valid()
      ensures count == CountSelected(selections)
      ensures 0 <= count <= DaysPerWeek
    {
      count := 0;
      var i := 0;
      while i < |selections|
        invariant 0 <= i <= |selections|
        invariant count == CountSelected(selections[..i])
      {
        assert selections[..i + 1][..i] == selections[..i];
        if selections[i] == true {
          count := count + 1;
        }
        i := i + 1;
      }
      assert selections[..i] == selections;
    }

    /** `getFirstContiguousSequenceOfInterestCount_NoWrapping`. */
    method GetFirstContiguousSequenceOfInterestCount(valueOfInterest: bool) returns (length: int)
      requires Valid()
      ensures length == FirstRunLength(selections, valueOfInterest)
    {
      length := 0;
      var i := 0;
      while i < |selections|
        invariant 0 <= i <= |selections|
        invariant 0 <= length <= i
        invariant length == 0 ==> forall k :: 0 <= k < i ==> selections[k] != valueOfInterest
        invariant length > 0 ==> FirstIndexOf(selections, valueOfInterest) == i - length
        invariant forall k :: i - length <= k < i ==> selections[k] == valueOfInterest
      {
        if selections[i] == valueOfInterest {
          length := length + 1;
        } else if length > 0 {
          RunLengthOfBlock(selections, i - length, i, valueOfInterest);
          break;
        }
        i := i + 1;
      }
      if i == |selections| {
        RunLengthOfBlock(selections, i - length, i, valueOfInterest);
      }
    }

    /** `hasSingleMultidaySubsetSelection`. */
    method HasSingleMultidaySubsetSelection() returns (single: bool)
      requires Valid()
      ensures single == IsSingleMultidayRun(selections)
    {
      var selectedWeekdayCount := GetSelectedWeekdayCount();
      if selectedWeekdayCount < 2 || selectedWeekdayCount == DaysPerWeek {
        return false;
      }
      var firstTrueSequenceCount := GetFirstContiguousSequenceOfInterestCount(true);
      return firstTrueSequenceCount == selectedWeekdayCount;
    }

    /** `getSingleMultidaySubsetEndpointsOrNil`. */
    method GetSingleMultidaySubsetEndpointsOrNil() returns (endpoints: Option<Endpoints>)
      requires Valid()
      ensures endpoints == SubsetEndpoints(selections)
      ensures endpoints.Some? <==>
                (2 <= CountSelected(selections) <= 6
                 && CountSelected(selections) == LastIndexOf(selections, true) - FirstIndexOf(selections, true) + 1)
    {
      SubsetEndpointsCharacterization(selections);
      var single := HasSingleMultidaySubsetSelection();
      if !single {
        return None;
      }
      CountPositiveHasIndices(selections);
      var firstSelectionIndex := FirstIndexOf(selections, true);
      var lastSelectionIndex := LastIndexOf(selections, true);
      return Some(Endpoints(IndexToWeekday[firstSelectionIndex], IndexToWeekday[lastSelectionIndex]));
    }

    /** `setSelected(weekday:selection:)`. */
    method SetSelected(weekday: Weekday, selection: bool)
      requires Valid()
      modifies this
      ensures Valid()
      ensures selections == old(selections)[IndexOf(weekday) := selection]
      ensures IsWeekdaySelected(weekday) == selection
      ensures forall d: Weekday :: d != weekday ==> IsWeekdaySelected(d) == old(IsWeekdaySelected(d))
    {
      IndexTablesMatchRawValues();
      selections := selections[WeekdayToIndex[weekday] := selection];
    }

    /** `isWeekdaySelected(weekday:)`. */
    function IsWeekdaySelected(weekday: Weekday): (selected: bool)
      reads this
      requires Valid()
      ensures selected <==> weekday in SelectedDays(selections)
    {
      IndexTablesMatchRawValues();
      SelectedDaysAreTheSelection(selections);
      selections[WeekdayToIndex[weekday]]
    }

    /** `isDateSelected(date:)`, given the weekday number the calendar reports for the date. */
    function IsDateSelected(dateOrdinal: int): (selected: bool)
      reads this
      requires Valid()
      requires 1 <= dateOrdinal <= 7
      ensures selected == IsWeekdaySelected(CalendarWeekdays[dateOrdinal - 1])
    {
      IndexTablesMatchRawValues();
      selections[ConvertDateOrdinalToInternalOrdinal(dateOrdinal)]
    }

    /** `areAllDays_Selected`. */
    function AreAllDaysSelected(): (all: bool)
      reads this
      requires Valid()
      ensures all <==> CountSelected(selections) == DaysPerWeek
    {
      CountFullIffAllSelected(selections);
      forall i :: 0 <= i < |selections| ==> selections[i] == true
    }

    /** `areAllDays_NotSelected`. */
    function AreAllDaysNotSelected(): (none: bool)
      reads this
      requires Valid()
      ensures none <==> CountSelected(selections) == 0
    {
      CountZeroIffNoneSelected(selections);
      forall i :: 0 <= i < |selections| ==> selections[i] == false
    }

    /** `convertDateOrdinal_ToInternalOrdinal`: calendar number (1 = Sun) to internal index (0 = Mon). */
    static function ConvertDateOrdinalToInternalOrdinal(dateOrdinal: int): (internalOrdinal: int)
      ensures 1 <= dateOrdinal <= 7 ==>
                0 <= internalOrdinal < DaysPerWeek
                && IndexToWeekday[internalOrdinal] == CalendarWeekdays[dateOrdinal - 1]
    {
      if dateOrdinal == 1 then 6 else dateOrdinal - 2
    }

    /** `convertDateOrdinal_FromInternalOrdinal`: internal index (0 = Mon) to calendar number (1 = Sun). */
    static function ConvertDateOrdinalFromInternalOrdinal(internalOrdinal: int): (dateOrdinal: int)
      ensures 0 <= internalOrdinal < DaysPerWeek ==>
                1 <= dateOrdinal <= 7
                && CalendarWeekdays[dateOrdinal - 1] == IndexToWeekday[internalOrdinal]
    {
      if internalOrdinal == 6 then 1 else internalOrdinal + 2
    }
  }

  /** The two ordinal conversions are inverse bijections between 1..7 and 0..6. */
  lemma OrdinalConversionsAreInverse()
    ensures forall o :: 1 <= o <= 7 ==>
              WeekdaySelections.ConvertDateOrdinalFromInternalOrdinal(
                WeekdaySelections.ConvertDateOrdinalToInternalOrdinal(o)) == o
    ensures forall i :: 0 <= i < DaysPerWeek ==>
              WeekdaySelections.ConvertDateOrdinalToInternalOrdinal(
                WeekdaySelections.ConvertDateOrdinalFromInternalOrdinal(i)) == i
  {
  }
}
