/**
 * The weekday check-box list (`WeekdaySelectorView`): tapping a day toggles
 * it, unless the list may not become empty and the tap would deselect the
 * last selected day, in which case the tap is refused and guidance is shown.
 */
module WeekdaySelector {

  import opened Days
  import opened DaySelection
  import opened Config

  /** The selections and the guidance-message flag after a tap. */
  datatype TapOutcome = TapOutcome(selections: seq<bool>, showEmptyListMessage: bool)

  /** What `weekdayCheckBoxAction` does to the selections and the message flag. */
  function CheckBoxTapOutcome(selections: seq<bool>, index: int, shouldPreventEmptyList: bool): (r: TapOutcome)
    requires |selections| == DaysPerWeek && 0 <= index < DaysPerWeek
    ensures |r.selections| == DaysPerWeek
    ensures forall i :: 0 <= i < DaysPerWeek && i != index ==> r.selections[i] == selections[i]
  {
    var previousState := selections[index];
    if shouldPreventEmptyList && CountSelected(selections) <= 1 && previousState == true then
      TapOutcome(selections, true)
    else
      TapOutcome(selections[index := !previousState], false)
  }

  /** Changing one flag changes the count by that flag's difference. */
  lemma CountSelectedUpdate(s: seq<bool>, i: nat, b: bool)
    requires i < |s|
    ensures CountSelected(s[i := b]) == CountSelected(s) - (if s[i] then 1 else 0) + (if b then 1 else 0)
  {
    var t := s[i := b];
    assert s == s[..i] + [s[i]] + s[i + 1..];
    assert t == s[..i] + [b] + s[i + 1..];
    CountSelectedAppend(s[..i] + [s[i]], s[i + 1..]);
    CountSelectedAppend(s[..i], [s[i]]);
    CountSelectedAppend(s[..i] + [b], s[i + 1..]);
    CountSelectedAppend(s[..i], [b]);
    assert [s[i]][..0] == [] && [b][..0] == [];
  }

  /** A refused tap leaves the selections alone and shows the guidance. */
  lemma RefusedTapChangesNothing(selections: seq<bool>, index: int)
    requires |selections| == DaysPerWeek && 0 <= index < DaysPerWeek
    requires CountSelected(selections) <= 1 && selections[index]
    ensures CheckBoxTapOutcome(selections, index, true) == TapOutcome(selections, true)
  {
  }

  /** Every other tap flips exactly the tapped day and hides the guidance. */
  lemma AcceptedTapFlipsTheDay(selections: seq<bool>, index: int, shouldPreventEmptyList: bool)
    requires |selections| == DaysPerWeek && 0 <= index < DaysPerWeek
    requires !(shouldPreventEmptyList && CountSelected(selections) <= 1 && selections[index])
    ensures CheckBoxTapOutcome(selections, index, shouldPreventEmptyList)
            == TapOutcome(selections[index := !selections[index]], false)
  {
  }

  /** With prevention on, a non-empty selection stays non-empty whatever is tapped. */
  lemma PreventionKeepsSelectionNonEmpty(selections: seq<bool>, index: int)
    requires |selections| == DaysPerWeek && 0 <= index < DaysPerWeek
    requires CountSelected(selections) >= 1
    ensures CountSelected(CheckBoxTapOutcome(selections, index, true).selections) >= 1
  {
    CountSelectedUpdate(selections, index, !selections[index]);
  }

  /** Selecting an unselected day is never refused, and adds one to the count. */
  lemma SelectingIsNeverRefused(selections: seq<bool>, index: int, shouldPreventEmptyList: bool)
    requires |selections| == DaysPerWeek && 0 <= index < DaysPerWeek
    requires !selections[index]
    ensures CheckBoxTapOutcome(selections, index, shouldPreventEmptyList).selections[index]
    ensures !CheckBoxTapOutcome(selections, index, shouldPreventEmptyList).showEmptyListMessage
    ensures CountSelected(CheckBoxTapOutcome(selections, index, shouldPreventEmptyList).selections)
            == CountSelected(selections) + 1
  {
    CountSelectedUpdate(selections, index, true);
  }

  /** With prevention off, deselecting the only selected day empties the set. */
  lemma WithoutPreventionTheSetCanEmpty(selections: seq<bool>, index: int)
    requires |selections| == DaysPerWeek && 0 <= index < DaysPerWeek
    requires CountSelected(selections) == 1 && selections[index]
    ensures CountSelected(CheckBoxTapOutcome(selections, index, false).selections) == 0
    ensures !CheckBoxTapOutcome(selections, index, false).showEmptyListMessage
  {
    CountSelectedUpdate(selections, index, false);
  }

  class WeekdaySelectorView {

    /** The settings record the list edits (`config[0]`). */
    const config: Settings
    var showEmptyListMessage: bool
    const shouldPreventEmptyList: bool
    const emptyListInstructionMessage: string

    constructor (config: Settings, shouldPreventEmptyList: bool,
                 emptyListInstructionMessage: string := "The custom weekdays list cannot be empty.")
      ensures this.config == config && !showEmptyListMessage
      ensures this.shouldPreventEmptyList == shouldPreventEmptyList
      ensures this.emptyListInstructionMessage == emptyListInstructionMessage
    {
      this.config := config;
      this.shouldPreventEmptyList := shouldPreventEmptyList;
      this.emptyListInstructionMessage := emptyListInstructionMessage;
      showEmptyListMessage := false;
    }

    /** `weekdayCheckBoxAction(index:)`, for one of the seven rows (index 0 = Mon). */
    method WeekdayCheckBoxAction(index: int)
      requires 0 <= index < DaysPerWeek && config.Valid()
      modifies this, config.weekdaysForCheckIns
      ensures config.Valid()
      ensures TapOutcome(config.weekdaysForCheckIns.selections, showEmptyListMessage)
              == CheckBoxTapOutcome(old(config.weekdaysForCheckIns.selections), index, shouldPreventEmptyList)
    {
      var weekdayName := FromRawValue(index).value;
      var previousState := config.weekdaysForCheckIns.IsWeekdaySelected(weekdayName);
      var previousSelectionCount := config.weekdaysForCheckIns.GetSelectedWeekdayCount();
      if shouldPreventEmptyList && previousSelectionCount <= 1 && previousState == true {
        showEmptyListMessage := true;
        return;
      }
      config.weekdaysForCheckIns.SetSelected(weekdayName, !previousState);
      showEmptyListMessage := false;
    }
  }
}
