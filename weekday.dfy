/** The seven weekdays, with the raw values and the short labels the app shows. */
module Days {

  import opened Wrappers

  /** Declared Mon first; the raw values run 0 (Mon) to 6 (Sun). */
  datatype Weekday = Mon | Tue | Wed | Thu | Fri | Sat | Sun {

    function RawValue(): (raw: int)
      ensures 0 <= raw < 7
    {
      match this
      case Mon => 0
      case Tue => 1
      case Wed => 2
      case Thu => 3
      case Fri => 4
      case Sat => 5
      case Sun => 6
    }

    function ThreeLetterDescription(): (text: string)
      ensures |text| == 3
    {
      match this
      case Mon => "Mon"
      case Tue => "Tue"
      case Wed => "Wed"
      case Thu => "Thu"
      case Fri => "Fri"
      case Sat => "Sat"
      case Sun => "Sun"
    }

    function TwoLetterDescription(): (text: string)
      ensures |text| == 2
    {
      match this
      case Mon => "Mo"
      case Tue => "Tu"
      case Wed => "We"
      case Thu => "Th"
      case Fri => "Fr"
      case Sat => "Sa"
      case Sun => "Su"
    }
  }

  /** The days in declaration order. */
  const DeclarationOrder: seq<Weekday> := [Mon, Tue, Wed, Thu, Fri, Sat, Sun]

  /** The failable `Weekday(rawValue:)` initializer. */
  function FromRawValue(raw: int): (day: Option<Weekday>)
    ensures day.Some? <==> 0 <= raw < 7
    ensures day.Some? ==> day.value.RawValue() == raw
  {
    if 0 <= raw < 7 then Some(DeclarationOrder[raw]) else None
  }

  /** Raw values are consecutive from 0 in declaration order, and they identify a day. */
  lemma RawValuesAreConsecutive()
    ensures forall i :: 0 <= i < 7 ==> DeclarationOrder[i].RawValue() == i
    ensures forall d: Weekday :: DeclarationOrder[d.RawValue()] == d
    ensures forall d: Weekday, e: Weekday :: d.RawValue() == e.RawValue() ==> d == e
  {
    forall d: Weekday ensures DeclarationOrder[d.RawValue()] == d {
      match d
      case Mon =>
      case Tue =>
      case Wed =>
      case Thu =>
      case Fri =>
      case Sat =>
      case Sun =>
    }
  }

  /** No two days share a three-letter label. */
  lemma ThreeLetterDescriptionsAreDistinct(d: Weekday, e: Weekday)
    requires d != e
    ensures d.ThreeLetterDescription() != e.ThreeLetterDescription()
  {
  }

  /** Each two-letter label is the three-letter label cut to its first two characters. */
  lemma TwoLetterDescriptionIsPrefix(d: Weekday)
    ensures d.TwoLetterDescription() == d.ThreeLetterDescription()[..2]
  {
  }
}
