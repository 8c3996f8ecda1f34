/** The three callbacks the mood heatmap (client/src/components/CalendarHeatmap.tsx) hands to
    the calendar library: the CSS class of a day square, its tooltip and the click guard. The
    library calls them with the value placed on a day, or with nothing for an empty day. */
module CalendarHeatmap {
  import opened Wrappers

  /** A value placed on the calendar. */
  datatype HeatmapData = HeatmapData(date: string, count: int, mood: string)

  const EmptyClass := "color-empty"
  const MoodClassPrefix := "mood-"
  const NoData := "No data"
  /** The separator of the tooltip: a space, an en dash (U+2013), " Mood: ". */
  const MoodSeparator := " – Mood: "

  /** `classForValue`: an empty day or one without a mood is drawn empty; any other day gets
      the class of its mood. */
  function ClassForValue(value: Option<HeatmapData>): (cls: string)
    ensures cls == EmptyClass <==> value.None? || value.value.mood == ""
    ensures value.Some? && value.value.mood != "" ==> cls == MoodClassPrefix + value.value.mood
  {
    if value.None? || value.value.mood == "" then EmptyClass
    else
      var cls := MoodClassPrefix + value.value.mood;
      assert cls[0] != EmptyClass[0];
      cls
  }

  /** The mood a class stands for, read back from the class name. */
  function MoodOfClass(cls: string): (mood: Option<string>)
    ensures mood.Some? ==> cls == MoodClassPrefix + mood.value
  {
    if |cls| > |MoodClassPrefix| && cls[..|MoodClassPrefix|] == MoodClassPrefix
    then Some(cls[|MoodClassPrefix|..])
    else None
  }

  /** The class tells the mood apart: reading it back gives the value's mood for a day with a
      mood, and nothing for an empty day. */
  lemma ClassNamesTheMood(value: Option<HeatmapData>)
    ensures value.Some? && value.value.mood != "" ==> MoodOfClass(ClassForValue(value)) == Some(value.value.mood)
    ensures value.None? || value.value.mood == "" ==> MoodOfClass(ClassForValue(value)) == None
  {
    if value.Some? && value.value.mood != "" {
      var cls := ClassForValue(value);
      assert cls[..|MoodClassPrefix|] == MoodClassPrefix;
      assert cls[|MoodClassPrefix|..] == value.value.mood;
    } else {
      assert EmptyClass[..|MoodClassPrefix|][0] != MoodClassPrefix[0];
    }
  }

  /** `tooltipDataAttrs`: a day with a date reads "<date> – Mood: <mood>", any other "No data". */
  function Tooltip(value: Option<HeatmapData>): (tip: string)
    ensures value.Some? && value.value.date != "" ==> tip == value.value.date + MoodSeparator + value.value.mood
    ensures value.None? || value.value.date == "" ==> tip == NoData
  {
    if value.Some? && value.value.date != "" then value.value.date + MoodSeparator + value.value.mood
    else NoData
  }

  /** "No data" is shown exactly for the days without a date: a dated tooltip contains the en
      dash, which "No data" does not. */
  lemma TooltipNoDataExactlyWhenUndated(value: Option<HeatmapData>)
    ensures Tooltip(value) == NoData <==> value.None? || value.value.date == ""
  {
    if value.Some? && value.value.date != "" {
      var tip := Tooltip(value);
      var dash := |value.value.date| + 1;
      assert tip[dash] == '–';
      assert '–' !in NoData;
    }
  }

  /** The `onClick` guard: the date handed to `onDateClick`, if any. A click on an empty day or
      a value without a date does nothing. */
  function ClickTarget(value: Option<HeatmapData>): (date: Option<string>)
    ensures date.Some? <==> value.Some? && value.value.date != ""
    ensures date.Some? ==> date.value == value.value.date
  {
    if value.Some? && value.value.date != "" then Some(value.value.date) else None
  }
}
