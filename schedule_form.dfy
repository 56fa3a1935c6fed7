/** The add-schedule form of src/screens/Schedule/AddSchedule.tsx. Times
    are JavaScript `Date` values, kept as milliseconds since the epoch. */
module ScheduleForm {
  import opened Wrappers
  import opened Text

  /** Thirty minutes, the default length of a schedule. */
  const HalfHourMs: int := 30 * 60000

  /** The four frequency buttons; the state holds nothing else. */
  datatype Frequency = Once | Daily | Weekly | Monthly {
    /** The string the state holds for this frequency. */
    function Name(): (s: string)
      ensures s in {"once", "daily", "weekly", "monthly"}
    {
      match this
      case Once => "once"
      case Daily => "daily"
      case Weekly => "weekly"
      case Monthly => "monthly"
    }
  }

  /** Distinct frequencies have distinct names. */
  lemma NameInjective(a: Frequency, b: Frequency)
    ensures a.Name() == b.Name() <==> a == b
  {
  }

  /** The date field is rendered only for a one-off schedule. */
  predicate ShowsDateField(f: Frequency) {
    f == Once
  }

  /** The sentence appended to the description, if any. */
  function RepeatSentence(f: Frequency): (r: Option<string>)
    ensures r.Some? <==> f != Once
    ensures r.Some? ==> r.value == " This schedule will repeat " + f.Name() + "."
  {
    if f != Once then Some(" This schedule will repeat " + f.Name() + ".") else None
  }

  /** A repeating schedule shows the repeat sentence and no date field; a
      one-off schedule shows the date field and no sentence. */
  lemma DateFieldOrSentence(f: Frequency)
    ensures ShowsDateField(f) <==> RepeatSentence(f).None?
  {
  }

  /** The three picker modals of the form. */
  datatype Picker = StartPicker | EndPicker | DatePicker

  datatype SaveOutcome = Rejected(message: string) | Accepted

  class AddScheduleForm {
    var title: string
    var startTime: int
    var endTime: int
    var date: int
    var enableReminder: bool
    var openStartTimePicker: bool
    var openEndTimePicker: bool
    var openDatePicker: bool
    var frequency: Frequency

    /** The first render; `now1`, `now2`, `now3` are the three clock reads
        behind the start time, the end time and the date. */
    constructor(now1: int, now2: int, now3: int)
      ensures title == "" && startTime == now1 && endTime == now2 + HalfHourMs && date == now3
      ensures enableReminder && frequency == Daily
      ensures !openStartTimePicker && !openEndTimePicker && !openDatePicker
      ensures now1 == now2 ==> endTime == startTime + HalfHourMs
    {
      title := "";
      startTime := now1;
      endTime := now2 + HalfHourMs;
      date := now3;
      enableReminder := true;
      openStartTimePicker := false;
      openEndTimePicker := false;
      openDatePicker := false;
      frequency := Daily;
    }

    /** `handleSave`: a blank title is refused with an error; anything else
        is reported saved. The form itself does not change. */
    method Save() returns (outcome: SaveOutcome)
      ensures outcome == Rejected("Please enter a schedule title") <==> Trim(title) == ""
      ensures outcome.Rejected? <==> AllWhitespace(title)
    {
      TrimEmptyIffBlank(title);
      if Trim(title) == "" {
        return Rejected("Please enter a schedule title");
      }
      return Accepted;
    }

    method SetTitle(text: string)
      modifies this
      ensures title == text
      ensures startTime == old(startTime) && endTime == old(endTime) && date == old(date)
      ensures enableReminder == old(enableReminder) && frequency == old(frequency)
      ensures openStartTimePicker == old(openStartTimePicker) && openEndTimePicker == old(openEndTimePicker)
      ensures openDatePicker == old(openDatePicker)
    {
      title := text;
    }

    method SetFrequency(f: Frequency)
      modifies this
      ensures frequency == f
      ensures title == old(title) && startTime == old(startTime) && endTime == old(endTime) && date == old(date)
      ensures enableReminder == old(enableReminder)
      ensures openStartTimePicker == old(openStartTimePicker) && openEndTimePicker == old(openEndTimePicker)
      ensures openDatePicker == old(openDatePicker)
    {
      frequency := f;
    }

    method SetReminder(on: bool)
      modifies this
      ensures enableReminder == on
      ensures title == old(title) && startTime == old(startTime) && endTime == old(endTime) && date == old(date)
      ensures frequency == old(frequency)
      ensures openStartTimePicker == old(openStartTimePicker) && openEndTimePicker == old(openEndTimePicker)
      ensures openDatePicker == old(openDatePicker)
    {
      enableReminder := on;
    }

    /** Pressing the start, end or date field opens its picker. */
    method OpenPicker(p: Picker)
      modifies this
      ensures openStartTimePicker == (old(openStartTimePicker) || p == StartPicker)
      ensures openEndTimePicker == (old(openEndTimePicker) || p == EndPicker)
      ensures openDatePicker == (old(openDatePicker) || p == DatePicker)
      ensures title == old(title) && startTime == old(startTime) && endTime == old(endTime) && date == old(date)
      ensures enableReminder == old(enableReminder) && frequency == old(frequency)
    {
      match p
      case StartPicker => openStartTimePicker := true;
      case EndPicker => openEndTimePicker := true;
      case DatePicker => openDatePicker := true;
    }

    /** Confirming a start time moves the end time to thirty minutes later. */
    method ConfirmStartTime(picked: int)
      modifies this
      ensures !openStartTimePicker && startTime == picked && endTime == picked + HalfHourMs
      ensures title == old(title) && date == old(date)
      ensures enableReminder == old(enableReminder) && frequency == old(frequency)
      ensures openEndTimePicker == old(openEndTimePicker) && openDatePicker == old(openDatePicker)
    {
      openStartTimePicker := false;
      startTime := picked;
      endTime := picked + HalfHourMs;
    }

    method CancelStartTime()
      modifies this
      ensures !openStartTimePicker
      ensures title == old(title) && startTime == old(startTime) && endTime == old(endTime) && date == old(date)
      ensures enableReminder == old(enableReminder) && frequency == old(frequency)
      ensures openEndTimePicker == old(openEndTimePicker) && openDatePicker == old(openDatePicker)
    {
      openStartTimePicker := false;
    }

    /** Confirming an end time changes the end time only. */
    method ConfirmEndTime(picked: int)
      modifies this
      ensures !openEndTimePicker && endTime == picked
      ensures title == old(title) && startTime == old(startTime) && date == old(date)
      ensures enableReminder == old(enableReminder) && frequency == old(frequency)
      ensures openStartTimePicker == old(openStartTimePicker) && openDatePicker == old(openDatePicker)
    {
      openEndTimePicker := false;
      endTime := picked;
    }

    method CancelEndTime()
      modifies this
      ensures !openEndTimePicker
      ensures title == old(title) && startTime == old(startTime) && endTime == old(endTime) && date == old(date)
      ensures enableReminder == old(enableReminder) && frequency == old(frequency)
      ensures openStartTimePicker == old(openStartTimePicker) && openDatePicker == old(openDatePicker)
    {
      openEndTimePicker := false;
    }

    method ConfirmDate(picked: int)
      modifies this
      ensures !openDatePicker && date == picked
      ensures title == old(title) && startTime == old(startTime) && endTime == old(endTime)
      ensures enableReminder == old(enableReminder) && frequency == old(frequency)
      ensures openStartTimePicker == old(openStartTimePicker) && openEndTimePicker == old(openEndTimePicker)
    {
      openDatePicker := false;
      date := picked;
    }

    method CancelDate()
      modifies this
      ensures !openDatePicker
      ensures title == old(title) && startTime == old(startTime) && endTime == old(endTime) && date == old(date)
      ensures enableReminder == old(enableReminder) && frequency == old(frequency)
      ensures openStartTimePicker == old(openStartTimePicker) && openEndTimePicker == old(openEndTimePicker)
    {
      openDatePicker := false;
    }
  }
}
