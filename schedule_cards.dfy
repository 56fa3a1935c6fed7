/** A schedule entry and the two components that show one:
    src/components/Schedule/ScheduleCard.tsx and
    src/components/Dashboard/DailySchedule.tsx. */
module ScheduleCards {

  datatype ScheduleItem = ScheduleItem(
    id: int,
    title: string,
    startTime: string,
    endTime: string,
    isCompleted: bool)

  /** ScheduleCard's `timeDisplay`: the range when there is an end time,
      else the start time alone. */
  function CardTimeLabel(s: ScheduleItem): (r: string)
    ensures s.endTime == "" ==> r == s.startTime
    ensures s.endTime != "" ==> r == s.startTime + " - " + s.endTime
  {
    if s.endTime != "" then s.startTime + " - " + s.endTime else s.startTime
  }

  /** DailySchedule's label: the start time followed by ` - end` when there
      is an end time. */
  function DailyTimeLabel(s: ScheduleItem): (r: string)
    ensures s.startTime <= r
    ensures r == s.startTime <==> s.endTime == ""
  {
    s.startTime + (if s.endTime != "" then " - " + s.endTime else "")
  }

  /** The two components label every schedule the same way. */
  lemma LabelsAgree(s: ScheduleItem)
    ensures CardTimeLabel(s) == DailyTimeLabel(s)
  {
  }

  /** The `checked` state of a ScheduleCard. */
  class CardCheck {
    var checked: bool

    constructor(item: ScheduleItem)
      ensures checked == item.isCompleted
    {
      checked := item.isCompleted;
    }

    /** `toggleComplete`. */
    method Toggle()
      modifies this
      ensures checked == !old(checked)
    {
      checked := !checked;
    }
  }

  /** The `checked` state of a DailySchedule row. */
  class DailyCheck {
    var checked: bool

    constructor(item: ScheduleItem)
      ensures checked == item.isCompleted
    {
      checked := item.isCompleted;
    }

    /** The press handler of the round checkbox. */
    method Press()
      modifies this
      ensures checked == !old(checked)
    {
      checked := !checked;
    }
  }

  /** Toggling twice restores the check mark. */
  method ToggleTwice(item: ScheduleItem) returns (card: CardCheck)
    ensures fresh(card) && card.checked == item.isCompleted
  {
    card := new CardCheck(item);
    card.Toggle();
    card.Toggle();
  }
}
