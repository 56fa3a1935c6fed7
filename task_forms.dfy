/** The add-task and edit-task forms of src/screens/Main/AddTask.tsx and
    src/screens/Main/EditTask.tsx. Each keeps its fields as state, edits a
    subtask list, and on save hands a payload back to the task screen. Due
    dates are JavaScript `Date` values; `offsetMs` is the device's time zone
    (milliseconds ahead of UTC) in which moment formats them. */
module TaskForms {
  import opened Wrappers
  import opened Seqs
  import opened Text
  import opened Dates
  import opened IsoDate
  import opened Tasks

  /** What a save does: refuse with the alert's message, or submit a payload. */
  datatype SaveResult<T> = Refused(message: string) | Submitted(payload: T)

  const TitleMissing := "Please enter a task title"
  const SubtaskTitleMissing := "Please enter a subtask title"

  /** The subtask list after `addSubtask`: a blank entry is refused and
      changes nothing; any other entry is appended as an open subtask. */
  function AddSubtaskTo(subs: seq<SubTask>, entry: string): (r: seq<SubTask>)
    ensures AllWhitespace(entry) ==> r == subs
    ensures !AllWhitespace(entry) ==> |r| == |subs| + 1 && r[..|subs|] == subs
    ensures !AllWhitespace(entry) ==> r[|subs|] == SubTask(entry, false)
  {
    TrimEmptyIffBlank(entry);
    if Trim(entry) == "" then subs else subs + [SubTask(entry, false)]
  }

  /** No subtask in the list is completed. */
  predicate AllOpen(subs: seq<SubTask>) {
    forall j :: 0 <= j < |subs| ==> !subs[j].completed
  }

  /** The add-task form only ever adds open subtasks and removes subtasks,
      so every subtask it submits is open. */
  lemma AddTaskSubtasksOpen(subs: seq<SubTask>, entry: string, i: nat)
    requires AllOpen(subs)
    ensures AllOpen(AddSubtaskTo(subs, entry))
    ensures AllOpen(RemoveAt(subs, i))
  {
    var added := AddSubtaskTo(subs, entry);
    assert forall j :: 0 <= j < |subs| ==> added[j] == subs[j];
    var removed := RemoveAt(subs, i);
    assert forall j :: 0 <= j < |removed| ==> removed[j] in subs;
  }

  /** Removing subtask `i` is undone by putting it back at position `i`. */
  lemma RemoveSubtaskRestore(subs: seq<SubTask>, i: nat)
    requires i < |subs|
    ensures RemoveAt(subs, i)[..i] + [subs[i]] + RemoveAt(subs, i)[i..] == subs
  {
    var r := RemoveAt(subs, i);
    assert r[..i] == subs[..i];
    assert r[i..] == subs[i + 1..];
    assert subs == subs[..i] + [subs[i]] + subs[i + 1..];
  }

  class AddTaskForm {
    var title: string
    var description: string
    var priority: Priority
    var dueDate: JsDate
    var showDatePicker: bool
    var subtasks: seq<SubTask>
    var newSubtaskTitle: string
    const offsetMs: int

    /** The first render. A non-empty `selectedDate` from the task screen
        is read by `new Date(selectedDate)`, that is as midnight UTC of that
        day (see `NewDateFromIso`); otherwise the due date is the current
        instant `now`. Formatted back in the local zone, a selected day
        comes back unchanged on or east of UTC and as the day before west
        of it. */
    constructor(selectedDate: Option<string>, now: int, zoneOffsetMs: int)
      ensures offsetMs == zoneOffsetMs
      ensures title == "" && description == "" && priority == Medium
      ensures subtasks == [] && newSubtaskTitle == "" && !showDatePicker
      ensures dueDate == if selectedDate.Some? && selectedDate.value != ""
                         then NewDateFromIso(selectedDate.value) else Instant(now)
      ensures selectedDate.Some? && ParseIso(selectedDate.value).Some? && 0 <= zoneOffsetMs < DayMs ==>
                FormatLocalIso(dueDate, offsetMs) == selectedDate.value
      ensures selectedDate.Some? && ParseIso(selectedDate.value).Some? && -DayMs < zoneOffsetMs < 0 ==>
                FormatLocalIso(dueDate, offsetMs) == FormatIso(AddDays(ParseIso(selectedDate.value).value, -1))
      ensures selectedDate.Some? && ParseIso(selectedDate.value).Some? && 1 <= ParseIso(selectedDate.value).value.year &&
              -DayMs < zoneOffsetMs < 0 ==>
                FormatLocalIso(dueDate, offsetMs) != selectedDate.value
    {
      offsetMs := zoneOffsetMs;
      title := "";
      description := "";
      priority := Medium;
      showDatePicker := false;
      subtasks := [];
      newSubtaskTitle := "";
      if selectedDate.Some? && selectedDate.value != "" {
        var s := selectedDate.value;
        dueDate := NewDateFromIso(s);
        if ParseIso(s).Some? {
          if 0 <= zoneOffsetMs < DayMs {
            UtcMidnightEastward(s, zoneOffsetMs);
          } else if -DayMs < zoneOffsetMs < 0 {
            UtcMidnightWestward(s, zoneOffsetMs);
            assert FormatLocalIso(NewDateFromIso(s), zoneOffsetMs) == FormatIso(AddDays(ParseIso(s).value, -1));
            if 1 <= ParseIso(s).value.year {
              UtcMidnightShiftsDay(s, zoneOffsetMs);
            }
          }
        }
      } else {
        dueDate := Instant(now);
      }
    }

    /** `handleSaveTask`: a blank title is refused; otherwise the draft
        carries the fields, the due date formatted as `YYYY-MM-DD` in the
        local zone, and the current subtask list. The form does not change. */
    method Save() returns (r: SaveResult<TaskDraft>)
      ensures r == Refused(TitleMissing) <==> AllWhitespace(title)
      ensures r.Submitted? <==> !AllWhitespace(title)
      ensures r.Submitted? ==>
                r.payload == TaskDraft(title, description, FormatLocalIso(dueDate, offsetMs), priority, Some(subtasks))
    {
      TrimEmptyIffBlank(title);
      if Trim(title) == "" {
        return Refused(TitleMissing);
      }
      return Submitted(TaskDraft(title, description, FormatLocalIso(dueDate, offsetMs), priority, Some(subtasks)));
    }

    /** `addSubtask`: a blank entry raises an alert and changes nothing;
        otherwise one open subtask is appended and the entry is cleared. */
    method AddSubtask() returns (r: SaveResult<()>)
      modifies this
      ensures r == Refused(SubtaskTitleMissing) <==> AllWhitespace(old(newSubtaskTitle))
      ensures r.Submitted? <==> !AllWhitespace(old(newSubtaskTitle))
      ensures subtasks == AddSubtaskTo(old(subtasks), old(newSubtaskTitle))
      ensures newSubtaskTitle == if r.Submitted? then "" else old(newSubtaskTitle)
      ensures title == old(title) && description == old(description) && priority == old(priority)
      ensures dueDate == old(dueDate) && showDatePicker == old(showDatePicker)
    {
      var entry := newSubtaskTitle;
      TrimEmptyIffBlank(entry);
      if Trim(entry) == "" {
        return Refused(SubtaskTitleMissing);
      }
      var added := AddSubtaskTo(subtasks, entry);
      subtasks, newSubtaskTitle := added, "";
      return Submitted(());
    }

    /** `removeSubtask(index)`. */
    method RemoveSubtask(index: nat)
      modifies this
      ensures subtasks == RemoveAt(old(subtasks), index)
      ensures title == old(title) && description == old(description) && priority == old(priority)
      ensures dueDate == old(dueDate) && showDatePicker == old(showDatePicker)
      ensures newSubtaskTitle == old(newSubtaskTitle)
    {
      subtasks := RemoveAt(subtasks, index);
    }

    method SetTitle(text: string)
      modifies this
      ensures title == text
      ensures description == old(description) && priority == old(priority) && dueDate == old(dueDate)
      ensures showDatePicker == old(showDatePicker) && subtasks == old(subtasks)
      ensures newSubtaskTitle == old(newSubtaskTitle)
    {
      title := text;
    }

    method SetDescription(text: string)
      modifies this
      ensures description == text
      ensures title == old(title) && priority == old(priority) && dueDate == old(dueDate)
      ensures showDatePicker == old(showDatePicker) && subtasks == old(subtasks)
      ensures newSubtaskTitle == old(newSubtaskTitle)
    {
      description := text;
    }

    method SetPriority(p: Priority)
      modifies this
      ensures priority == p
      ensures title == old(title) && description == old(description) && dueDate == old(dueDate)
      ensures showDatePicker == old(showDatePicker) && subtasks == old(subtasks)
      ensures newSubtaskTitle == old(newSubtaskTitle)
    {
      priority := p;
    }

    method SetNewSubtaskTitle(text: string)
      modifies this
      ensures newSubtaskTitle == text
      ensures title == old(title) && description == old(description) && priority == old(priority)
      ensures dueDate == old(dueDate) && showDatePicker == old(showDatePicker) && subtasks == old(subtasks)
    {
      newSubtaskTitle := text;
    }

    method OpenDatePicker()
      modifies this
      ensures showDatePicker
      ensures title == old(title) && description == old(description) && priority == old(priority)
      ensures dueDate == old(dueDate) && subtasks == old(subtasks) && newSubtaskTitle == old(newSubtaskTitle)
    {
      showDatePicker := true;
    }

    /** The picker's confirm closes it and takes the picked instant. */
    method ConfirmDate(picked: int)
      modifies this
      ensures !showDatePicker && dueDate == Instant(picked)
      ensures title == old(title) && description == old(description) && priority == old(priority)
      ensures subtasks == old(subtasks) && newSubtaskTitle == old(newSubtaskTitle)
    {
      showDatePicker := false;
      dueDate := Instant(picked);
    }

    method CancelDate()
      modifies this
      ensures !showDatePicker
      ensures title == old(title) && description == old(description) && priority == old(priority)
      ensures dueDate == old(dueDate) && subtasks == old(subtasks) && newSubtaskTitle == old(newSubtaskTitle)
    {
      showDatePicker := false;
    }
  }

  /** The payload of `handleUpdateTask`: title, description, due date,
      priority and subtasks; no `id` and no `completed`. */
  function EditPatch(title: string, description: string, dueDate: string, priority: Priority,
                     subtasks: seq<SubTask>): (p: TaskPatch)
    ensures p.id.None? && p.completed.None?
    ensures p.title == Some(title) && p.description == Some(description) && p.dueDate == Some(dueDate)
    ensures p.priority == Some(priority) && p.subtasks == Some(subtasks)
  {
    TaskPatch(None, Some(title), Some(description), Some(dueDate), Some(priority), None, Some(subtasks))
  }

  /** Merging an edit payload into any task keeps that task's id and
      completed flag, and sets every other field from the payload. */
  lemma EditPatchKeepsIdentity(t: Task, title: string, description: string, dueDate: string,
                               priority: Priority, subtasks: seq<SubTask>)
    ensures var m := Merge(t, EditPatch(title, description, dueDate, priority, subtasks));
      m.id == t.id && m.completed == t.completed &&
      m == Task(t.id, title, description, dueDate, priority, t.completed, Some(subtasks))
  {
  }

  /** Opening the editor on a task and saving at once gives back the task,
      except that a missing subtask list becomes an empty one. */
  lemma EditUnchangedRoundTrip(t: Task, offsetMs: int)
    requires ParseIso(t.dueDate).Some?
    ensures var text := FormatLocalIso(NewLocalDateFromIso(t.dueDate, offsetMs), offsetMs);
      Merge(t, EditPatch(t.title, t.description, text, t.priority, t.subtasks.GetOr([]))) ==
      t.(subtasks := Some(t.subtasks.GetOr([])))
  {
    LocalMidnightRoundTrip(t.dueDate, offsetMs);
  }

  /** As written, opening the editor west of UTC and saving at once moves
      the task's due date back by a day. */
  lemma EditUnchangedShiftsDay(t: Task, offsetMs: int)
    requires ParseIso(t.dueDate).Some? && 1 <= ParseIso(t.dueDate).value.year
    requires -DayMs < offsetMs < 0
    ensures var text := FormatLocalIso(NewDateFromIso(t.dueDate), offsetMs);
      var m := Merge(t, EditPatch(t.title, t.description, text, t.priority, t.subtasks.GetOr([])));
      m.dueDate == FormatIso(AddDays(ParseIso(t.dueDate).value, -1)) && m.dueDate != t.dueDate
  {
    UtcMidnightShiftsDay(t.dueDate, offsetMs);
  }

  class EditTaskForm {
    const taskId: string
    var title: string
    var description: string
    var priority: Priority
    var dueDate: JsDate
    var showDatePicker: bool
    var subtasks: seq<SubTask>
    var newSubtaskTitle: string
    const offsetMs: int

    /** The first render from `route.params.task`; its `YYYY-MM-DD` due
        date is read by `new Date(task.dueDate)`, as midnight UTC (see
        `NewDateFromIso`). Formatted back in the local zone, it comes back
        unchanged on or east of UTC and as the day before west of it. */
    constructor(task: Task, zoneOffsetMs: int)
      ensures taskId == task.id && offsetMs == zoneOffsetMs
      ensures title == task.title && description == task.description && priority == task.priority
      ensures dueDate == NewDateFromIso(task.dueDate)
      ensures subtasks == task.subtasks.GetOr([]) && newSubtaskTitle == "" && !showDatePicker
      ensures ParseIso(task.dueDate).Some? && 0 <= zoneOffsetMs < DayMs ==>
                FormatLocalIso(dueDate, offsetMs) == task.dueDate
      ensures ParseIso(task.dueDate).Some? && -DayMs < zoneOffsetMs < 0 ==>
                FormatLocalIso(dueDate, offsetMs) == FormatIso(AddDays(ParseIso(task.dueDate).value, -1))
      ensures ParseIso(task.dueDate).Some? && 1 <= ParseIso(task.dueDate).value.year && -DayMs < zoneOffsetMs < 0 ==>
                FormatLocalIso(dueDate, offsetMs) != task.dueDate
    {
      taskId := task.id;
      offsetMs := zoneOffsetMs;
      title := task.title;
      description := task.description;
      priority := task.priority;
      dueDate := NewDateFromIso(task.dueDate);
      showDatePicker := false;
      subtasks := task.subtasks.GetOr([]);
      newSubtaskTitle := "";
      if ParseIso(task.dueDate).Some? {
        if 0 <= zoneOffsetMs < DayMs {
          UtcMidnightEastward(task.dueDate, zoneOffsetMs);
        } else if -DayMs < zoneOffsetMs < 0 {
          UtcMidnightWestward(task.dueDate, zoneOffsetMs);
          assert FormatLocalIso(NewDateFromIso(task.dueDate), zoneOffsetMs) == FormatIso(AddDays(ParseIso(task.dueDate).value, -1));
          if 1 <= ParseIso(task.dueDate).value.year {
            UtcMidnightShiftsDay(task.dueDate, zoneOffsetMs);
          }
        }
      }
    }

    /** `handleUpdateTask`: a blank title is refused; otherwise the task's
        id and the edit payload are handed to `onUpdateTask`. */
    method Save() returns (r: SaveResult<(string, TaskPatch)>)
      ensures r == Refused(TitleMissing) <==> AllWhitespace(title)
      ensures r.Submitted? <==> !AllWhitespace(title)
      ensures r.Submitted? ==>
                r.payload == (taskId, EditPatch(title, description, FormatLocalIso(dueDate, offsetMs), priority, subtasks))
    {
      TrimEmptyIffBlank(title);
      if Trim(title) == "" {
        return Refused(TitleMissing);
      }
      return Submitted((taskId, EditPatch(title, description, FormatLocalIso(dueDate, offsetMs), priority, subtasks)));
    }

    /** `addSubtask`, as in the add-task form. */
    method AddSubtask() returns (r: SaveResult<()>)
      modifies this
      ensures r == Refused(SubtaskTitleMissing) <==> AllWhitespace(old(newSubtaskTitle))
      ensures r.Submitted? <==> !AllWhitespace(old(newSubtaskTitle))
      ensures subtasks == AddSubtaskTo(old(subtasks), old(newSubtaskTitle))
      ensures newSubtaskTitle == if r.Submitted? then "" else old(newSubtaskTitle)
      ensures title == old(title) && description == old(description) && priority == old(priority)
      ensures dueDate == old(dueDate) && showDatePicker == old(showDatePicker)
    {
      var entry := newSubtaskTitle;
      TrimEmptyIffBlank(entry);
      if Trim(entry) == "" {
        return Refused(SubtaskTitleMissing);
      }
      var added := AddSubtaskTo(subtasks, entry);
      subtasks, newSubtaskTitle := added, "";
      return Submitted(());
    }

    /** `removeSubtask(index)`. */
    method RemoveSubtask(index: nat)
      modifies this
      ensures subtasks == RemoveAt(old(subtasks), index)
      ensures title == old(title) && description == old(description) && priority == old(priority)
      ensures dueDate == old(dueDate) && showDatePicker == old(showDatePicker)
      ensures newSubtaskTitle == old(newSubtaskTitle)
    {
      subtasks := RemoveAt(subtasks, index);
    }

    /** `toggleSubtaskComplete(index)`: flips subtask `index` only. */
    method ToggleSubtaskComplete(index: nat)
      modifies this
      ensures subtasks == FlipAt(old(subtasks), index)
      ensures title == old(title) && description == old(description) && priority == old(priority)
      ensures dueDate == old(dueDate) && showDatePicker == old(showDatePicker)
      ensures newSubtaskTitle == old(newSubtaskTitle)
    {
      subtasks := FlipAt(subtasks, index);
    }

    method SetTitle(text: string)
      modifies this
      ensures title == text
      ensures description == old(description) && priority == old(priority) && dueDate == old(dueDate)
      ensures showDatePicker == old(showDatePicker) && subtasks == old(subtasks)
      ensures newSubtaskTitle == old(newSubtaskTitle)
    {
      title := text;
    }

    method SetDescription(text: string)
      modifies this
      ensures description == text
      ensures title == old(title) && priority == old(priority) && dueDate == old(dueDate)
      ensures showDatePicker == old(showDatePicker) && subtasks == old(subtasks)
      ensures newSubtaskTitle == old(newSubtaskTitle)
    {
      description := text;
    }

    method SetPriority(p: Priority)
      modifies this
      ensures priority == p
      ensures title == old(title) && description == old(description) && dueDate == old(dueDate)
      ensures showDatePicker == old(showDatePicker) && subtasks == old(subtasks)
      ensures newSubtaskTitle == old(newSubtaskTitle)
    {
      priority := p;
    }

    method SetNewSubtaskTitle(text: string)
      modifies this
      ensures newSubtaskTitle == text
      ensures title == old(title) && description == old(description) && priority == old(priority)
      ensures dueDate == old(dueDate) && showDatePicker == old(showDatePicker) && subtasks == old(subtasks)
    {
      newSubtaskTitle := text;
    }

    method OpenDatePicker()
      modifies this
      ensures showDatePicker
      ensures title == old(title) && description == old(description) && priority == old(priority)
      ensures dueDate == old(dueDate) && subtasks == old(subtasks) && newSubtaskTitle == old(newSubtaskTitle)
    {
      showDatePicker := true;
    }

    method ConfirmDate(picked: int)
      modifies this
      ensures !showDatePicker && dueDate == Instant(picked)
      ensures title == old(title) && description == old(description) && priority == old(priority)
      ensures subtasks == old(subtasks) && newSubtaskTitle == old(newSubtaskTitle)
    {
      showDatePicker := false;
      dueDate := Instant(picked);
    }

    method CancelDate()
      modifies this
      ensures !showDatePicker
      ensures title == old(title) && description == old(description) && priority == old(priority)
      ensures dueDate == old(dueDate) && subtasks == old(subtasks) && newSubtaskTitle == old(newSubtaskTitle)
    {
      showDatePicker := false;
    }
  }
}
