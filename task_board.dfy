/** The calendar task board of src/screens/Main/Task2.tsx: a task list shown
    for one selected day, a search box, calendar marks for every day that has
    a task, and a details modal for one selected task. */
module TaskBoard {
  import opened Wrappers
  import opened Seqs
  import opened Text
  import opened Tasks

  const CompletedDot := "#10b981"
  const PendingDot := "#ef4444"
  const SelectedColor := "#3b82f6"

  /** The dot colour a task gives its day. */
  function DotColor(t: Task): string {
    if t.completed then CompletedDot else PendingDot
  }

  /** The tasks listed for `date`: those due that day and, when the search
      text is non-empty, matching it. */
  function VisibleTasks(tasks: seq<Task>, date: string, search: string): (r: seq<Task>)
    ensures forall t :: t in r <==> t in tasks && t.dueDate == date && (search == [] || MatchesSearch(t, search))
    ensures IsSubsequence(r, tasks)
  {
    var onDate := (t: Task) => t.dueDate == date;
    var matching := (t: Task) => MatchesSearch(t, search);
    var both := (t: Task) => t.dueDate == date && MatchesSearch(t, search);
    FilterMembershipAll(tasks, onDate);
    FilterIsSubsequence(tasks, onDate);
    FilterMembershipAll(Filter(tasks, onDate), matching);
    FilterFilter(tasks, onDate, matching, both);
    FilterIsSubsequence(tasks, both);
    if search != [] then Filter(Filter(tasks, onDate), matching) else Filter(tasks, onDate)
  }

  /** The listing keeps every copy of a task due that day that matches the
      query, and no copy of any other task. */
  lemma VisibleTasksCounts(tasks: seq<Task>, date: string, search: string)
    ensures forall t :: multiset(VisibleTasks(tasks, date, search))[t] ==
              if t.dueDate == date && (search == [] || MatchesSearch(t, search)) then multiset(tasks)[t] else 0
  {
    var onDate := (t: Task) => t.dueDate == date;
    var matching := (t: Task) => MatchesSearch(t, search);
    var both := (t: Task) => t.dueDate == date && MatchesSearch(t, search);
    if search != [] {
      FilterFilter(tasks, onDate, matching, both);
      FilterCounts(tasks, both);
      assert VisibleTasks(tasks, date, search) == Filter(tasks, both);
    } else {
      FilterCounts(tasks, onDate);
      assert VisibleTasks(tasks, date, search) == Filter(tasks, onDate);
    }
  }

  /** An empty query lists every task of the day, whatever the rest of the list holds. */
  lemma EmptySearchListsDay(tasks: seq<Task>, date: string, t: Task)
    requires t in tasks && t.dueDate == date
    ensures t in VisibleTasks(tasks, date, "")
  {
  }

  /** One entry of the calendar's `markedDates` object: `dot` is present when
      the entry has `marked: true` and that `dotColor`; `highlight` when it
      has `selected: true` and that `selectedColor`. */
  datatype DateMark = DateMark(dot: Option<string>, highlight: Option<string>)

  /** The days that have at least one task. */
  ghost function DueDates(tasks: seq<Task>): set<string> {
    set k | 0 <= k < |tasks| :: tasks[k].dueDate
  }

  /** The dot colour of `date`, taken from the first task due that day. */
  function FirstDot(tasks: seq<Task>, date: string): Option<string> {
    if tasks == [] then None
    else if tasks[0].dueDate == date then Some(DotColor(tasks[0]))
    else FirstDot(tasks[1..], date)
  }

  /** A day's dot exists exactly when some task is due that day, and it is the
      colour of the earliest such task in the list. */
  lemma {:induction false} FirstDotMeaning(tasks: seq<Task>, date: string)
    ensures FirstDot(tasks, date).Some? <==> exists k :: 0 <= k < |tasks| && tasks[k].dueDate == date
    ensures FirstDot(tasks, date).Some? ==>
      exists k :: 0 <= k < |tasks| && tasks[k].dueDate == date && FirstDot(tasks, date).value == DotColor(tasks[k]) &&
                  forall j :: 0 <= j < k ==> tasks[j].dueDate != date
  {
    if tasks != [] && tasks[0].dueDate != date {
      FirstDotMeaning(tasks[1..], date);
      assert forall k :: 1 <= k < |tasks| ==> tasks[k] == tasks[1..][k - 1];
      if FirstDot(tasks, date).Some? {
        var k :| 0 <= k < |tasks| - 1 && tasks[1..][k].dueDate == date &&
                 FirstDot(tasks, date).value == DotColor(tasks[1..][k]) &&
                 forall j :: 0 <= j < k ==> tasks[1..][j].dueDate != date;
        assert tasks[k + 1].dueDate == date;
      }
    }
  }

  /** Scanning one more task changes a day's dot only if the day had none. */
  lemma {:induction false} FirstDotSnoc(tasks: seq<Task>, t: Task, date: string)
    ensures FirstDot(tasks + [t], date) ==
      if FirstDot(tasks, date).Some? then FirstDot(tasks, date)
      else if t.dueDate == date then Some(DotColor(t)) else None
  {
    if tasks != [] {
      assert (tasks + [t])[1..] == tasks[1..] + [t];
      FirstDotSnoc(tasks[1..], t, date);
    }
  }

  /** The marks computed from `tasks` with `selected` highlighted. */
  ghost function MarksFor(tasks: seq<Task>, selected: string): map<string, DateMark> {
    map d | d in DueDates(tasks) + {selected} ::
      DateMark(FirstDot(tasks, d), if d == selected then Some(SelectedColor) else None)
  }

  /** What the marks mean: a day is marked exactly when it has a task, with
      the colour of its first task, and only the selected day is highlighted. */
  lemma MarksMeaning(tasks: seq<Task>, selected: string, d: string)
    ensures d in MarksFor(tasks, selected) <==> d == selected || exists k :: 0 <= k < |tasks| && tasks[k].dueDate == d
    ensures d in MarksFor(tasks, selected) ==>
      (MarksFor(tasks, selected)[d].dot.Some? <==> exists k :: 0 <= k < |tasks| && tasks[k].dueDate == d) &&
      (MarksFor(tasks, selected)[d].highlight.Some? <==> d == selected)
    ensures selected in MarksFor(tasks, selected) && MarksFor(tasks, selected)[selected].highlight == Some(SelectedColor)
  {
    FirstDotMeaning(tasks, d);
    if exists k :: 0 <= k < |tasks| && tasks[k].dueDate == d {
      var k :| 0 <= k < |tasks| && tasks[k].dueDate == d;
      assert d in DueDates(tasks);
    }
  }

  /** The loop invariant of `BuildMarkedDates`: after scanning `seen`, a day
      has an entry exactly when one of those tasks is due that day, holding
      the colour of the first. */
  ghost predicate MarksSoFar(seen: seq<Task>, dates: map<string, DateMark>) {
    (forall d :: d in dates <==> FirstDot(seen, d).Some?) &&
    (forall d :: d in dates ==> dates[d] == DateMark(FirstDot(seen, d), None))
  }

  /** One step of the scan: a task marks its day only when the day is unmarked. */
  lemma MarksStep(seen: seq<Task>, t: Task, dates: map<string, DateMark>)
    requires MarksSoFar(seen, dates)
    ensures MarksSoFar(seen + [t], if t.dueDate in dates then dates else dates[t.dueDate := DateMark(Some(DotColor(t)), None)])
  {
    forall d | true
      ensures FirstDot(seen + [t], d) ==
        if FirstDot(seen, d).Some? then FirstDot(seen, d)
        else if t.dueDate == d then Some(DotColor(t)) else None
    {
      FirstDotSnoc(seen, t, d);
    }
  }

  lemma DueDatesFirstDot(tasks: seq<Task>, d: string)
    ensures d in DueDates(tasks) <==> FirstDot(tasks, d).Some?
  {
    FirstDotMeaning(tasks, d);
    if FirstDot(tasks, d).Some? {
      var k :| 0 <= k < |tasks| && tasks[k].dueDate == d;
      assert d in DueDates(tasks);
    }
  }

  /** Highlighting the selected day after the scan yields `MarksFor`. */
  lemma MarksFinish(tasks: seq<Task>, dates: map<string, DateMark>, selected: string)
    requires MarksSoFar(tasks, dates)
    ensures dates[selected := DateMark(if selected in dates then dates[selected].dot else None, Some(SelectedColor))]
            == MarksFor(tasks, selected)
  {
    forall d | true
      ensures d in DueDates(tasks) <==> FirstDot(tasks, d).Some?
    {
      DueDatesFirstDot(tasks, d);
    }
  }

  /** `updateMarkedDates`: one pass over the tasks, marking each day the
      first time a task for it is seen, then highlighting the selected day
      while keeping the mark it already had. */
  method BuildMarkedDates(tasks: seq<Task>, selected: string) returns (dates: map<string, DateMark>)
    ensures dates == MarksFor(tasks, selected)
  {
    dates := map[];
    var i := 0;
    while i < |tasks|
      invariant 0 <= i <= |tasks|
      invariant MarksSoFar(tasks[..i], dates)
    {
      MarksStep(tasks[..i], tasks[i], dates);
      assert tasks[..i + 1] == tasks[..i] + [tasks[i]];
      if tasks[i].dueDate !in dates {
        dates := dates[tasks[i].dueDate := DateMark(Some(DotColor(tasks[i])), None)];
      }
      i := i + 1;
    }
    assert tasks[..i] == tasks;
    MarksFinish(tasks, dates, selected);
    var previous := if selected in dates then dates[selected].dot else None;
    dates := dates[selected := DateMark(previous, Some(SelectedColor))];
  }

  /** `{ ...newTask, id, completed: false, dueDate: newTask.dueDate || selectedDate }`:
      an empty due date falls back to the selected day. */
  function NewTask(draft: TaskDraft, id: string, selectedDate: string): (t: Task)
    ensures t.id == id && !t.completed
    ensures t.dueDate == if draft.dueDate == "" then selectedDate else draft.dueDate
    ensures t.title == draft.title && t.description == draft.description
    ensures t.priority == draft.priority && t.subtasks == draft.subtasks
  {
    Task(id, draft.title, draft.description,
         if draft.dueDate != "" then draft.dueDate else selectedDate,
         draft.priority, false, draft.subtasks)
  }

  /** Whether a task is listed for `date` under `search`. */
  predicate Listed(t: Task, date: string, search: string) {
    t.dueDate == date && (search == [] || MatchesSearch(t, search))
  }

  /** Appending a task leaves the listing of the earlier tasks as it was and
      adds the new task at its end exactly when it is listed. */
  lemma VisibleAfterAppend(tasks: seq<Task>, t: Task, date: string, search: string)
    ensures VisibleTasks(tasks + [t], date, search) ==
            VisibleTasks(tasks, date, search) + (if Listed(t, date, search) then [t] else [])
  {
    var onDate := (x: Task) => x.dueDate == date;
    var matching := (x: Task) => MatchesSearch(x, search);
    FilterAppend(tasks, [t], onDate);
    assert Filter([t], onDate) == if t.dueDate == date then [t] else [];
    if search != [] {
      FilterAppend(Filter(tasks, onDate), Filter([t], onDate), matching);
    }
  }

  /** The edit action of the details modal and of a swiped row: a completed
      task is refused (the source shows an alert) and otherwise the task is
      handed to the edit screen. */
  function EditTarget(t: Task): (r: Option<Task>)
    ensures r.Some? <==> !t.completed
    ensures r.Some? ==> r.value == t
  {
    if t.completed then None else Some(t)
  }

  /** The list transform of `handleModalSubtaskToggle`: every task with the
      selected task's id takes the selected task's subtasks with `i` flipped. */
  function ModalToggleTasks(tasks: seq<Task>, selected: Task, i: nat): (r: seq<Task>)
    requires selected.subtasks.Some?
    ensures |r| == |tasks|
    ensures forall k :: 0 <= k < |tasks| && tasks[k].id == selected.id ==>
              r[k] == tasks[k].(subtasks := Some(FlipAt(selected.subtasks.value, i)))
    ensures forall k :: 0 <= k < |tasks| && tasks[k].id != selected.id ==> r[k] == tasks[k]
  {
    var flipped := FlipAt(selected.subtasks.value, i);
    MapWhereId(tasks, selected.id, (t: Task) => t.(subtasks := Some(flipped)))
  }

  /** While the list copy of the selected task is in step with it, the
      modal's toggle does the same as the list's `handleToggleSubtask`. */
  lemma ModalToggleAgrees(tasks: seq<Task>, selected: Task, i: nat)
    requires selected.subtasks.Some?
    requires forall k :: 0 <= k < |tasks| && tasks[k].id == selected.id ==> tasks[k] == selected
    ensures ModalToggleTasks(tasks, selected, i) == ToggleSubtaskById(tasks, selected.id, i)
  {
    var a := ModalToggleTasks(tasks, selected, i);
    var b := ToggleSubtaskById(tasks, selected.id, i);
    assert forall k :: 0 <= k < |tasks| ==> a[k] == b[k];
  }

  /** The state of the Task2 screen that its handlers update. */
  class Board {
    var tasks: seq<Task>
    var filteredTasks: seq<Task>
    var searchText: string
    var selectedDate: string
    var markedDates: map<string, DateMark>
    var showCalendar: bool
    var modalVisible: bool
    var selectedTask: Option<Task>

    /** The screen once the list is loaded (`loaded` stands for the stored
        list or the sample tasks) and the mount effects have run. */
    constructor(today: string, loaded: seq<Task>)
      ensures tasks == loaded && searchText == "" && selectedDate == today
      ensures filteredTasks == VisibleTasks(loaded, today, "")
      ensures markedDates == MarksFor(loaded, today)
      ensures !showCalendar && !modalVisible && selectedTask == None
    {
      var marks := BuildMarkedDates(loaded, today);
      tasks := loaded;
      searchText := "";
      selectedDate := today;
      filteredTasks := VisibleTasks(loaded, today, "");
      markedDates := marks;
      showCalendar := false;
      modalVisible := false;
      selectedTask := None;
    }

    /** `filterTasks`, the effect that follows a change of the list, the search
        text or the selected day. */
    method FilterTasks()
      modifies this
      ensures filteredTasks == VisibleTasks(tasks, selectedDate, searchText)
      ensures tasks == old(tasks) && searchText == old(searchText) && selectedDate == old(selectedDate)
      ensures markedDates == old(markedDates) && showCalendar == old(showCalendar)
      ensures modalVisible == old(modalVisible) && selectedTask == old(selectedTask)
    {
      filteredTasks := VisibleTasks(tasks, selectedDate, searchText);
    }

    /** `updateMarkedDates`, the effect that follows a change of the list. */
    method UpdateMarkedDates()
      modifies this
      ensures markedDates == MarksFor(tasks, selectedDate)
      ensures tasks == old(tasks) && searchText == old(searchText) && selectedDate == old(selectedDate)
      ensures filteredTasks == old(filteredTasks) && showCalendar == old(showCalendar)
      ensures modalVisible == old(modalVisible) && selectedTask == old(selectedTask)
    {
      markedDates := BuildMarkedDates(tasks, selectedDate);
    }

    method SetSearchText(text: string)
      modifies this
      ensures searchText == text
      ensures tasks == old(tasks) && selectedDate == old(selectedDate) && filteredTasks == old(filteredTasks)
      ensures markedDates == old(markedDates) && showCalendar == old(showCalendar)
      ensures modalVisible == old(modalVisible) && selectedTask == old(selectedTask)
    {
      searchText := text;
    }

    /** The header title and the calendar icon toggle the calendar. */
    method ToggleCalendar()
      modifies this
      ensures showCalendar == !old(showCalendar)
      ensures tasks == old(tasks) && searchText == old(searchText) && selectedDate == old(selectedDate)
      ensures filteredTasks == old(filteredTasks) && markedDates == old(markedDates)
      ensures modalVisible == old(modalVisible) && selectedTask == old(selectedTask)
    {
      showCalendar := !showCalendar;
    }

    /** `handleDateSelect`: the pressed day becomes the selected day and the
        calendar closes. */
    method SelectDate(dateString: string)
      modifies this
      ensures selectedDate == dateString && !showCalendar
      ensures tasks == old(tasks) && searchText == old(searchText) && filteredTasks == old(filteredTasks)
      ensures markedDates == old(markedDates)
      ensures modalVisible == old(modalVisible) && selectedTask == old(selectedTask)
    {
      selectedDate := dateString;
      showCalendar := false;
    }

    /** `handleAddTask`: one new task at the end of the list. */
    method AddTask(draft: TaskDraft, id: string)
      modifies this
      ensures tasks == old(tasks) + [NewTask(draft, id, old(selectedDate))]
      ensures searchText == old(searchText) && selectedDate == old(selectedDate)
      ensures filteredTasks == old(filteredTasks) && markedDates == old(markedDates) && showCalendar == old(showCalendar)
      ensures modalVisible == old(modalVisible) && selectedTask == old(selectedTask)
    {
      tasks := tasks + [NewTask(draft, id, selectedDate)];
    }

    /** `handleToggleComplete`. */
    method ToggleComplete(id: string)
      modifies this
      ensures tasks == ToggleCompleteById(old(tasks), id)
      ensures searchText == old(searchText) && selectedDate == old(selectedDate)
      ensures filteredTasks == old(filteredTasks) && markedDates == old(markedDates) && showCalendar == old(showCalendar)
      ensures modalVisible == old(modalVisible) && selectedTask == old(selectedTask)
    {
      tasks := ToggleCompleteById(tasks, id);
    }

    /** `handleToggleSubtask`: the list task is flipped, and so is the selected
        task when it is the same task and has subtasks. */
    method ToggleSubtask(id: string, i: nat)
      modifies this
      ensures tasks == ToggleSubtaskById(old(tasks), id, i)
      ensures selectedTask ==
        if old(selectedTask).Some? && old(selectedTask).value.id == id && old(selectedTask).value.subtasks.Some?
        then Some(WithSubtaskFlipped(old(selectedTask).value, i))
        else old(selectedTask)
      ensures searchText == old(searchText) && selectedDate == old(selectedDate)
      ensures filteredTasks == old(filteredTasks) && markedDates == old(markedDates) && showCalendar == old(showCalendar)
      ensures modalVisible == old(modalVisible)
    {
      tasks := ToggleSubtaskById(tasks, id, i);
      if selectedTask.Some? && selectedTask.value.id == id && selectedTask.value.subtasks.Some? {
        selectedTask := Some(WithSubtaskFlipped(selectedTask.value, i));
      }
    }

    /** `handleDeleteTask` after the user confirmed the dialog; cancelling
        (`confirmed` false) changes nothing. */
    method DeleteTask(id: string, confirmed: bool)
      modifies this
      ensures tasks == if confirmed then RemoveById(old(tasks), id) else old(tasks)
      ensures confirmed && old(selectedTask).Some? && old(selectedTask).value.id == id ==>
                selectedTask == None && !modalVisible
      ensures !(confirmed && old(selectedTask).Some? && old(selectedTask).value.id == id) ==>
                selectedTask == old(selectedTask) && modalVisible == old(modalVisible)
      ensures searchText == old(searchText) && selectedDate == old(selectedDate)
      ensures filteredTasks == old(filteredTasks) && markedDates == old(markedDates) && showCalendar == old(showCalendar)
    {
      if confirmed {
        tasks := RemoveById(tasks, id);
        if selectedTask.Some? && selectedTask.value.id == id {
          modalVisible := false;
          selectedTask := None;
        }
      }
    }

    /** `handleUpdateTask`: the patch is merged into the matching task and
        into the selected task when it is that task; the modal closes. */
    method UpdateTask(id: string, patch: TaskPatch)
      modifies this
      ensures tasks == UpdateById(old(tasks), id, patch)
      ensures selectedTask ==
        if old(selectedTask).Some? && old(selectedTask).value.id == id
        then Some(Merge(old(selectedTask).value, patch))
        else old(selectedTask)
      ensures !modalVisible
      ensures searchText == old(searchText) && selectedDate == old(selectedDate)
      ensures filteredTasks == old(filteredTasks) && markedDates == old(markedDates) && showCalendar == old(showCalendar)
    {
      tasks := UpdateById(tasks, id, patch);
      if selectedTask.Some? && selectedTask.value.id == id {
        selectedTask := Some(Merge(selectedTask.value, patch));
      }
      modalVisible := false;
    }

    /** Pressing a row opens the details modal on that task. */
    method OpenTask(t: Task)
      modifies this
      ensures selectedTask == Some(t) && modalVisible
      ensures tasks == old(tasks) && searchText == old(searchText) && selectedDate == old(selectedDate)
      ensures filteredTasks == old(filteredTasks) && markedDates == old(markedDates) && showCalendar == old(showCalendar)
    {
      selectedTask := Some(t);
      modalVisible := true;
    }

    /** `resetAndCloseModal`. */
    method CloseModal()
      modifies this
      ensures selectedTask == None && !modalVisible
      ensures tasks == old(tasks) && searchText == old(searchText) && selectedDate == old(selectedDate)
      ensures filteredTasks == old(filteredTasks) && markedDates == old(markedDates) && showCalendar == old(showCalendar)
    {
      selectedTask := None;
      modalVisible := false;
    }

    /** `handleModalSubtaskToggle`: flips subtask `i` of the selected task and
        writes that subtask list into the list task with the same id. */
    method ModalSubtaskToggle(i: nat)
      modifies this
      ensures old(selectedTask).Some? && old(selectedTask).value.subtasks.Some? ==>
        tasks == ModalToggleTasks(old(tasks), old(selectedTask).value, i) &&
        selectedTask == Some(WithSubtaskFlipped(old(selectedTask).value, i))
      ensures !(old(selectedTask).Some? && old(selectedTask).value.subtasks.Some?) ==>
        tasks == old(tasks) && selectedTask == old(selectedTask)
      ensures searchText == old(searchText) && selectedDate == old(selectedDate) && modalVisible == old(modalVisible)
      ensures filteredTasks == old(filteredTasks) && markedDates == old(markedDates) && showCalendar == old(showCalendar)
    {
      if selectedTask.Some? && selectedTask.value.subtasks.Some? {
        var current := selectedTask.value;
        tasks := ModalToggleTasks(tasks, current, i);
        selectedTask := Some(WithSubtaskFlipped(current, i));
      }
    }

    /** `handleEditTask`: a completed selected task stays put; any other is
        handed to the edit screen (`target`) and the modal closes. */
    method RequestEdit() returns (target: Option<Task>)
      modifies this
      ensures target == if old(selectedTask).Some? then EditTarget(old(selectedTask).value) else None
      ensures target.Some? ==> selectedTask == None && !modalVisible
      ensures target.None? ==> selectedTask == old(selectedTask) && modalVisible == old(modalVisible)
      ensures tasks == old(tasks) && searchText == old(searchText) && selectedDate == old(selectedDate)
      ensures filteredTasks == old(filteredTasks) && markedDates == old(markedDates) && showCalendar == old(showCalendar)
    {
      target := None;
      if selectedTask.Some? {
        target := EditTarget(selectedTask.value);
        if target.Some? {
          modalVisible := false;
          selectedTask := None;
        }
      }
    }
  }
}
