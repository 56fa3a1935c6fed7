/** The searchable task list of src/screens/Main/Task.tsx: the full list,
    the list shown under the current search text, and the handlers that
    replace the list. */
module TaskList {
  import opened Wrappers
  import opened Seqs
  import opened Tasks

  /** The search effect: a non-empty text keeps the tasks whose lowercased
      title or description contains the lowercased text (untrimmed); an
      empty text shows the whole list. */
  function SearchTasks(tasks: seq<Task>, searchText: string): (r: seq<Task>)
    ensures searchText == [] ==> r == tasks
    ensures searchText != [] ==> forall t :: t in r <==> t in tasks && MatchesSearch(t, searchText)
    ensures forall t :: multiset(r)[t] == if searchText == [] || MatchesSearch(t, searchText) then multiset(tasks)[t] else 0
    ensures IsSubsequence(r, tasks)
  {
    var matching := (t: Task) => MatchesSearch(t, searchText);
    FilterMembershipAll(tasks, matching);
    FilterCounts(tasks, matching);
    FilterIsSubsequence(tasks, matching);
    SubsequenceReflexive(tasks);
    if searchText != [] then Filter(tasks, matching) else tasks
  }

  /** `{ ...newTask, id, completed: false }`: unlike the calendar board, the
      due date is taken as given. */
  function NewTask(draft: TaskDraft, id: string): (t: Task)
    ensures t.id == id && !t.completed && t.dueDate == draft.dueDate
    ensures t.title == draft.title && t.description == draft.description
    ensures t.priority == draft.priority && t.subtasks == draft.subtasks
  {
    Task(id, draft.title, draft.description, draft.dueDate, draft.priority, false, draft.subtasks)
  }

  /** The "n/m completed" line of a row with subtasks. */
  function SubtaskProgress(t: Task): (r: Option<(nat, nat)>)
    ensures r.Some? <==> t.subtasks.Some? && |t.subtasks.value| > 0
    ensures r.Some? ==> r.value.0 <= r.value.1 == |t.subtasks.value|
  {
    if t.subtasks.Some? && |t.subtasks.value| > 0
    then Some((CompletedCount(t.subtasks.value), |t.subtasks.value|))
    else None
  }

  /** A task whose subtasks are all complete shows a full count; one with an
      open subtask shows less than the total. */
  lemma {:induction false} CompletedCountFull(subs: seq<SubTask>)
    ensures CompletedCount(subs) == |subs| <==> forall k :: 0 <= k < |subs| ==> subs[k].completed
  {
    if subs != [] {
      CompletedCountFull(subs[1..]);
      assert forall k :: 1 <= k < |subs| ==> subs[k] == subs[1..][k - 1];
    }
  }

  class TaskScreen {
    var tasks: seq<Task>
    var filteredTasks: seq<Task>
    var searchText: string
    var showSearch: bool

    /** The screen once the list is loaded (`loaded` stands for the stored
        list or the sample tasks) and the search effect has run. */
    constructor(loaded: seq<Task>)
      ensures tasks == loaded && filteredTasks == loaded && searchText == "" && showSearch
    {
      tasks := loaded;
      filteredTasks := SearchTasks(loaded, "");
      searchText := "";
      showSearch := true;
    }

    /** The search effect, which follows a change of the list or the text. */
    method ApplySearch()
      modifies this
      ensures filteredTasks == SearchTasks(tasks, searchText)
      ensures tasks == old(tasks) && searchText == old(searchText) && showSearch == old(showSearch)
    {
      filteredTasks := SearchTasks(tasks, searchText);
    }

    method SetSearchText(text: string)
      modifies this
      ensures searchText == text
      ensures tasks == old(tasks) && filteredTasks == old(filteredTasks) && showSearch == old(showSearch)
    {
      searchText := text;
    }

    /** The header menu's "search" item shows or hides the search bar. */
    method ToggleSearch()
      modifies this
      ensures showSearch == !old(showSearch)
      ensures tasks == old(tasks) && filteredTasks == old(filteredTasks) && searchText == old(searchText)
    {
      showSearch := !showSearch;
    }

    /** `handleAddTask`. */
    method AddTask(draft: TaskDraft, id: string)
      modifies this
      ensures tasks == old(tasks) + [NewTask(draft, id)]
      ensures filteredTasks == old(filteredTasks) && searchText == old(searchText) && showSearch == old(showSearch)
    {
      tasks := tasks + [NewTask(draft, id)];
    }

    /** `handleCompleteTask`. */
    method CompleteTask(id: string)
      modifies this
      ensures tasks == SetCompletedById(old(tasks), id, true)
      ensures filteredTasks == old(filteredTasks) && searchText == old(searchText) && showSearch == old(showSearch)
    {
      tasks := SetCompletedById(tasks, id, true);
    }

    /** `handleUndoComplete`. */
    method UndoComplete(id: string)
      modifies this
      ensures tasks == SetCompletedById(old(tasks), id, false)
      ensures filteredTasks == old(filteredTasks) && searchText == old(searchText) && showSearch == old(showSearch)
    {
      tasks := SetCompletedById(tasks, id, false);
    }

    /** `handleDeleteTask` after the dialog; cancelling changes nothing. */
    method DeleteTask(id: string, confirmed: bool)
      modifies this
      ensures tasks == if confirmed then RemoveById(old(tasks), id) else old(tasks)
      ensures filteredTasks == old(filteredTasks) && searchText == old(searchText) && showSearch == old(showSearch)
    {
      if confirmed {
        tasks := RemoveById(tasks, id);
      }
    }

    /** `handleToggleSubtask`. */
    method ToggleSubtask(id: string, i: nat)
      modifies this
      ensures tasks == ToggleSubtaskById(old(tasks), id, i)
      ensures filteredTasks == old(filteredTasks) && searchText == old(searchText) && showSearch == old(showSearch)
    {
      tasks := ToggleSubtaskById(tasks, id, i);
    }
  }
}
