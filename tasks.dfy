/** Task records and the list transforms that the two task screens
    (src/screens/Main/Task.tsx and src/screens/Main/Task2.tsx) share: each
    is a `map` or `filter` over the task list keyed by the task's `id`. */
module Tasks {
  import opened Wrappers
  import opened Seqs
  import opened Text

  datatype Priority = High | Medium | Low

  datatype SubTask = SubTask(title: string, completed: bool)

  /** A task; `subtasks` is an optional property (`None` = absent). */
  datatype Task = Task(
    id: string,
    title: string,
    description: string,
    dueDate: string,
    priority: Priority,
    completed: bool,
    subtasks: Option<seq<SubTask>>)

  /** `Omit<Task, 'id' | 'completed'>`: what the add-task form hands back. */
  datatype TaskDraft = TaskDraft(
    title: string,
    description: string,
    dueDate: string,
    priority: Priority,
    subtasks: Option<seq<SubTask>>)

  /** `Partial<Task>`: each present field overwrites the task's. */
  datatype TaskPatch = TaskPatch(
    id: Option<string>,
    title: Option<string>,
    description: Option<string>,
    dueDate: Option<string>,
    priority: Option<Priority>,
    completed: Option<bool>,
    subtasks: Option<seq<SubTask>>)

  const EmptyPatch := TaskPatch(None, None, None, None, None, None, None)

  /** `{ ...task, ...patch }`. */
  function Merge(t: Task, p: TaskPatch): (r: Task)
    ensures r.id == p.id.GetOr(t.id) && r.title == p.title.GetOr(t.title)
    ensures r.description == p.description.GetOr(t.description)
    ensures r.dueDate == p.dueDate.GetOr(t.dueDate) && r.priority == p.priority.GetOr(t.priority)
    ensures r.completed == p.completed.GetOr(t.completed)
    ensures r.subtasks == if p.subtasks.Some? then p.subtasks else t.subtasks
  {
    Task(p.id.GetOr(t.id), p.title.GetOr(t.title), p.description.GetOr(t.description),
         p.dueDate.GetOr(t.dueDate), p.priority.GetOr(t.priority), p.completed.GetOr(t.completed),
         if p.subtasks.Some? then p.subtasks else t.subtasks)
  }

  /** Merging an empty patch changes nothing; merging a patch twice is merging it once. */
  lemma MergeLaws(t: Task, p: TaskPatch)
    ensures Merge(t, EmptyPatch) == t
    ensures Merge(Merge(t, p), p) == Merge(t, p)
  {
  }

  /** `tasks.map(task => task.id === id ? f(task) : task)`. */
  function MapWhereId(tasks: seq<Task>, id: string, f: Task -> Task): (r: seq<Task>)
    ensures |r| == |tasks|
    ensures forall i :: 0 <= i < |tasks| ==> r[i] == if tasks[i].id == id then f(tasks[i]) else tasks[i]
  {
    if tasks == [] then []
    else [if tasks[0].id == id then f(tasks[0]) else tasks[0]] + MapWhereId(tasks[1..], id, f)
  }

  /** The list transform of `handleUpdateTask`: the patch is merged into
      every task with the id. */
  function UpdateById(tasks: seq<Task>, id: string, patch: TaskPatch): (r: seq<Task>)
    ensures |r| == |tasks|
    ensures forall k :: 0 <= k < |tasks| && tasks[k].id == id ==> r[k] == Merge(tasks[k], patch)
    ensures forall k :: 0 <= k < |tasks| && tasks[k].id != id ==> r[k] == tasks[k]
  {
    MapWhereId(tasks, id, (t: Task) => Merge(t, patch))
  }

  /** `{ ...task, completed: !task.completed }`. */
  function Toggled(t: Task): Task {
    t.(completed := !t.completed)
  }

  /** The list transform of Task2's `handleToggleComplete`. */
  function ToggleCompleteById(tasks: seq<Task>, id: string): (r: seq<Task>)
    ensures |r| == |tasks|
    ensures forall i :: 0 <= i < |tasks| && tasks[i].id == id ==>
              r[i].completed == !tasks[i].completed && r[i].(completed := tasks[i].completed) == tasks[i]
    ensures forall i :: 0 <= i < |tasks| && tasks[i].id != id ==> r[i] == tasks[i]
  {
    MapWhereId(tasks, id, Toggled)
  }

  /** Toggling the same task twice restores the list. */
  lemma ToggleCompleteTwice(tasks: seq<Task>, id: string)
    ensures ToggleCompleteById(ToggleCompleteById(tasks, id), id) == tasks
  {
    var once := ToggleCompleteById(tasks, id);
    var twice := ToggleCompleteById(once, id);
    assert forall i :: 0 <= i < |tasks| ==> once[i].id == tasks[i].id;
    assert forall i :: 0 <= i < |tasks| ==> twice[i] == tasks[i];
  }

  /** The list transform of Task.tsx's `handleCompleteTask` (`done` = true)
      and `handleUndoComplete` (`done` = false). */
  function SetCompletedById(tasks: seq<Task>, id: string, done: bool): (r: seq<Task>)
    ensures |r| == |tasks|
    ensures forall i :: 0 <= i < |tasks| && tasks[i].id == id ==> r[i] == tasks[i].(completed := done)
    ensures forall i :: 0 <= i < |tasks| && tasks[i].id != id ==> r[i] == tasks[i]
  {
    MapWhereId(tasks, id, (t: Task) => t.(completed := done))
  }

  /** Completing is idempotent, and undoing after completing leaves the task
      incomplete and every other task as it was. */
  lemma CompleteThenUndo(tasks: seq<Task>, id: string)
    ensures SetCompletedById(SetCompletedById(tasks, id, true), id, true) == SetCompletedById(tasks, id, true)
    ensures SetCompletedById(SetCompletedById(tasks, id, true), id, false) == SetCompletedById(tasks, id, false)
  {
    var done := SetCompletedById(tasks, id, true);
    assert forall i :: 0 <= i < |tasks| ==> done[i].id == tasks[i].id;
    var again := SetCompletedById(done, id, true);
    assert forall i :: 0 <= i < |tasks| ==> again[i] == done[i];
    var undone := SetCompletedById(done, id, false);
    var direct := SetCompletedById(tasks, id, false);
    assert forall i :: 0 <= i < |tasks| ==> undone[i] == direct[i];
  }

  /** `{ ...subtasks[i], completed: !subtasks[i].completed }` written into a
      copy at index `i`; an index outside the list changes nothing. */
  function FlipAt(subs: seq<SubTask>, i: nat): (r: seq<SubTask>)
    ensures |r| == |subs|
    ensures forall j :: 0 <= j < |subs| && j != i ==> r[j] == subs[j]
    ensures i < |subs| ==> r[i].title == subs[i].title && r[i].completed == !subs[i].completed
  {
    if i < |subs| then subs[i := subs[i].(completed := !subs[i].completed)] else subs
  }

  lemma FlipAtTwice(subs: seq<SubTask>, i: nat)
    ensures FlipAt(FlipAt(subs, i), i) == subs
  {
  }

  /** A matching task with subtasks gets subtask `i` flipped; a task without
      a subtasks property is returned as it is. */
  function WithSubtaskFlipped(t: Task, i: nat): Task {
    if t.subtasks.Some? then t.(subtasks := Some(FlipAt(t.subtasks.value, i))) else t
  }

  /** The list transform of `handleToggleSubtask` (both task screens). */
  function ToggleSubtaskById(tasks: seq<Task>, id: string, i: nat): (r: seq<Task>)
    ensures |r| == |tasks|
    ensures forall k :: 0 <= k < |tasks| && tasks[k].id == id && tasks[k].subtasks.Some? ==>
              r[k].subtasks.Some? && r[k].subtasks.value == FlipAt(tasks[k].subtasks.value, i) &&
              r[k].(subtasks := tasks[k].subtasks) == tasks[k]
    ensures forall k :: 0 <= k < |tasks| && (tasks[k].id != id || tasks[k].subtasks.None?) ==> r[k] == tasks[k]
  {
    MapWhereId(tasks, id, (t: Task) => WithSubtaskFlipped(t, i))
  }

  lemma ToggleSubtaskTwice(tasks: seq<Task>, id: string, i: nat)
    ensures ToggleSubtaskById(ToggleSubtaskById(tasks, id, i), id, i) == tasks
  {
    var once := ToggleSubtaskById(tasks, id, i);
    var twice := ToggleSubtaskById(once, id, i);
    forall k | 0 <= k < |tasks|
      ensures twice[k] == tasks[k]
    {
      if tasks[k].id == id && tasks[k].subtasks.Some? {
        FlipAtTwice(tasks[k].subtasks.value, i);
      }
    }
  }

  /** `tasks.filter(task => task.id !== id)`. */
  function RemoveById(tasks: seq<Task>, id: string): (r: seq<Task>)
    ensures forall t :: t in r <==> t in tasks && t.id != id
    ensures IsSubsequence(r, tasks)
    ensures (forall k :: 0 <= k < |tasks| ==> tasks[k].id != id) ==> r == tasks
  {
    if tasks == [] then []
    else if tasks[0].id == id then RemoveById(tasks[1..], id)
    else [tasks[0]] + RemoveById(tasks[1..], id)
  }


  /** The delete keeps every copy of a task with another id and no copy of
      a task with that id. */
  lemma {:induction false} RemoveByIdCounts(tasks: seq<Task>, id: string)
    ensures forall t :: multiset(RemoveById(tasks, id))[t] == if t.id != id then multiset(tasks)[t] else 0
  {
    if tasks != [] {
      RemoveByIdCounts(tasks[1..], id);
      assert tasks == [tasks[0]] + tasks[1..];
      assert multiset(tasks) == multiset{tasks[0]} + multiset(tasks[1..]);
      if tasks[0].id != id {
        assert multiset(RemoveById(tasks, id)) == multiset{tasks[0]} + multiset(RemoveById(tasks[1..], id));
      }
    }
  }

  /** `subtasks.filter(st => st.completed).length`. */
  function CompletedCount(subs: seq<SubTask>): (n: nat)
    ensures n <= |subs|
  {
    if subs == [] then 0
    else (if subs[0].completed then 1 else 0) + CompletedCount(subs[1..])
  }

  /** Flipping one subtask moves the completed count by exactly one. */
  lemma {:induction false} CompletedCountFlip(subs: seq<SubTask>, i: nat)
    requires i < |subs|
    ensures CompletedCount(FlipAt(subs, i)) ==
      if subs[i].completed then CompletedCount(subs) - 1 else CompletedCount(subs) + 1
  {
    if i > 0 {
      CompletedCountFlip(subs[1..], i - 1);
      assert FlipAt(subs, i)[1..] == FlipAt(subs[1..], i - 1);
    } else {
      assert FlipAt(subs, i)[1..] == subs[1..];
    }
  }

  /** The case-insensitive search test of both task screens: the lowercased
      query occurs in the lowercased title or description. */
  predicate MatchesSearch(t: Task, query: string) {
    Contains(Lower(t.title), Lower(query)) || Contains(Lower(t.description), Lower(query))
  }
}
