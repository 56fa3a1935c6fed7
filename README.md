# taskly in Dafny

A model of the in-memory logic of taskly, a React Native to-do and
day-planner app. The model covers:

- the calendar task board (`Task2.tsx`): its day filter and search, and the
  calendar marks;
- the older searchable task list (`Task.tsx`);
- the schedule planner (`Schedule.tsx`): its month grid, the strip of 31 days,
  month navigation and search;
- the three forms (`AddTask.tsx`, `EditTask.tsx`, `AddSchedule.tsx`);
- the `user` slice of the Redux store;
- the two schedule-row components;
- the start-up theme choice in `App.tsx`.

Each screen is a `class` whose fields are the screen's `useState` variables.
Its methods are the handlers, and each states the whole new state. The list
transforms the handlers apply (`map`, `filter` and `splice` on the task
list and on subtask lists) are functions. Lemmas about those functions
prove:

- toggling twice is the identity;
- completing and then undoing gives the list back;
- only the matching record changes;
- filters keep the original order.

Dates come in three forms:

- calendar dates are `(year, month, day)` triples on the proleptic
  Gregorian calendar (`Dates`);
- moments on the schedule screen are milliseconds on the local time line;
- the JavaScript `Date` values of the task forms are UTC milliseconds, read
  in a time zone given as a parameter (`IsoDate`).

Tasks carry a single `dueDate`, and a task belongs to a day exactly when its
due date string equals that day's `YYYY-MM-DD` string
(src/screens/Main/Task2.tsx:18-26, 197-201).

Effects (`useEffect`) are explicit method calls on the screen classes, for
example `Board.FilterTasks` and `ScheduleScreen.ApplySearch`. An alert the
source shows becomes a returned value (`SaveResult.Refused`,
`SaveOutcome.Rejected`), or a `confirmed` parameter for a confirmation
dialog. The clock, the device time zone, and generated ids are parameters.

Modules, one per file: `Wrappers`, `Seqs`, `Text`, `Dates`, `IsoDate`,
`Tasks`, `TaskBoard`, `TaskList`, `Schedule`, `ScheduleCards`,
`ScheduleForm`, `TaskForms`, `UserSlice`, `Theme`.

## Model

| member | source | states |
|---|---|---|
| Text.Lower | src/screens/Main/Task2.tsx:204-208 | `toLowerCase` keeps the length and folds each character on its own (ASCII letters only) |
| Text.ContainsAt | src/screens/Main/Task2.tsx:206-207 | `includes` holds exactly when the needle occurs at some position of the haystack |
| Text.TrimEmptyIffBlank | src/screens/Main/AddTask.tsx:44 | `!s.trim()` holds exactly when every character is JavaScript whitespace (so also for the empty string) |
| Text.TrimIdempotent | src/screens/Main/AddTask.tsx:44 | trimming a trimmed string changes nothing |
| Seqs.RemoveAt | src/screens/Main/AddTask.tsx:71-75 | `splice(i, 1)` on a copy: one shorter, the elements before `i` in place, those after `i` shifted down by one, the same multiset less `s[i]`; an index past the end leaves the list as it was |
| Seqs.FilterMembership | src/screens/Main/Task2.tsx:200 | an element is in a filter result exactly when it is in the input and satisfies the predicate |
| Seqs.FilterCounts | src/screens/Main/Task2.tsx:200 | a filter result holds every copy of an element that satisfies the predicate and no copy of one that does not |
| Seqs.FilterIsSubsequence | src/screens/Main/Task2.tsx:200 | a filter result keeps the input's order |
| Dates.DaysInMonth | src/screens/Main/Schedule.tsx:126 | `daysInMonth` lies in 28..31; it is 29 exactly for February of a Gregorian leap year and 28 exactly for February of a common year |
| Dates.FromDayNumber | src/screens/Main/Schedule.tsx:54 | every day number names a valid date with that day number |
| Dates.DateRoundTrip | src/screens/Main/Schedule.tsx:54 | converting a valid date to its day number and back gives the same date |
| Dates.DayNumberInjective | src/screens/Main/Schedule.tsx:54 | two valid dates have the same day number exactly when they are equal |
| Dates.NextDay | src/screens/Main/Schedule.tsx:54 | the next calendar day is valid and has the next day number |
| Dates.AddDaysAdds | src/screens/Main/Schedule.tsx:54 | adding `a` days and then `b` days is adding `a + b` days; adding 0 days changes nothing |
| Dates.Weekday | src/screens/Main/Schedule.tsx:127 | `day()` gives 0 (Sunday) to 6 |
| Dates.WeekdayByDayNumber | src/screens/Main/Schedule.tsx:127 | Sakamoto's weekday equals the weekday counted from 1970-01-01, a Thursday |
| Dates.AddMonths | src/screens/Main/Schedule.tsx:174-176 | `add(n, 'months')` moves `year * 12 + month` by exactly `n` and clamps the day to the length of the new month |
| Dates.AddMonthsRoundTrip | src/screens/Main/Schedule.tsx:174-176 | `n` months forward and then `n` back returns to the same year and month, and to the same date when no clamping happened |
| Dates.DateOfDayNumber | src/screens/Main/Schedule.tsx:102 | the local date of an instant is the date whose day number is the instant's whole days since the epoch |
| Dates.SameDateIffSameDay | src/screens/Main/Schedule.tsx:102-103 | two instants have the same local date exactly when they fall in the same day |
| Dates.WithDayOfMonthDate | src/screens/Main/Schedule.tsx:139 | `date(i)` keeps the time of day and, for a day that exists, lands on day `i` of the same month |
| Dates.AddDaysAt | src/screens/Main/Schedule.tsx:54 | `add(n, 'days')` on an instant keeps the time of day and moves the day by `n` |
| Dates.AddMonthsAt | src/screens/Main/Schedule.tsx:175 | `add(n, 'months')` on an instant keeps the time of day and moves the date as `AddMonths` does |
| IsoDate.FormatIso | src/screens/Main/AddTask.tsx:52 | for a four-digit year, `format('YYYY-MM-DD')` is ten characters with dashes at positions 4 and 7 |
| IsoDate.ParseIso | src/screens/Main/AddTask.tsx:38 | a date-only string that is read names a valid calendar date |
| IsoDate.ParseFormat | src/screens/Main/AddTask.tsx:52 | reading a formatted four-digit-year date gives the date back |
| IsoDate.FormatParse | src/screens/Main/AddTask.tsx:52 | formatting a date that was read gives back the string that was read |
| IsoDate.FormatInjective | src/screens/Main/Schedule.tsx:102 | for four-digit years two dates have the same `YYYY-MM-DD` text exactly when they are equal |
| IsoDate.NewDateFromIso | src/screens/Main/AddTask.tsx:38 | for a well-formed `YYYY-MM-DD` string that names a valid date, `new Date(..)` is a valid `Date` (midnight UTC of that day); every other string is modelled as Invalid Date |
| IsoDate.LocalDate | src/screens/Main/AddTask.tsx:52 | a valid `Date` shows a valid local date, and an invalid one shows none |
| IsoDate.MidnightSeenFrom | src/screens/Main/AddTask.tsx:38-52 | midnight UTC of a day, seen from a zone less than a day from UTC, falls on that day on or east of UTC and on the day before west of it |
| IsoDate.UtcMidnightWestward | src/screens/Main/AddTask.tsx:38 | west of UTC, a date string read by `new Date` shows the day before in local time |
| IsoDate.UtcMidnightShiftsDay | src/screens/Main/EditTask.tsx:42-56 | west of UTC, formatting the `Date` read from a date string gives the previous day's text, never the string that was read |
| IsoDate.PreviousDayText | src/screens/Main/EditTask.tsx:56 | the day before a date is followed by that date, and its text differs from the date's text |
| IsoDate.UtcMidnightEastward | src/screens/Main/AddTask.tsx:38-52 | on or east of UTC the same reading keeps the day, so the string comes back unchanged |
| IsoDate.NewLocalDateFromIso | src/screens/Main/AddTask.tsx:38 | the corrected reading as local midnight is Invalid Date exactly when the text names no date |
| IsoDate.LocalMidnightRoundTrip | src/screens/Main/AddTask.tsx:38-52 | read as local midnight, a date string formats back to itself in every time zone |
| Tasks.Merge | src/screens/Main/Task2.tsx:340-342 | `{ ...task, ...patch }`: each field comes from the patch when the patch has it, otherwise from the task |
| Tasks.MergeLaws | src/screens/Main/Task2.tsx:340-342 | an empty patch changes nothing; merging the same patch twice is merging it once |
| Tasks.MapWhereId | src/screens/Main/Task2.tsx:263-265 | the list keeps its length; a task with the id is replaced by `f` of it, any other stays as it was |
| Tasks.UpdateById | src/screens/Main/Task2.tsx:340-342 | a task with the id gets the patch merged in, and any other task stays as it was |
| Tasks.ToggleCompleteById | src/screens/Main/Task2.tsx:262-265 | a task with the id has `completed` negated and every other field kept; every other task stays as it was |
| Tasks.ToggleCompleteTwice | src/screens/Main/Task2.tsx:262-265 | toggling the same task twice gives the list back |
| Tasks.SetCompletedById | src/screens/Main/Task.tsx:164-167 | a task with the id gets `completed` set to the given value and every other field kept; every other task stays as it was |
| Tasks.CompleteThenUndo | src/screens/Main/Task.tsx:194-197 | completing is idempotent; completing and then undoing equals just undoing, so that task is left incomplete and the others untouched |
| Tasks.FlipAt | src/screens/Main/EditTask.tsx:81-87 | the copy keeps its length and every subtask but `i`; subtask `i` keeps its title and has `completed` negated |
| Tasks.FlipAtTwice | src/screens/Main/EditTask.tsx:81-87 | flipping the same subtask twice gives the list back |
| Tasks.ToggleSubtaskById | src/screens/Main/Task.tsx:231-246 | a task with the id and with subtasks has exactly its subtask `i` flipped; all other tasks and fields stay as they were |
| Tasks.ToggleSubtaskTwice | src/screens/Main/Task2.tsx:270-284 | toggling the same subtask twice gives the list back |
| Tasks.RemoveById | src/screens/Main/Task.tsx:222 | the result holds exactly the tasks with another id, in their original order; without a match the list is unchanged |
| Tasks.RemoveByIdCounts | src/screens/Main/Task.tsx:222 | the delete keeps every copy of a task with another id and no copy of a task with that id |
| Tasks.CompletedCount | src/screens/Main/Task.tsx:310 | the completed count never exceeds the number of subtasks |
| Tasks.CompletedCountFlip | src/screens/Main/Task.tsx:231-246 | flipping one subtask moves the completed count by exactly one, down if it was completed and up otherwise |
| TaskBoard.VisibleTasks | src/screens/Main/Task2.tsx:197-210 | a task is listed exactly when it is due on the selected day and, for a non-empty search text, its title or description contains the text case-insensitively; the listing keeps the list's order |
| TaskBoard.VisibleTasksCounts | src/screens/Main/Task2.tsx:197-210 | the listing holds every copy of a task due that day that matches the search, and no copy of any other task |
| TaskBoard.EmptySearchListsDay | src/screens/Main/Task2.tsx:204-209 | with an empty search text every task due that day is listed |
| TaskBoard.FirstDotMeaning | src/screens/Main/Task2.tsx:216-223 | a day has a dot exactly when some task is due that day, and its colour comes from the first such task in the list |
| TaskBoard.MarksMeaning | src/screens/Main/Task2.tsx:212-235 | the marked days are the task due dates plus the selected day; a day has a dot exactly when it has a task; only the selected day is highlighted, in `#3b82f6` |
| TaskBoard.BuildMarkedDates | src/screens/Main/Task2.tsx:212-235 | the one-pass scan of `updateMarkedDates`, followed by highlighting the selected day, yields exactly those marks |
| TaskBoard.NewTask | src/screens/Main/Task2.tsx:251-257 | the new task has the given id, is not completed, copies the draft's fields, and is due on the draft's date or, when that is empty, on the selected day |
| TaskBoard.VisibleAfterAppend | src/screens/Main/Task2.tsx:251-257 | after an append, the listing is the old listing plus the new task when the new task is listed |
| TaskBoard.EditTarget | src/screens/Main/Task2.tsx:505-512 | editing is refused exactly for a completed task; any other task is handed on unchanged |
| TaskBoard.ModalToggleTasks | src/screens/Main/Task2.tsx:525-545 | every task with the selected task's id takes the selected task's subtasks with `i` flipped; the others stay as they were |
| TaskBoard.ModalToggleAgrees | src/screens/Main/Task2.tsx:525-558 | while the list copy equals the selected task, the modal's toggle gives the same list as `handleToggleSubtask` |
| TaskBoard.Board.constructor | src/screens/Main/Task2.tsx:94-104 | the loaded list, an empty search, today selected, and filter and marks as the mount effects compute them; calendar and modal closed, with no selection |
| TaskBoard.Board.FilterTasks | src/screens/Main/Task2.tsx:163-166 | the shown list becomes `VisibleTasks` of the current state, and nothing else changes |
| TaskBoard.Board.UpdateMarkedDates | src/screens/Main/Task2.tsx:168-170 | the marks become `MarksFor` of the current list and selected day, and nothing else changes |
| TaskBoard.Board.SetSearchText | src/screens/Main/Task2.tsx:728 | only the search text changes |
| TaskBoard.Board.ToggleCalendar | src/screens/Main/Task2.tsx:732 | only the calendar flag changes, to its negation |
| TaskBoard.Board.SelectDate | src/screens/Main/Task2.tsx:358-361 | the pressed day is selected, the calendar closes, and nothing else changes |
| TaskBoard.Board.AddTask | src/screens/Main/Task2.tsx:251-259 | exactly one new task is appended and the earlier tasks are unchanged |
| TaskBoard.Board.ToggleComplete | src/screens/Main/Task2.tsx:262-268 | the list becomes `ToggleCompleteById` of the old list, and nothing else changes |
| TaskBoard.Board.ToggleSubtask | src/screens/Main/Task2.tsx:270-303 | the list task is flipped, and the selected task is flipped the same way when it has the id and has subtasks |
| TaskBoard.Board.DeleteTask | src/screens/Main/Task2.tsx:305-331 | once confirmed, the tasks with the id are removed, and if the selected task was one of them the selection clears and the modal hides; cancelling changes nothing |
| TaskBoard.Board.UpdateTask | src/screens/Main/Task2.tsx:333-352 | the patch is merged into the matching tasks and into the selected task when it has the id; the modal hides |
| TaskBoard.Board.OpenTask | src/screens/Main/Task2.tsx:389-394 | pressing a row selects that task and shows the modal |
| TaskBoard.Board.CloseModal | src/screens/Main/Task2.tsx:500-503 | the modal hides and the selection clears |
| TaskBoard.Board.ModalSubtaskToggle | src/screens/Main/Task2.tsx:525-558 | with a selected task that has subtasks, the list and the selection both take the flipped subtasks; otherwise nothing changes |
| TaskBoard.Board.RequestEdit | src/screens/Main/Task2.tsx:505-522 | a completed selected task is refused and the state is kept; any other is handed to the editor and the modal closes |
| TaskList.SearchTasks | src/screens/Main/Task.tsx:108-117 | an empty text shows the whole list; a non-empty text keeps exactly the tasks whose title or description contains it case-insensitively, every copy of each, in order |
| TaskList.NewTask | src/screens/Main/Task.tsx:158-159 | the new task has the given id, is not completed, and copies the draft's fields including its due date |
| TaskList.SubtaskProgress | src/screens/Main/Task.tsx:307-313 | the "n/m completed" line appears exactly for a non-empty subtask list, with n at most m and m the number of subtasks |
| TaskList.CompletedCountFull | src/screens/Main/Task.tsx:310 | the count is full exactly when every subtask is completed |
| TaskList.TaskScreen.constructor | src/screens/Main/Task.tsx:43-46 | the loaded list, shown in full, with an empty search and the search bar visible |
| TaskList.TaskScreen.ApplySearch | src/screens/Main/Task.tsx:107-117 | the shown list becomes `SearchTasks` of the list and text, and nothing else changes |
| TaskList.TaskScreen.SetSearchText | src/screens/Main/Task.tsx:396 | only the search text changes |
| TaskList.TaskScreen.ToggleSearch | src/screens/Main/Task.tsx:147-148 | only the search-bar flag changes, to its negation |
| TaskList.TaskScreen.AddTask | src/screens/Main/Task.tsx:158-162 | exactly one new task is appended |
| TaskList.TaskScreen.CompleteTask | src/screens/Main/Task.tsx:164-168 | the list becomes `SetCompletedById(..., true)` of the old list |
| TaskList.TaskScreen.UndoComplete | src/screens/Main/Task.tsx:194-198 | the list becomes `SetCompletedById(..., false)` of the old list |
| TaskList.TaskScreen.DeleteTask | src/screens/Main/Task.tsx:212-227 | once confirmed, the list becomes `RemoveById` of the old list; cancelling changes nothing |
| TaskList.TaskScreen.ToggleSubtask | src/screens/Main/Task.tsx:231-250 | the list becomes `ToggleSubtaskById` of the old list |
| Schedule.MonthStart | src/screens/Main/Schedule.tsx:125 | `startOf('month')` is day 1 of the same year and month |
| Schedule.StartOffset | src/screens/Main/Schedule.tsx:127 | the number of leading blanks is 0..6 |
| Schedule.MonthLength | src/screens/Main/Schedule.tsx:126 | the month's length is 28..31, by the Gregorian rule |
| Schedule.GenerateCalendarDays | src/screens/Main/Schedule.tsx:124-143 | the grid has `startOffset + daysInMonth` cells: the first `startOffset` are blank, and cell `startOffset + i - 1` is day `i` of the month |
| Schedule.GridColumnIsWeekday | src/screens/Main/Schedule.tsx:340-352 | day `i` sits in the Su..Sa column of its own weekday |
| Schedule.VisibleDates | src/screens/Main/Schedule.tsx:54 | the strip has 31 moments, entry 15 is now, and entry `k` lies `k - 15` days from today at the same time of day |
| Schedule.VisibleDatesConsecutive | src/screens/Main/Schedule.tsx:54 | neighbouring entries of the strip are consecutive calendar days |
| Schedule.IsSameDay | src/screens/Main/Schedule.tsx:102-103 | moments in the same day pass the `YYYY-MM-DD` comparison |
| Schedule.SameDayMeaning | src/screens/Main/Schedule.tsx:150-151 | for four-digit years, the comparison holds exactly when the two moments fall in the same day, whatever their times of day |
| Schedule.TodayIsCentre | src/screens/Main/Schedule.tsx:103 | only entry 15 of the strip is drawn as today |
| Schedule.SearchSchedulesMeaning | src/screens/Main/Schedule.tsx:84-93 | a blank text shows every schedule; otherwise a schedule is kept exactly when its lowercased title contains the lowercased untrimmed text; every copy of a kept schedule stays, in order |
| Schedule.ChangeMonthBack | src/screens/Main/Schedule.tsx:174-176 | `changeMonth(n)` moves the month index by `n`, and `changeMonth(-n)` afterwards returns to the same year and month |
| Schedule.ScheduleScreen.constructor | src/screens/Main/Schedule.tsx:43-51 | empty lists and search, loading, the selected moment and the shown month from their own clock reads, search and calendar closed |
| Schedule.ScheduleScreen.ReceiveSchedules | src/screens/Main/Schedule.tsx:64-68 | the fetched data replaces both lists and loading ends |
| Schedule.ScheduleScreen.ApplySearch | src/screens/Main/Schedule.tsx:84-93 | the shown list becomes `SearchSchedules` of the list and text, and nothing else changes |
| Schedule.ScheduleScreen.SetSearchText | src/screens/Main/Schedule.tsx:95-97 | only the search text changes |
| Schedule.ScheduleScreen.SetSearchOpen | src/screens/Main/Schedule.tsx:219-285 | only the search-bar flag changes |
| Schedule.ScheduleScreen.SetCalendarOpen | src/screens/Main/Schedule.tsx:244 | only the calendar flag changes |
| Schedule.ScheduleScreen.SelectStripDate | src/screens/Main/Schedule.tsx:108 | only the selected moment changes |
| Schedule.ScheduleScreen.PressCalendarDay | src/screens/Main/Schedule.tsx:156-159 | the day is selected and the calendar closes |
| Schedule.ScheduleScreen.ChangeMonth | src/screens/Main/Schedule.tsx:174-176 | the shown month moves by exactly `amount` months |
| Schedule.ScheduleScreen.GoToToday | src/screens/Main/Schedule.tsx:357-361 | the selected moment and the shown month become their own clock reads, and the calendar closes; nothing else changes |
| ScheduleCards.CardTimeLabel | src/components/Schedule/ScheduleCard.tsx:22-24 | without an end time the label is the start time exactly, otherwise `start - end` |
| ScheduleCards.DailyTimeLabel | src/components/Dashboard/DailySchedule.tsx:35 | the label starts with the start time, and equals it exactly when there is no end time |
| ScheduleCards.LabelsAgree | src/components/Dashboard/DailySchedule.tsx:35 | both components give every schedule the same label |
| ScheduleCards.CardCheck.constructor | src/components/Schedule/ScheduleCard.tsx:14 | `checked` starts as `isCompleted` |
| ScheduleCards.CardCheck.Toggle | src/components/Schedule/ScheduleCard.tsx:16-19 | `checked` is negated |
| ScheduleCards.DailyCheck.constructor | src/components/Dashboard/DailySchedule.tsx:14 | `checked` starts as `isCompleted` |
| ScheduleCards.DailyCheck.Press | src/components/Dashboard/DailySchedule.tsx:41 | `checked` is negated |
| ScheduleCards.ToggleTwice | src/components/Schedule/ScheduleCard.tsx:16-19 | toggling twice restores `checked` |
| ScheduleForm.Frequency.Name | src/screens/Schedule/AddSchedule.tsx:85-108 | the frequency is always one of once, daily, weekly and monthly |
| ScheduleForm.NameInjective | src/screens/Schedule/AddSchedule.tsx:85-108 | distinct buttons store distinct names |
| ScheduleForm.RepeatSentence | src/screens/Schedule/AddSchedule.tsx:175 | the repeat sentence appears exactly when the frequency is not once, and names the frequency |
| ScheduleForm.DateFieldOrSentence | src/screens/Schedule/AddSchedule.tsx:113 | the date field shows exactly when there is no repeat sentence, that is, exactly for once |
| ScheduleForm.AddScheduleForm.constructor | src/screens/Schedule/AddSchedule.tsx:13-21 | empty title, reminder on, daily, pickers closed, end 30 minutes after its own clock read (30 minutes after the start when both reads agree) |
| ScheduleForm.AddScheduleForm.Save | src/screens/Schedule/AddSchedule.tsx:31-35 | a whitespace-only title is rejected with the error message; any other is accepted |
| ScheduleForm.AddScheduleForm.SetTitle | src/screens/Schedule/AddSchedule.tsx:76 | only the title changes |
| ScheduleForm.AddScheduleForm.SetFrequency | src/screens/Schedule/AddSchedule.tsx:86-104 | only the frequency changes |
| ScheduleForm.AddScheduleForm.SetReminder | src/screens/Schedule/AddSchedule.tsx:164 | only the reminder switch changes |
| ScheduleForm.AddScheduleForm.OpenPicker | src/screens/Schedule/AddSchedule.tsx:117-146 | only the pressed field's picker opens |
| ScheduleForm.AddScheduleForm.ConfirmStartTime | src/screens/Schedule/AddSchedule.tsx:186-191 | the start picker closes, the start is the picked time, and the end is 30 minutes later |
| ScheduleForm.AddScheduleForm.CancelStartTime | src/screens/Schedule/AddSchedule.tsx:192-194 | only the start picker closes |
| ScheduleForm.AddScheduleForm.ConfirmEndTime | src/screens/Schedule/AddSchedule.tsx:203-206 | the end picker closes, and the end time alone changes |
| ScheduleForm.AddScheduleForm.CancelEndTime | src/screens/Schedule/AddSchedule.tsx:207-209 | only the end picker closes |
| ScheduleForm.AddScheduleForm.ConfirmDate | src/screens/Schedule/AddSchedule.tsx:218-221 | the date picker closes and the date is the picked one |
| ScheduleForm.AddScheduleForm.CancelDate | src/screens/Schedule/AddSchedule.tsx:222-224 | only the date picker closes |
| TaskForms.AddSubtaskTo | src/screens/Main/AddTask.tsx:61-69 | a blank entry leaves the list unchanged; any other appends exactly one open subtask with that title at the end |
| TaskForms.AddTaskSubtasksOpen | src/screens/Main/AddTask.tsx:61-75 | adding and removing keep every subtask open, so all subtasks the add form submits are open |
| TaskForms.RemoveSubtaskRestore | src/screens/Main/EditTask.tsx:75-79 | putting the removed subtask back at its index restores the list |
| TaskForms.AddTaskForm.constructor | src/screens/Main/AddTask.tsx:35-41 | empty title and description, medium priority, no subtasks, picker closed; the due date is `new Date(selectedDate)` (midnight UTC of the selected day) when one is given, else now; formatted locally, a selected day comes back unchanged on or east of UTC and as the previous day's text west of it |
| TaskForms.AddTaskForm.Save | src/screens/Main/AddTask.tsx:43-59 | a whitespace-only title is refused with its message; otherwise the draft holds the title, description, formatted due date, priority and current subtask list |
| TaskForms.AddTaskForm.AddSubtask | src/screens/Main/AddTask.tsx:61-69 | a blank entry is refused and nothing changes; otherwise one open subtask is appended and the entry clears |
| TaskForms.AddTaskForm.RemoveSubtask | src/screens/Main/AddTask.tsx:71-75 | the subtask list becomes `RemoveAt` of the old one, and nothing else changes |
| TaskForms.AddTaskForm.SetTitle | src/screens/Main/AddTask.tsx:138 | only the title changes |
| TaskForms.AddTaskForm.SetDescription | src/screens/Main/AddTask.tsx:149 | only the description changes |
| TaskForms.AddTaskForm.SetPriority | src/screens/Main/AddTask.tsx:85 | only the priority changes |
| TaskForms.AddTaskForm.SetNewSubtaskTitle | src/screens/Main/AddTask.tsx:220 | only the subtask entry changes |
| TaskForms.AddTaskForm.OpenDatePicker | src/screens/Main/AddTask.tsx:161 | only the picker opens |
| TaskForms.AddTaskForm.ConfirmDate | src/screens/Main/AddTask.tsx:174-177 | the picker closes and the due date is the picked instant |
| TaskForms.AddTaskForm.CancelDate | src/screens/Main/AddTask.tsx:178-180 | only the picker closes |
| TaskForms.EditPatch | src/screens/Main/EditTask.tsx:53-59 | the payload has no id and no completed flag, and has every other field |
| TaskForms.EditPatchKeepsIdentity | src/screens/Main/EditTask.tsx:53-61 | merging the payload into a task keeps its id and completed flag and sets the other fields from the payload |
| TaskForms.EditUnchangedShiftsDay | src/screens/Main/EditTask.tsx:42-56 | as written, west of UTC, opening the editor and saving at once gives the task the previous day's date, never its own |
| TaskForms.EditUnchangedRoundTrip | src/screens/Main/EditTask.tsx:39-61 | opening the editor and saving at once gives the task back, except that absent subtasks become an empty list |
| TaskForms.EditTaskForm.constructor | src/screens/Main/EditTask.tsx:39-45 | the fields come from the task, absent subtasks become an empty list, and the due date is `new Date(task.dueDate)` (midnight UTC); formatted locally it gives the task's date on or east of UTC and the previous day's text west of it |
| TaskForms.EditTaskForm.Save | src/screens/Main/EditTask.tsx:47-63 | a whitespace-only title is refused; otherwise the task's id and the edit payload are handed on |
| TaskForms.EditTaskForm.AddSubtask | src/screens/Main/EditTask.tsx:65-73 | a blank entry is refused and nothing changes; otherwise one open subtask is appended and the entry clears |
| TaskForms.EditTaskForm.RemoveSubtask | src/screens/Main/EditTask.tsx:75-79 | the subtask list becomes `RemoveAt` of the old one |
| TaskForms.EditTaskForm.ToggleSubtaskComplete | src/screens/Main/EditTask.tsx:81-88 | the subtask list becomes `FlipAt` of the old one |
| TaskForms.EditTaskForm.SetTitle | src/screens/Main/EditTask.tsx:147 | only the title changes |
| TaskForms.EditTaskForm.SetDescription | src/screens/Main/EditTask.tsx:158 | only the description changes |
| TaskForms.EditTaskForm.SetPriority | src/screens/Main/EditTask.tsx:98 | only the priority changes |
| TaskForms.EditTaskForm.SetNewSubtaskTitle | src/screens/Main/EditTask.tsx:239 | only the subtask entry changes |
| TaskForms.EditTaskForm.OpenDatePicker | src/screens/Main/EditTask.tsx:170 | only the picker opens |
| TaskForms.EditTaskForm.ConfirmDate | src/screens/Main/EditTask.tsx:183-186 | the picker closes and the due date is the picked instant |
| TaskForms.EditTaskForm.CancelDate | src/screens/Main/EditTask.tsx:187-189 | only the picker closes |
| UserSlice.FullPatch | src/redux/slices/userSlice.ts:21-26 | the patch that names all four fields |
| UserSlice.Assign | src/redux/slices/userSlice.ts:27-29 | `Object.assign`: each field comes from the patch when the patch has it, otherwise from the state |
| UserSlice.AssignLaws | src/redux/slices/userSlice.ts:27-29 | an empty patch is the identity; the same patch twice acts once; a patch naming every field gives that record whatever the state was |
| UserSlice.AssignCommutes | src/redux/slices/userSlice.ts:27-29 | patches that name disjoint fields can be applied in either order |
| UserSlice.UserStore.constructor | src/redux/slices/userSlice.ts:10-15 | empty username, email and password, not authenticated |
| UserSlice.UserStore.SetUser | src/redux/slices/userSlice.ts:21-26 | all four fields equal the payload, whatever the earlier state was |
| UserSlice.UserStore.UpdateUser | src/redux/slices/userSlice.ts:27-29 | the fields the payload names are overwritten and the others kept |
| UserSlice.UserStore.GetUser | src/redux/slices/userSlice.ts:30 | returns the state and changes nothing |
| Theme.ValidThemes | App.tsx:200-202 | `isValidTheme` holds exactly for "light", "dark" and "system" |
| Theme.OrElse | App.tsx:204 | `a \|\| b` on strings: `a` unless it is empty |
| Theme.GetTheme | App.tsx:204 | the stored theme, or "light" when it is absent or empty; never empty |
| Theme.ColorScheme | App.tsx:204-205 | the value handed to `setColorScheme` is always one of the three names |
| Theme.ColorSchemeFallback | App.tsx:204-205 | a valid stored name passes through unchanged; an absent, empty or unknown one becomes "light" |
| Theme.SecondFallbackRedundant | App.tsx:204 | the second `\|\| 'light'` in `RootStack` never changes the value |
| Theme.Background | App.tsx:212 | the background is "#121212" exactly when the stored theme is "dark", and "#ffffff" otherwise |
| Theme.SystemGetsLightBackground | App.tsx:212 | a "system" theme sets the "system" scheme but gets the light background |

## Left out

- Persistence is not modelled: AsyncStorage loading and saving of the task lists, and the MMKV store behind `getTheme`. A screen starts from an already-loaded list, and the stored theme is a parameter. These are foreign I/O.
- `Date.now()` ids and the clock are parameters (`id`, `now`). Separate clock reads that set separate fields are separate parameters, because the reads may differ: `selectedNow` and `monthNow` in `Schedule.ScheduleScreen.constructor` and `GoToToday`, and the three reads of `ScheduleForm.AddScheduleForm.constructor`.
- `IsoDate.NewDateFromIso`: every string that is not a well-formed valid `YYYY-MM-DD` date is modelled as Invalid Date. ECMAScript leaves strings outside its date-time format to the engine, which may read a form such as "2025-5-10" as a local date. Engines also accept an out-of-range day such as "2025-02-30" and roll it over into the next month. Neither case is modelled. The app passes `new Date` only moment-formatted dates, the calendar's date strings and the forms' own formatted output, and all of these are well-formed valid dates.
- `Schedule.VisibleDates`: the 31 `moment()` reads of src/screens/Main/Schedule.tsx:54 are taken as one instant `now`. The reads could differ only when a midnight passes during the render; then the real strip skips or repeats a day, which the model does not capture.
- React effect scheduling is not modelled. The effects are methods (`FilterTasks`, `UpdateMarkedDates`, `ApplySearch`) that a caller invokes after a change. For example, `Board.SelectDate` does not itself recompute the marks; in the source, `updateMarkedDates` runs only when `tasks` changes.
- Stale closures are not modelled. An example is the `Undo` of `Task.tsx`'s completion alert, which acts on the list captured when the alert opened. The model applies each handler to the current state.
- The `setTimeout` fake fetch of `Schedule.tsx` is modelled only by its outcome (`ReceiveSchedules`). The refresh spinner is not modelled.
- Alert dialogs are return values or a `confirmed` flag. Navigation, swipe rows, modals as views, and animations are left out.
- moment's display formats (`MMM D, YYYY`, `h:mm A`, `dddd, MMMM D`) and the `formatDate` helpers are not modelled; they are display only. Only `YYYY-MM-DD` is modelled.
- Priority colour and class-name lookups (`getPriorityColor`, `getBgColorForPriority`) and all styling are not modelled.
- Daylight-saving time is not modelled: the time-zone offset is one constant. The range of JavaScript `Date` (±8.64e15 ms) is not modelled either; integers are unbounded.
- `Text.Lower`: folds only ASCII letters; JavaScript's full Unicode case mapping is not modelled.
- `Tasks.FlipAt`: an index outside the subtask list changes nothing. In the source such an index makes `!updatedSubtasks[index].completed` read a property of `undefined`, which throws a TypeError before anything is written, so the `setSubtasks`/`setTasks` call never runs (src/screens/Main/EditTask.tsx:82-85, src/screens/Main/Task2.tsx:274-277 and 293-296, src/screens/Main/Task.tsx:235-238). The model's no-op stands for the unchanged state after that aborted handler; the exception itself is not modelled. The screens pass only indices of rendered subtasks.
- `Seqs.RemoveAt`: the copy-then-`splice` of `removeSubtask` is modelled as the value it produces; there is no aliasing to model, because the copy is fresh.
- `TaskForms.EditTaskForm.constructor`: the `task.title || ''`, `task.description || ''` and `task.priority || 'medium'` fallbacks are not modelled. A `Task` always has a title string, a description string and a priority, and an empty string falls back to the empty string, so they never change the value. `task.subtasks || []` is modelled.
- The `|| 'light'` of `getTheme` lives in src/Storage.ts:5, which is not part of this model beyond that one rule (`Theme.GetTheme`).
- `ScheduleForm.AddScheduleForm.Save`: the success alert and the navigation back are not modelled; nothing is stored by the source either.
- Onboarding, login, register, settings, report and dashboard screens, the sample data and the charts are not part of this model.

## Findings

| source | as written | input that shows it | evidently intended | confidence | as-written member | corrected member |
|---|---|---|---|---|---|---|
| src/screens/Main/AddTask.tsx:38 | `new Date(selectedDate)` reads a `YYYY-MM-DD` string as midnight UTC, and `moment(dueDate).format('YYYY-MM-DD')` (line 52) formats it in local time | any date west of UTC, e.g. `selectedDate` "2025-05-10" at UTC-5 saves the task as due "2025-05-09" | the task is due on the selected day: the string read as local midnight, so it formats back to itself | not executed | IsoDate.UtcMidnightShiftsDay | IsoDate.LocalMidnightRoundTrip |
| src/screens/Main/EditTask.tsx:42 | `new Date(task.dueDate)` reads the stored date as midnight UTC, and line 56 formats it in local time | any task west of UTC, e.g. due "2025-05-10" at UTC-5: opening the editor and saving without touching the date moves it to "2025-05-09", and every further save moves it one more day back | saving an untouched date keeps it | not executed | TaskForms.EditUnchangedShiftsDay | TaskForms.EditUnchangedRoundTrip |

`IsoDate.UtcMidnightEastward` shows why the shift goes unseen on or east of
UTC. The form classes model the source as written: their constructors read
the date with `IsoDate.NewDateFromIso` and state the shift west of UTC. The
corrected reading is `IsoDate.NewLocalDateFromIso`, with
`IsoDate.LocalMidnightRoundTrip` and `TaskForms.EditUnchangedRoundTrip`
proved about it.
