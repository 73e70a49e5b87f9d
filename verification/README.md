# FocusRails task board — a Dafny model

FocusRails is a single-user "focus board". Tasks sit in three lists:

- **NOW** holds at most three tasks.
- **Today** holds the day's tasks.
- **Parking Lot** holds tasks that were set aside.

Tasks are dragged between and within lists, or moved with quick-move buttons. The focus panel runs a 25-minute countdown on the active NOW task and saves its progress. Completing a task can be undone. A meeting mode captures notes and sends each one to Today or to the Parking Lot.

This project models that core in Dafny:

- The task store is a `map` from task ids to rows, keyed the way the database is.
- The client-side task list is a `seq` of tasks, kept up to date by the fetch and the realtime events.
- Every React component with local state is a class. Its `useState` slots are fields, and each handler or effect is a method.
- Pure computations are functions, such as splitting by list, reordering, formatting and the meeting split.

Modules follow the source files:

| module | file | source |
|---|---|---|
| `Types` | `types.dfy` | shared records (`src/lib/types.ts`, `UndoAction` in `src/App.tsx`) and constants |
| `Text` | `text.dfy` | the JavaScript string operations the components use (`trim`, `toString`, `padStart`) |
| `TaskList` | `task_list.dfy` | `src/hooks/useTasks.ts` (fetch, realtime events, `getTasksByList`) plus lookup by id |
| `MeetingMode` | `meeting_mode.dfy` | `src/components/MeetingMode.tsx` |
| `FocusPanel` | `focus_panel.dfy` | `src/components/FocusPanel.tsx` |
| `TaskCard` | `task_card.dfy` | `src/components/TaskCard.tsx` |
| `TaskSection` | `task_section.dfy` | `src/components/TaskSection.tsx` |
| `App` | `app.dfy` | `src/App.tsx`, with the database writes of `useTasks.ts` |

The main properties proved:

- **Moves.**
  - Moving within a list renumbers that list as the reordered list, where `splice` clamps the drop index to the end.
  - Moving across lists relocates only the moved task.
  - A move into a full NOW is refused, and a move of an unknown task changes nothing.
  - Reordering is a permutation and keeps ids distinct.
- **Lists.** The three lists partition the tasks.
- **Realtime events.** An insert joins the end of its list, and a delete removes exactly the rows with that id. Timer events leave every list intact.
- **Undo.** Undoing a completion restores the stored row exactly, and restores the completed list too.
- **Meetings.** Ending a meeting sends every non-blank item to exactly one list, and the End button is enabled exactly when something would be sent.
- **Formatting.** Both clocks read back as the number of seconds they render. The focus timer counts down to zero and then stops.

## Model

| member | source | states |
|---|---|---|
| Types.AsTask | src/hooks/useTasks.ts:86-91 | a realtime row becomes a task with exactly the row's columns; all five timer fields are absent |
| Text.TrimStartIndex | src/components/TaskCard.tsx:50-53 | where `trim` starts keeping: every character before it is whitespace and the one at it is not |
| Text.TrimEndIndex | src/components/TaskCard.tsx:50-53 | where `trim` stops keeping: every character from it on is whitespace and the one before it is not |
| Text.Trim | src/components/TaskCard.tsx:50-53 | `trim()` yields the contiguous slice of the input starting at the first non-whitespace character, with only whitespace outside it and neither end whitespace; it is empty exactly when the input is all whitespace |
| Text.NatToString | src/components/FocusPanel.tsx:118 | `toString()` of a non-negative number: digits without a leading zero that read back as the number; one digit below 10, two below 100 |
| Text.IntToString | src/components/FocusPanel.tsx:124-126 | `toString()` of any integer: a minus sign then the digits of the magnitude |
| Text.NoLeadingZero | src/components/FocusPanel.tsx:126 | `toString` of a positive number never starts with a zero |
| Text.PadStart2 | src/components/FocusPanel.tsx:118 | `padStart(2, '0')`: the length becomes at least two and the value of a digit string is unchanged |
| Text.LeadingZeros | src/components/FocusPanel.tsx:118 | zeros put in front of digits do not change the value they read as |
| Text.ClockRoundTrip | src/components/MeetingMode.tsx:31-35 | minutes, a colon and padded seconds read back as the number of seconds |
| TaskList.FirstTimer | src/hooks/useTasks.ts:42-44 | the joined timer state is the first array element (none for an empty array), the object itself, or none |
| TaskList.RemainingFor | src/hooks/useTasks.ts:53-55 | remaining time is `max(0, 1500 - elapsed)`: within the budget for non-negative elapsed time, zero exactly at or past the budget, elapsed plus remaining is the budget otherwise |
| TaskList.FromFetchedRow | src/hooks/useTasks.ts:40-57 | a fetched row keeps its task columns; timer fields come from the first timer state, defaulting to 0, false and null, and remaining time follows `RemainingFor` |
| TaskList.FetchedRemainingInBudget | src/hooks/useTasks.ts:53-55 | with a non-negative stored elapsed time, a fetched task's remaining time is between 0 and 1500 |
| TaskList.FromFetchedRows | src/hooks/useTasks.ts:40-57 | the fetch maps rows one to one, in the order the query returned them |
| TaskList.Fetch | src/hooks/useTasks.ts:14-66 | loading always ends; no user clears the tasks; a successful fetch replaces them with `FromFetchedRows` of the returned rows; a failed fetch keeps them and records the error |
| TaskList.ReplaceById | src/hooks/useTasks.ts:88-91 | an update replaces every task with the id and keeps the others, in order |
| TaskList.RemoveById | src/hooks/useTasks.ts:92-93 | a delete leaves no task with the id and never lengthens the list |
| TaskList.RemoveByIdAppend | src/hooks/useTasks.ts:93 | deleting distributes over concatenation, so the remaining tasks keep their order |
| TaskList.RemoveByIdKeeps | src/hooks/useTasks.ts:93 | a delete keeps every other task exactly as often as before and drops every task with the id |
| TaskList.RemoveByIdCount | src/hooks/useTasks.ts:93 | a delete shortens the list by exactly the number of tasks with the id |
| TaskList.RemoveAbsentId | src/hooks/useTasks.ts:93 | deleting an id that no task has leaves the list unchanged |
| TaskList.RemovePresentId | src/App.tsx:85 | deleting an id that some task has makes the list strictly shorter and leaves no task with that id |
| TaskList.ApplyTaskEvent | src/hooks/useTasks.ts:86-94 | INSERT appends `AsTask` of the row after the unchanged tasks; UPDATE puts `AsTask` of the row at every index with its id and keeps every other task in place; DELETE is `RemoveById`, leaving no task with the old id |
| TaskList.PatchTimers | src/hooks/useTasks.ts:113-124 | a timer event patches the tasks with its task id and keeps every other task |
| TaskList.ApplyTimerEvent | src/hooks/useTasks.ts:111-126 | a timer INSERT or UPDATE changes only the timer fields of the matching tasks; any other event changes nothing; no task's columns change |
| TaskList.IndexOf | src/App.tsx:159 | `findIndex`: the first index holding the id, or -1 exactly when no task has it |
| TaskList.FindById | src/App.tsx:120-121 | `find`: the first task with the id, the one at `IndexOf`; present exactly when `IndexOf` finds one |
| TaskList.ByList | src/hooks/useTasks.ts:241-242 | `getTasksByList` returns only tasks of that list |
| TaskList.ByListCounts | src/hooks/useTasks.ts:241-242 | the list filter keeps every task of that list as often as it occurs and drops all others |
| TaskList.ByListAppend | src/hooks/useTasks.ts:241-242 | the list filter distributes over concatenation and keeps order |
| TaskList.ByListPartition | src/hooks/useTasks.ts:245-247 | NOW, Today and Parking Lot together hold exactly the tasks |
| TaskList.InsertJoinsEndOfItsList | src/hooks/useTasks.ts:86-87 | an inserted row appears at the end of its own list and leaves the other lists as they were |
| TaskList.TimerEventKeepsLists | src/hooks/useTasks.ts:111-126 | a timer event keeps each list's length, order and rows |
| MeetingMode.AddItem | src/components/MeetingMode.tsx:37-45 | one fresh, empty item routed to the Parking Lot is appended after the existing items |
| MeetingMode.UpdateItem | src/components/MeetingMode.tsx:47-49 | items with the id get the patch; length, order and every other item are kept |
| MeetingMode.DeleteItem | src/components/MeetingMode.tsx:51-53 | no item with the id remains and the list never grows |
| MeetingMode.DeleteItemKeeps | src/components/MeetingMode.tsx:51-53 | a delete keeps every other item exactly as often as before |
| MeetingMode.DeleteItemAppend | src/components/MeetingMode.tsx:51-53 | deleting distributes over concatenation, so kept items stay in order |
| MeetingMode.DeleteNothing | src/components/MeetingMode.tsx:51-53 | deleting an id that no item has changes nothing |
| MeetingMode.DeleteUndoesAdd | src/components/MeetingMode.tsx:37-53 | deleting the item just added, under a fresh id, gives back the previous items |
| MeetingMode.SplitPartition | src/components/MeetingMode.tsx:55-73 | routing sends each item with a non-blank title to exactly one of the two lists and blank items nowhere |
| MeetingMode.EndSplit | src/components/MeetingMode.tsx:55-73 | ending a meeting produces Today and Parking Lot lists that together hold exactly as many drafts as there are items with a non-blank title |
| MeetingMode.Routed | src/components/MeetingMode.tsx:57-73 | no list receives more drafts than the meeting has items |
| MeetingMode.RoutedAppend | src/components/MeetingMode.tsx:57-73 | routing distributes over concatenation, so each list keeps the meeting's order |
| MeetingMode.SendingItemIsRouted | src/components/MeetingMode.tsx:57-73 | every item routed to a list with a non-blank title has its untrimmed title and note in that list's drafts |
| MeetingMode.EndEnabledIffSomethingToSend | src/components/MeetingMode.tsx:193 | the End button is enabled exactly when ending would send at least one item |
| MeetingMode.CanEndMeeting | src/components/MeetingMode.tsx:193 | the End button is enabled exactly when some item has a title that is non-blank once trimmed |
| MeetingMode.NonBlankCounted | src/components/MeetingMode.tsx:193 | the filtered list is non-empty exactly when some item has a non-blank title |
| MeetingMode.FormatDuration | src/components/MeetingMode.tsx:31-35 | the meeting clock is the whole minutes, unpadded and without a leading zero, a colon, then the remaining seconds in two digits; it reads back as its seconds and has four characters exactly under ten minutes |
| FocusPanel.FormatTime | src/components/FocusPanel.tsx:115-119 | the timer clock is the whole minutes in at least two digits (no leading zero beyond two), a colon, then the remaining seconds in two digits; it reads back as its seconds and has five characters exactly below 100 minutes; also models the identical copy in src/components/TaskCard.tsx:65-69 |
| FocusPanel.UnderTwoMinutesOnClock | src/components/FocusPanel.tsx:52 | the "under two minutes" warning is on exactly when the clock shows 00:xx or 01:xx other than 00:00 |
| FocusPanel.IsUnderTwoMinutes | src/components/FocusPanel.tsx:52 | the warning is on exactly when time is left and the whole minutes are 0 or 1 |
| FocusPanel.ClockAtZero | src/components/FocusPanel.tsx:115-119 | zero seconds render as "00:00" and read back as zero |
| FocusPanel.FormatFocusedTime | src/components/FocusPanel.tsx:121-127 | "Just started" exactly in the budget's first minute; within the budget otherwise the whole minutes spent, rounded down, written without a leading zero, then " min focused"; a remaining time above the budget reads as a minus sign followed by `CountFocused` of the overshoot in minutes, rounded up; also models the copy in src/components/TaskCard.tsx:71-77 |
| FocusPanel.CountFocused | src/components/FocusPanel.tsx:126 | a positive count of minutes is written as its decimal digits, the `toString` of the count, without a leading zero, then " min focused" |
| FocusPanel.CountIsToString | src/components/FocusPanel.tsx:126 | the focused-time text of a positive count, and of its negation with a minus sign, is `${mins} min focused` with the count written by `toString` |
| FocusPanel.FocusedMinutes | src/components/FocusPanel.tsx:124-126 | the floored minutes spent are zero exactly in the budget's first minute and positive exactly from the end of that minute on |
| FocusPanel.Overshoot | src/components/FocusPanel.tsx:124-125 | `Math.floor` of a negative elapsed time is minus the overshoot rounded up |
| FocusPanel.ActiveTask | src/components/FocusPanel.tsx:51 | `find`: the active task is the first NOW task with the active id (the one at `IndexOf`); there is none exactly when no NOW task has that id |
| FocusPanel.Others | src/components/FocusPanel.tsx:156 | the other tasks are never more than the NOW list holds |
| FocusPanel.OthersFromNow | src/components/FocusPanel.tsx:156 | none of the other tasks is the active one; every task not carrying the active id occurs among them exactly as often as in NOW, and tasks with the active id not at all |
| FocusPanel.OthersAppend | src/components/FocusPanel.tsx:156 | the filter distributes over concatenation, so the other tasks keep their NOW order |
| FocusPanel.NextTasks | src/components/FocusPanel.tsx:156 | the first two of the other NOW tasks (all of them when fewer): a prefix of `Others`, of length min(2, its length) |
| FocusPanel.NextTasksFromNow | src/components/FocusPanel.tsx:156 | every task shown as next up is a NOW task and never the active one |
| FocusPanel.Tick | src/components/FocusPanel.tsx:97-113 | a running timer above zero loses one second and stops on reaching zero; otherwise nothing changes |
| FocusPanel.CountsDownToZero | src/components/FocusPanel.tsx:97-113 | a started timer with s seconds shows s-k after k ticks while k < s, then shows zero, stopped |
| FocusPanel.FocusTimer.constructor | src/components/FocusPanel.tsx:44-47 | the timer starts stopped at the 1500-second budget, with 1500 as the last saved value |
| FocusPanel.FocusTimer.SwitchTask | src/components/FocusPanel.tsx:55-64 | a new active task loads its remaining time (1500 by default) and stops the timer; no task changes nothing; nothing is written |
| FocusPanel.FocusTimer.Checkpoint | src/components/FocusPanel.tsx:67-76 | with an active task, a move of five seconds or more from the last save writes the elapsed time; afterwards the unsaved drift is under five seconds |
| FocusPanel.ShouldCheckpoint | src/components/FocusPanel.tsx:69-71 | reaching zero always saves; an unmoved value saves only at zero; when no save happens the drift from the last save is under five seconds and time is left |
| FocusPanel.FocusTimer.PersistRunning | src/components/FocusPanel.tsx:79-83 | with an active task, a change of running state writes the elapsed time and the running flag |
| FocusPanel.FocusTimer.OnSecond | src/components/FocusPanel.tsx:67-113 | one second of wall-clock time is one `Tick`; with an active task, the writes gain exactly a checkpoint save when the seconds changed and `ShouldCheckpoint` holds, then a running-state save when the running flag changed, and the last saved value becomes the new seconds exactly when the checkpoint saved; stopping at zero saves the stopped state |
| FocusPanel.FocusTimer.ToggleRunning | src/components/FocusPanel.tsx:241-242 | the Start/Pause button flips the running state only when a task is active, and then persists the new state |
| FocusPanel.FocusTimer.Reset | src/components/FocusPanel.tsx:146-154 | the timer goes back to 1500, stopped, and the active task's stored timer state is reset |
| FocusPanel.FocusTimer.Complete | src/components/FocusPanel.tsx:135-144 | with an active task, reports it with the current time and running flag, then stops and resets the timer; without one, does nothing |
| FocusPanel.FocusTimer.RestoreOnUndo | src/components/FocusPanel.tsx:86-95 | a pending focus-completion undo for the active task puts back its timer seconds and running flag; otherwise nothing changes |
| TaskCard.DropOnCard | src/components/TaskCard.tsx:36-46 | the card's declared drop handler: a card dropped on another card would ask to move to that card's section and index, and dropped on itself would ask nothing; the handler is never attached to an element (see "## Findings") |
| TaskCard.PartialTimeReading | src/components/TaskCard.tsx:85 | partial time reads "Just started" or between 1 and 25 focused minutes |
| TaskCard.FocusedTimeLine | src/components/TaskCard.tsx:162-167 | the focused-time line appears exactly on a NOW card with partial time; it shows `FormatFocusedTime` of the card's remaining time, which then reads "Just started" or between 1 and 25 focused minutes |
| TaskCard.QuickMoveTargets | src/components/TaskCard.tsx:171-232 | the quick-move buttons never offer the card's own section, and each is offered once |
| TaskCard.QuickMove | src/components/TaskCard.tsx:87-93 | a shown, enabled button asks to move to the end of the target section; "To NOW" is disabled while NOW is full |
| TaskCard.QuickMoveLeavesSection | src/components/TaskCard.tsx:87-93 | a quick move always leaves the card's section and never targets a full NOW |
| TaskCard.NowIsFull | src/components/TaskCard.tsx:93 | a card outside NOW sees NOW as full exactly when the NOW section itself is full; a card in NOW is never blocked |
| TaskCard.HasPartialTime | src/components/TaskCard.tsx:85 | a fetched task shows partial time exactly when its stored elapsed time is positive |
| TaskCard.CardEditor.constructor | src/components/TaskCard.tsx:25-27 | the editor starts closed with the task's title and note |
| TaskCard.CardEditor.StartEdit | src/components/TaskCard.tsx:156 | a click on the card opens the editor and keeps the fields |
| TaskCard.CardEditor.Edit | src/components/TaskCard.tsx:108-121 | typing sets the two fields and nothing else |
| TaskCard.CardEditor.Save | src/components/TaskCard.tsx:49-57 | a title that is non-blank once trimmed sends the trimmed title and note; a blank title sends nothing; the editor closes either way |
| TaskCard.CardEditor.Cancel | src/components/TaskCard.tsx:59-63 | cancelling restores the task's title and note and closes the editor |
| TaskSection.DropOnSection | src/components/TaskSection.tsx:37-44 | a drop on a section asks to move past its last task, and is refused exactly for a full NOW |
| TaskSection.IsFull | src/components/TaskSection.tsx:37 | a section without a maximum is never full; NOW with its maximum of three is full from three tasks on |
| TaskSection.CanDrop | src/components/TaskSection.tsx:41 | Today and the Parking Lot always accept a drop; NOW accepts one exactly when it is not full |
| TaskSection.CanAdd | src/components/TaskSection.tsx:114 | the add-task control is offered exactly in Today and the Parking Lot |
| TaskSection.TaskAdder.constructor | src/components/TaskSection.tsx:34-35 | the add input starts closed and empty |
| TaskSection.TaskAdder.Open | src/components/TaskSection.tsx:114-137 | the add button opens the input only outside NOW |
| TaskSection.TaskAdder.Edit | src/components/TaskSection.tsx:121 | typing sets the title and nothing else |
| TaskSection.TaskAdder.HandleAddTask | src/components/TaskSection.tsx:51-57 | a non-blank title is sent untrimmed and the input is cleared and closed; a blank one changes nothing |
| TaskSection.TaskAdder.Escape | src/components/TaskSection.tsx:122-129 | Escape closes and clears the input |
| App.MapListType | src/App.tsx:62-65 | section-to-list mapping is inverted by `reverseMapListType` |
| App.ReverseMapListType | src/App.tsx:67-70 | list-to-section mapping: only `parking_lot` becomes the Parking section and only `now` the NOW section |
| App.ListTypeRoundTrip | src/App.tsx:62-70 | list to section to list is the identity, and only the Parking section maps to `parking_lot` |
| App.UpdateWhere | src/hooks/useTasks.ts:170-183 | an update by id patches that row only, and writes nothing when no row has the id |
| App.Ids | src/App.tsx:168-171 | the ids of a list, position by position |
| App.AllListsPermutes | src/App.tsx:136-148 | NOW, Today and Parking concatenated hold exactly the tasks |
| App.FindsTheTask | src/App.tsx:120-121 | with distinct ids, searching the three lists finds the very task with that id |
| App.FoundInTasks | src/App.tsx:120-121 | a task found in the three lists is one of the tasks |
| App.FindsNothing | src/App.tsx:120-121 | an id no task has is not found |
| App.ByListDistinct | src/App.tsx:136-148 | filtering a list with distinct ids keeps them distinct |
| App.DistinctAppend | src/App.tsx:294-310 | two id lists with no repeat between them are each repeat-free and share no id |
| App.Reorder | src/App.tsx:163-165 | remove-then-insert moves the element to index min(to, n-1) and keeps every other element in order: same length, same multiset |
| App.ReorderFrom | src/App.tsx:163-165 | each reordered element comes from a definite original index |
| App.ReorderKeepsDistinctIds | src/App.tsx:163-165 | reordering keeps ids distinct |
| App.WritePositions | src/App.tsx:168-176 | renumbering writes rows only, adding no ids |
| App.WritePositionsEffect | src/App.tsx:168-176 | after renumbering, the i-th id of the order has position i and every other row is unchanged |
| App.PlanMove | src/App.tsx:114-180 | a within-list move renumbers the whole target list; a cross-list move relocates the moved task into the target's list type |
| App.ApplyPlan | src/App.tsx:157-180 | carrying out a move plan adds and removes no rows |
| App.MoveUnknownTaskChangesNothing | src/App.tsx:120-121 | moving an id that no task has writes nothing |
| App.MoveIntoFullNowRefused | src/App.tsx:126-133 | moving a task from another list into a NOW holding three tasks writes nothing |
| App.FoundInOwnList | src/App.tsx:157-159 | with distinct ids, `findIndex` in the task's own list points at that very task |
| App.PlanForFoundTask | src/App.tsx:152-165 | for a task found in the target's own list, `moveTask` writes nothing when the index stays and renumbers the reordered list otherwise |
| App.PlanWithinList | src/App.tsx:152-165 | a move inside the task's own list renumbers by the reorder from its current index to the clamped target index |
| App.RenumberEffect | src/App.tsx:163-176 | renumbering after a reorder puts the moved task at the clamped index and the others in their old order |
| App.MoveWithinList | src/App.tsx:152-176 | a same-list move places the moved task at min(index, n-1) and renumbers the list 0..n-1 in the new order; other rows are untouched |
| App.MoveAcrossLists | src/App.tsx:177-180 | a cross-list move sets only the moved row's list and position (index, or 9999 from a quick move); every other row is untouched |
| App.QuickMoveIsDropOnSection | src/App.tsx:150-152 | a quick move plans the same move as any index at or past the end of the target list |
| App.DragOverCardGoesToEnd | src/components/TaskSection.tsx:37-44 | a card released over any card of its own list reaches the section's target, which asks for the end of the list (refused only in a full NOW) and not for that card's index; the move puts the task in the last place and renumbers the list in the new order |
| App.ResolveIndex | src/App.tsx:150-152 | the quick-move index 9999 means the end of the target list; any other index is used as given |
| App.MaxPosition | src/App.tsx:271-273 | the largest position in the list is attained and bounds all others |
| App.NextPosition | src/App.tsx:270-273 | a new task's position is 0 in an empty list, else one past the largest, so above every existing position |
| App.InsertDraftsKeys | src/App.tsx:296-310 | inserting meeting drafts makes every draft id a key, loses no key and adds no other key |
| App.InsertDraftsEffect | src/App.tsx:296-310 | the i-th draft becomes a row with its title and note, the list, position start+i, and not completed; other rows are untouched |
| App.EndMeetingEffect | src/App.tsx:294-310 | with fresh ids, ending a meeting appends Today drafts after Today's largest position and Parking drafts after the Parking Lot's, as not-completed rows; every existing row is kept unchanged and no other row appears |
| App.UndoRevertsBoardCompletion | src/App.tsx:73-98 | undoing a board completion writes back the row exactly as before |
| App.UndoRevertsFocusCompletion | src/App.tsx:223-251 | undoing a focus completion writes back the row exactly as before |
| App.UndoRevertsCompletedList | src/App.tsx:85 | undo removes the completed copy and gives back the previous completed list |
| App.BoardUndo | src/App.tsx:208-213 | a board completion records the task, its section (mapping back to its list) and its position, and no timer state |
| App.FocusUndo | src/App.tsx:240-248 | a focus completion records the task, the NOW section, its position, the task as the active one and the timer seconds and running flag |
| App.UndoPatch | src/App.tsx:77-82 | the undo write sets exactly the list back from the recorded section, the position back to the recorded index, and clears completion; every other column is kept |
| App.Board.constructor | src/App.tsx:41-50 | the board starts with no active task, no undo, no completed tasks, the board view and no meeting items |
| App.Board.MoveTask | src/App.tsx:114-184 | the store becomes the planned move carried out on it |
| App.Board.WriteOrder | src/App.tsx:168-176 | the position loop writes `WritePositions` of the order |
| App.Board.UpdateTask | src/App.tsx:187-189 | the store becomes the update by id |
| App.Board.AddTask | src/App.tsx:254-279 | adding to a full NOW is refused; otherwise a new, not-completed row with the next position is the only change |
| App.Board.CompleteTaskFromBoard | src/App.tsx:192-220 | a found task is marked completed, recorded in the completed list and offered for undo with the toast shown; an unknown id changes nothing |
| App.Board.CompleteTaskFromFocus | src/App.tsx:223-251 | the same for a NOW task, also clearing the active task and recording the timer state for undo |
| App.Board.HandleUndo | src/App.tsx:73-98 | with a pending undo: the row's list, position and completion are restored, the task leaves the completed list (which gets strictly shorter), a focus undo restores the active task, and the undo and toast are cleared; without one, nothing changes |
| App.Board.HandleDemoteTask | src/App.tsx:282-291 | a NOW task is written to Today at position 0, the top of the list, and stops being active when it was; an unknown id changes nothing |
| App.Board.HandleEndMeeting | src/App.tsx:294-320 | the store becomes `EndMeetingStore`: Today drafts and then Parking drafts inserted after each list's largest position, under fresh ids so every existing row is kept; the meeting is cleared and closed |
| App.Board.InsertAt | src/App.tsx:299-310 | the insert loop writes `InsertDrafts` of the drafts |
| App.Board.OnTaskEvent | src/hooks/useTasks.ts:85-95 | a realtime task event updates the task list by `ApplyTaskEvent` |
| App.Board.OnTimerEvent | src/hooks/useTasks.ts:110-128 | a realtime timer event updates the task list by `ApplyTimerEvent` |
| App.Board.Refetch | src/hooks/useTasks.ts:14-66 | a successful refetch replaces the task list with the fetched rows; a failure keeps it |
| App.Board.SetActiveTask | src/App.tsx:379 | the panel's choice becomes the active task |
| App.Board.DismissUndo | src/App.tsx:388-400 | dismissing hides the toast and keeps the pending undo |
| App.Board.UpdateMeetingItems | src/App.tsx:408 | the meeting buffer becomes the items passed up |
| App.Board.SetViewMode | src/App.tsx:369-410 | opening the meeting or going back to the board sets the view |

## Left out

- Supabase itself is not modelled: network I/O, authentication, row-level security, `user_id` and timestamps. Each write becomes an update of the `Store` map, and every write is assumed to succeed.
- Asynchrony is not modelled: the awaits, the refetch after a move and the races between a write and its realtime echo. `Board.Refetch` is a separate step.
- Ids generated by the database or by `Date.now()` are method parameters. `Board.AddTask` requires its id to be new. `Board.HandleEndMeeting` takes one id per draft, and `EndMeetingEffect` assumes those ids are distinct.
- Wall-clock time is not modelled. `FocusTimer.OnSecond` is one interval callback followed by the effects it triggers.
- Effect ordering within a React render is not modelled, and neither are stale closures. `FocusTimer.SwitchTask` and `FocusTimer.Checkpoint` run as separate steps on the current state. In the program, when the active task switches:
  - The switch effect runs first. It writes nothing and sets the saved value to the new task's remaining time.
  - The checkpoint effect of the same commit still sees the old timer seconds. It writes them, with the old running flag, against the new task whenever they differ from the new remaining time by five or more, or are zero.
  - Only a later render can overwrite that write: its own checkpoint write, or the running-flag write when the timer was running.
  - Sometimes nothing does. If the old timer stood at 0, the new task has 1 to 4 seconds left and the timer was paused, the stale value stays stored.
- `FocusTimer.SwitchTask`, `FocusTimer.Reset` and `FocusTimer.RestoreOnUndo` model the effect or handler alone. They do not run the effects their own state change triggers, as `FocusTimer.OnSecond` and `FocusTimer.ToggleRunning` do. For example, resetting a running timer is followed by the running-flag write `SaveState(id, 0, false)` after the `ResetState`.
- `getProgressPercentage` (FocusPanel and TaskCard) is left out: it is floating-point presentation.
- Presentation is left out: the dark-mode toggle, the keyboard shortcut, scrolling, drag visuals, the meeting duration clock and the end-meeting confirmation timer.
- The model proves no board-wide invariants, because the source does not keep them:
  - NOW can exceed three tasks: undo puts a completed NOW task back without a capacity check, and a refetch or a realtime event can bring in more NOW rows. A demote only moves a task out of NOW.
  - Positions can repeat.
  - Lists are not kept sorted by position.
- A realtime UPDATE replaces a task with the raw row, so it loses the joined timer fields. The model does the same (`Types.AsTask`).
- `MeetingMode.Routed`: its contract bounds only the length. What each list contains is stated by `MeetingMode.RoutedAppend`, `MeetingMode.SendingItemIsRouted` and `MeetingMode.SplitPartition`.
- JavaScript numbers (positions, seconds, elapsed times) are modelled as unbounded `int` and `nat`; floating point and the 2^53 limit are not modelled.
- `deleteTask` in `src/hooks/useTasks.ts` has no caller in the core, so it is not modelled.

## Findings

| source | as written | input that shows it | evidently intended | confidence | as-written member | corrected member |
|---|---|---|---|---|---|---|
| src/components/TaskCard.tsx:36-46 | the card declares a drop target but never attaches it (its root takes only `ref={drag}`, line 97), so a card released over another card reaches the section's target, which asks for the end of the list | Today holds a, b, c; drag c and release it over a: c stays last instead of moving to index 0 | the dragged task moves to the index of the card it was released over | medium, not executed: this reading relies on react-dnd delivering a drop only to attached targets | App.DragOverCardGoesToEnd | TaskCard.DropOnCard |
