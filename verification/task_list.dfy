/** The client-side task list of the `useTasks` hook: turning fetched rows
    into tasks, applying realtime change events, and splitting the list into
    the NOW, Today and Parking Lot lists. The queries and subscriptions
    themselves are remote calls; their results are parameters here. */
module TaskList {
  import opened Types

  // ---------------------------------------------------------------------
  // Fetch

  /** The `timer_states` columns the fetch selects. */
  datatype TimerRow = TimerRow(id: string, elapsedSeconds: int, isActive: bool, startedAt: Option<string>)

  /** The joined `timer_states` of a task can come back as nothing, as one
      object, or as an array. */
  datatype TimerJoin = NoTimer | OneTimer(state: TimerRow) | TimerArray(states: seq<TimerRow>)

  datatype FetchedRow = FetchedRow(row: TaskRow, timerStates: TimerJoin)

  /** An array-valued join uses its first element. */
  function FirstTimer(j: TimerJoin): (r: Option<TimerRow>)
    ensures j.TimerArray? ==> (r.Some? <==> j.states != []) && (r.Some? ==> r.value == j.states[0])
    ensures j.OneTimer? ==> r == Some(j.state)
    ensures j.NoTimer? ==> r == None
  {
    match j
    case NoTimer => None
    case OneTimer(s) => Some(s)
    case TimerArray(ss) => if ss == [] then None else Some(ss[0])
  }

  /** Seconds left of the focus budget: `max(0, 1500 - elapsed)`. */
  function RemainingFor(elapsed: int): (r: nat)
    ensures elapsed >= 0 ==> r <= FocusBudget
    ensures r == 0 <==> elapsed >= FocusBudget
    ensures elapsed <= FocusBudget ==> r + elapsed == FocusBudget
  {
    if FocusBudget - elapsed > 0 then FocusBudget - elapsed else 0
  }

  /** The row transform of the fetch: the row's own columns, the timer
      fields of the first joined timer state, with `elapsed || 0`,
      `is_active || false` and `started_at || null`, and the remaining time
      (the full budget when elapsed is absent or 0). */
  function FromFetchedRow(f: FetchedRow): (t: Task)
    ensures RowOf(t) == f.row
    ensures t.elapsedSeconds.Some? && t.isTimerActive.Some? && t.remainingTime.Some?
    ensures t.remainingTime.value == RemainingFor(t.elapsedSeconds.value)
    ensures FirstTimer(f.timerStates).None? ==>
      t.timerStateId == None && t.elapsedSeconds == Some(0) && t.isTimerActive == Some(false)
      && t.timerStartedAt == None && t.remainingTime == Some(FocusBudget)
    ensures FirstTimer(f.timerStates).Some? ==>
      var ts := FirstTimer(f.timerStates).value;
      t.timerStateId == Some(ts.id) && t.elapsedSeconds == Some(ts.elapsedSeconds)
      && t.isTimerActive == Some(ts.isActive)
      && t.timerStartedAt == (if ts.startedAt == Some("") then None else ts.startedAt)
  {
    var ts := FirstTimer(f.timerStates);
    var row := f.row;
    Task(row.id, row.title, row.note, row.listType, row.position, row.isCompleted,
         if ts.Some? then Some(ts.value.id) else None,
         Some(if ts.Some? then ts.value.elapsedSeconds else 0),
         Some(ts.Some? && ts.value.isActive),
         if ts.Some? && ts.value.startedAt.Some? && ts.value.startedAt.value != "" then ts.value.startedAt else None,
         Some(if ts.Some? && ts.value.elapsedSeconds != 0 then RemainingFor(ts.value.elapsedSeconds) else FocusBudget))
  }

  /** With a non-negative stored elapsed time the remaining time lies
      within the budget. */
  lemma FetchedRemainingInBudget(f: FetchedRow)
    requires FirstTimer(f.timerStates).Some? ==> FirstTimer(f.timerStates).value.elapsedSeconds >= 0
    ensures 0 <= FromFetchedRow(f).remainingTime.value <= FocusBudget
  {
  }

  function FromFetchedRows(rows: seq<FetchedRow>): (ts: seq<Task>)
    ensures |ts| == |rows|
    ensures forall i :: 0 <= i < |rows| ==> ts[i] == FromFetchedRow(rows[i])
  {
    if rows == [] then [] else [FromFetchedRow(rows[0])] + FromFetchedRows(rows[1..])
  }

  /** The hook's state. */
  datatype HookState = HookState(tasks: seq<Task>, loading: bool, failed: bool)

  /** What the select returned: rows (already filtered to the user's
      uncompleted tasks and ordered by position), or an error. */
  datatype FetchResponse = Rows(rows: seq<FetchedRow>) | FetchFailed

  /** `fetchTasks`: without a user the list empties; otherwise the response
      replaces the list, or on an error the list is kept and the error set.
      Loading always ends. */
  function Fetch(st: HookState, userId: Option<string>, resp: FetchResponse): (r: HookState)
    ensures !r.loading
    ensures userId.None? ==> r.tasks == [] && r.failed == st.failed
    ensures userId.Some? && resp.Rows? ==>
      !r.failed && r.tasks == FromFetchedRows(resp.rows)
    ensures userId.Some? && resp.FetchFailed? ==> r.failed && r.tasks == st.tasks
  {
    if userId.None? then HookState([], false, st.failed)
    else match resp
      case Rows(rows) => HookState(FromFetchedRows(rows), false, false)
      case FetchFailed => HookState(st.tasks, false, true)
  }

  // ---------------------------------------------------------------------
  // Realtime events on the tasks table

  datatype TaskEvent = Inserted(newRow: TaskRow) | Updated(newRow: TaskRow) | Deleted(oldId: TaskId)

  /** Rows whose id matches are replaced in place by `t`. */
  function ReplaceById(tasks: seq<Task>, id: TaskId, t: Task): (r: seq<Task>)
    ensures |r| == |tasks|
    ensures forall i :: 0 <= i < |tasks| ==> r[i] == if tasks[i].id == id then t else tasks[i]
  {
    if tasks == [] then []
    else [if tasks[0].id == id then t else tasks[0]] + ReplaceById(tasks[1..], id, t)
  }

  /** The rows whose id matches are dropped. */
  function RemoveById(tasks: seq<Task>, id: TaskId): (r: seq<Task>)
    ensures |r| <= |tasks|
    ensures forall i :: 0 <= i < |r| ==> r[i].id != id
  {
    if tasks == [] then []
    else (if tasks[0].id == id then [] else [tasks[0]]) + RemoveById(tasks[1..], id)
  }

  /** Removing distributes over concatenation, so the kept rows stay in
      their order. */
  lemma {:induction false} RemoveByIdAppend(a: seq<Task>, b: seq<Task>, id: TaskId)
    ensures RemoveById(a + b, id) == RemoveById(a, id) + RemoveById(b, id)
  {
    if a != [] {
      var head := if a[0].id == id then [] else [a[0]];
      assert (a + b)[0] == a[0];
      assert (a + b)[1..] == a[1..] + b;
      assert RemoveById(a + b, id) == head + RemoveById(a[1..] + b, id);
      RemoveByIdAppend(a[1..], b, id);
      assert RemoveById(a, id) == head + RemoveById(a[1..], id);
    } else {
      assert a + b == b;
    }
  }

  /** The kept rows are exactly the rows without the id, each as often as
      in the list. */
  lemma {:induction false} RemoveByIdKeeps(tasks: seq<Task>, id: TaskId)
    ensures forall t: Task :: t.id != id ==> multiset(RemoveById(tasks, id))[t] == multiset(tasks)[t]
    ensures forall t: Task :: t.id == id ==> multiset(RemoveById(tasks, id))[t] == 0
  {
    if tasks != [] {
      RemoveByIdKeeps(tasks[1..], id);
      assert tasks == [tasks[0]] + tasks[1..];
    }
  }

  /** Exactly the rows with the id are dropped: the count shrinks by their
      number. */
  lemma {:induction false} RemoveByIdCount(tasks: seq<Task>, id: TaskId)
    ensures |RemoveById(tasks, id)| == |tasks| - CountId(tasks, id)
  {
    if tasks != [] {
      RemoveByIdCount(tasks[1..], id);
    }
  }

  /** Removing an id no row has changes nothing. */
  lemma {:induction false} RemoveAbsentId(tasks: seq<Task>, id: TaskId)
    requires forall i :: 0 <= i < |tasks| ==> tasks[i].id != id
    ensures RemoveById(tasks, id) == tasks
  {
    if tasks != [] {
      RemoveAbsentId(tasks[1..], id);
    }
  }

  function CountId(tasks: seq<Task>, id: TaskId): nat {
    if tasks == [] then 0 else (if tasks[0].id == id then 1 else 0) + CountId(tasks[1..], id)
  }

  /** Removing an id some row has makes the list shorter, and afterwards
      the id is not found. */
  lemma {:induction false} RemovePresentId(tasks: seq<Task>, id: TaskId)
    requires IndexOf(tasks, id) >= 0
    ensures |RemoveById(tasks, id)| < |tasks|
    ensures IndexOf(RemoveById(tasks, id), id) == -1
  {
    RemoveByIdCount(tasks, id);
    PresentIdCounted(tasks, id);
  }

  lemma {:induction false} PresentIdCounted(tasks: seq<Task>, id: TaskId)
    requires IndexOf(tasks, id) >= 0
    ensures CountId(tasks, id) >= 1
  {
    if tasks[0].id != id {
      PresentIdCounted(tasks[1..], id);
    }
  }

  /** The tasks-channel handler: an INSERT appends the payload, an UPDATE
      replaces the rows with its id, a DELETE removes the rows with the old
      id. Payloads carry only the table's columns, so the task they yield
      has no timer fields. */
  function ApplyTaskEvent(tasks: seq<Task>, ev: TaskEvent): (r: seq<Task>)
    ensures ev.Inserted? ==> |r| == |tasks| + 1 && r[..|tasks|] == tasks && r[|tasks|] == AsTask(ev.newRow)
    ensures ev.Updated? ==> |r| == |tasks| && forall i :: 0 <= i < |tasks| ==>
      if tasks[i].id == ev.newRow.id then r[i] == AsTask(ev.newRow) else r[i] == tasks[i]
    ensures ev.Deleted? ==>
      r == RemoveById(tasks, ev.oldId) && |r| <= |tasks| && forall i :: 0 <= i < |r| ==> r[i].id != ev.oldId
  {
    match ev
    case Inserted(row) => tasks + [AsTask(row)]
    case Updated(row) => ReplaceById(tasks, row.id, AsTask(row))
    case Deleted(id) => RemoveById(tasks, id)
  }

  // ---------------------------------------------------------------------
  // Realtime events on the timer_states table

  datatype TimerEventKind = TimerInsert | TimerUpdate | TimerDelete

  datatype TimerEvent = TimerEvent(
    kind: TimerEventKind, taskId: TaskId, elapsedSeconds: int, isActive: bool, startedAt: Option<string>)

  function PatchTimer(t: Task, ev: TimerEvent): Task {
    t.(elapsedSeconds := Some(ev.elapsedSeconds),
       isTimerActive := Some(ev.isActive),
       timerStartedAt := ev.startedAt,
       remainingTime := Some(RemainingFor(ev.elapsedSeconds)))
  }

  function PatchTimers(tasks: seq<Task>, ev: TimerEvent): (r: seq<Task>)
    ensures |r| == |tasks|
    ensures forall i :: 0 <= i < |tasks| ==> r[i] == if tasks[i].id == ev.taskId then PatchTimer(tasks[i], ev) else tasks[i]
  {
    if tasks == [] then []
    else [if tasks[0].id == ev.taskId then PatchTimer(tasks[0], ev) else tasks[0]] + PatchTimers(tasks[1..], ev)
  }

  /** The timer-states handler: an INSERT or UPDATE refreshes the timer
      fields of the task it belongs to and nothing else; a DELETE is
      ignored. No stored column of any task changes. */
  function ApplyTimerEvent(tasks: seq<Task>, ev: TimerEvent): (r: seq<Task>)
    ensures |r| == |tasks|
    ensures forall i :: 0 <= i < |tasks| ==> RowOf(r[i]) == RowOf(tasks[i])
    ensures forall i :: 0 <= i < |tasks| && (tasks[i].id != ev.taskId || ev.kind == TimerDelete) ==> r[i] == tasks[i]
    ensures forall i :: 0 <= i < |tasks| && tasks[i].id == ev.taskId && ev.kind != TimerDelete ==>
      r[i].elapsedSeconds == Some(ev.elapsedSeconds) && r[i].isTimerActive == Some(ev.isActive)
      && r[i].timerStartedAt == ev.startedAt
      && r[i].remainingTime == Some(RemainingFor(ev.elapsedSeconds))
      && r[i].timerStateId == tasks[i].timerStateId
  {
    if ev.kind == TimerDelete then tasks else PatchTimers(tasks, ev)
  }

  // ---------------------------------------------------------------------
  // Lookup by id

  /** `findIndex` by id: the first index holding the id, or -1. */
  function IndexOf(tasks: seq<Task>, id: TaskId): (r: int)
    ensures -1 <= r < |tasks|
    ensures r >= 0 ==> tasks[r].id == id && forall j :: 0 <= j < r ==> tasks[j].id != id
    ensures r == -1 <==> forall j :: 0 <= j < |tasks| ==> tasks[j].id != id
  {
    if tasks == [] then -1
    else if tasks[0].id == id then 0
    else
      var k := IndexOf(tasks[1..], id);
      if k == -1 then -1 else k + 1
  }

  /** `find` by id: the task at `IndexOf`, if there is one. */
  function FindById(tasks: seq<Task>, id: TaskId): (r: Option<Task>)
    ensures r.Some? <==> IndexOf(tasks, id) >= 0
    ensures r.Some? ==> r.value == tasks[IndexOf(tasks, id)] && r.value.id == id && r.value in tasks
  {
    var k := IndexOf(tasks, id);
    if k >= 0 then Some(tasks[k]) else None
  }

  // ---------------------------------------------------------------------
  // The three lists

  /** `getTasksByList`: the tasks of one list type, in order. */
  function ByList(tasks: seq<Task>, lt: ListType): (r: seq<Task>)
    ensures |r| <= |tasks|
    ensures forall i :: 0 <= i < |r| ==> r[i].listType == lt
  {
    if tasks == [] then []
    else (if tasks[0].listType == lt then [tasks[0]] else []) + ByList(tasks[1..], lt)
  }

  /** A list holds each task of its type exactly as often as the whole list,
      and no other. */
  lemma {:induction false} ByListCounts(tasks: seq<Task>, lt: ListType)
    ensures forall t: Task :: t.listType == lt ==> multiset(ByList(tasks, lt))[t] == multiset(tasks)[t]
    ensures forall t: Task :: t.listType != lt ==> multiset(ByList(tasks, lt))[t] == 0
  {
    if tasks != [] {
      ByListCounts(tasks[1..], lt);
      assert tasks == [tasks[0]] + tasks[1..];
    }
  }

  /** Filtering distributes over concatenation: each list keeps the order
      of the whole. */
  lemma {:induction false} ByListAppend(a: seq<Task>, b: seq<Task>, lt: ListType)
    ensures ByList(a + b, lt) == ByList(a, lt) + ByList(b, lt)
  {
    if a != [] {
      var head := if a[0].listType == lt then [a[0]] else [];
      assert (a + b)[0] == a[0] && (a + b)[1..] == a[1..] + b;
      assert ByList(a + b, lt) == head + ByList(a[1..] + b, lt);
      ByListAppend(a[1..], b, lt);
      assert ByList(a, lt) == head + ByList(a[1..], lt);
    } else {
      assert a + b == b;
    }
  }

  /** The three lists partition the task list: together they hold every
      task exactly as often as the list does. */
  lemma {:induction false} ByListPartition(tasks: seq<Task>)
    ensures multiset(ByList(tasks, Now)) + multiset(ByList(tasks, Today)) + multiset(ByList(tasks, ParkingLot))
      == multiset(tasks)
  {
    if tasks != [] {
      var h, rest := tasks[0], tasks[1..];
      ByListPartition(rest);
      assert tasks == [h] + rest;
      match h.listType {
        case Now =>
          assert ByList(tasks, Now) == [h] + ByList(rest, Now);
          assert ByList(tasks, Today) == ByList(rest, Today);
          assert ByList(tasks, ParkingLot) == ByList(rest, ParkingLot);
        case Today =>
          assert ByList(tasks, Now) == ByList(rest, Now);
          assert ByList(tasks, Today) == [h] + ByList(rest, Today);
          assert ByList(tasks, ParkingLot) == ByList(rest, ParkingLot);
        case ParkingLot =>
          assert ByList(tasks, Now) == ByList(rest, Now);
          assert ByList(tasks, Today) == ByList(rest, Today);
          assert ByList(tasks, ParkingLot) == [h] + ByList(rest, ParkingLot);
      }
    }
  }

  /** A realtime INSERT adds the new task at the end of its own list and
      leaves the two other lists alone. */
  lemma InsertJoinsEndOfItsList(tasks: seq<Task>, row: TaskRow, lt: ListType)
    ensures ByList(ApplyTaskEvent(tasks, Inserted(row)), lt)
      == ByList(tasks, lt) + (if row.listType == lt then [AsTask(row)] else [])
  {
    ByListAppend(tasks, [AsTask(row)], lt);
  }

  /** A timer event moves no task between lists and reorders none. */
  lemma {:induction false} TimerEventKeepsLists(tasks: seq<Task>, ev: TimerEvent, lt: ListType)
    ensures |ByList(ApplyTimerEvent(tasks, ev), lt)| == |ByList(tasks, lt)|
    ensures forall i :: 0 <= i < |ByList(tasks, lt)| ==>
      RowOf(ByList(ApplyTimerEvent(tasks, ev), lt)[i]) == RowOf(ByList(tasks, lt)[i])
  {
    if ev.kind != TimerDelete && tasks != [] {
      var r := ApplyTimerEvent(tasks, ev);
      assert r[1..] == ApplyTimerEvent(tasks[1..], ev);
      TimerEventKeepsLists(tasks[1..], ev, lt);
    }
  }
}
