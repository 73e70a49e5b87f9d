/** Entities shared by the board, the focus panel and the meeting capture:
    the three list types, task rows as stored, tasks as the client sees them,
    and the single-slot undo record. */
module Types {

  datatype Option<+T> = None | Some(value: T) {
    function GetOr(default: T): T {
      match this
      case Some(v) => v
      case None => default
    }
  }

  type TaskId = string

  /** The length of one focus session: 25 minutes, in seconds. */
  const FocusBudget: nat := 25 * 60

  /** The most tasks the NOW list may hold. */
  const NowCapacity: nat := 3

  /** The target index quick-move buttons send to mean "end of the list". */
  const EndOfList: nat := 9999

  /** The `list_type` column as stored. */
  datatype ListType = Now | Today | ParkingLot

  /** The section names the UI uses; `parking` is `parking_lot` in the store. */
  datatype Section = NowSection | TodaySection | ParkingSection

  /** A row of the `tasks` table (the owning user and the timestamps are left out). */
  datatype TaskRow = TaskRow(
    id: TaskId,
    title: string,
    note: string,
    listType: ListType,
    position: int,
    isCompleted: bool)

  /** A task as the client holds it: the row plus the optional timer fields
      joined from `timer_states`, each absent (None) unless filled in. */
  datatype Task = Task(
    id: TaskId,
    title: string,
    note: string,
    listType: ListType,
    position: int,
    isCompleted: bool,
    timerStateId: Option<string>,
    elapsedSeconds: Option<int>,
    isTimerActive: Option<bool>,
    timerStartedAt: Option<string>,
    remainingTime: Option<nat>)

  /** A row received as-is (a realtime payload): no timer field is set. */
  function AsTask(row: TaskRow): (t: Task)
    ensures RowOf(t) == row
    ensures t.timerStateId == None && t.elapsedSeconds == None && t.isTimerActive == None
      && t.timerStartedAt == None && t.remainingTime == None
  {
    Task(row.id, row.title, row.note, row.listType, row.position, row.isCompleted,
         None, None, None, None, None)
  }

  /** The stored columns of a client task. */
  function RowOf(t: Task): TaskRow {
    TaskRow(t.id, t.title, t.note, t.listType, t.position, t.isCompleted)
  }

  /** A partial update of a row: only the fields that are Some change. */
  datatype TaskPatch = TaskPatch(
    title: Option<string>,
    note: Option<string>,
    listType: Option<ListType>,
    position: Option<int>,
    isCompleted: Option<bool>)

  const NoChange: TaskPatch := TaskPatch(None, None, None, None, None)

  function ApplyPatch(row: TaskRow, p: TaskPatch): (r: TaskRow)
    ensures r.id == row.id
  {
    TaskRow(row.id,
            p.title.GetOr(row.title),
            p.note.GetOr(row.note),
            p.listType.GetOr(row.listType),
            p.position.GetOr(row.position),
            p.isCompleted.GetOr(row.isCompleted))
  }

  /** A request to move a task to a section at an index (`onMoveTask`). */
  datatype MoveRequest = MoveRequest(taskId: TaskId, section: Section, index: nat)

  datatype UndoKind = CompleteBoard | CompleteFocus

  /** The single pending undo: which completion, the task as it was, and
      where it came from; a focus completion also records the timer. */
  datatype UndoAction = UndoAction(
    kind: UndoKind,
    task: Task,
    sourceSection: Section,
    sourceIndex: int,
    previousActiveTaskId: Option<TaskId>,
    previousTimerSeconds: Option<nat>,
    previousIsRunning: Option<bool>)
}
