/** A section of the board (NOW, Today or Parking Lot): its capacity, what a
    drop onto it asks for, and the add-task input of Today and the Parking
    Lot. */
module TaskSection {
  import opened Types
  import opened Text

  /** `isFull`: the section has a maximum and holds at least that many. A
      section without a maximum never fills; NOW, whose maximum is three,
      is full from its third task on. */
  predicate IsFull(taskCount: nat, maxTasks: Option<nat>)
    ensures maxTasks.None? ==> !IsFull(taskCount, maxTasks)
    ensures maxTasks == Some(NowCapacity) ==> (IsFull(taskCount, maxTasks) <==> taskCount >= 3)
  {
    maxTasks.Some? && taskCount >= maxTasks.value
  }

  /** `canDrop`: every section accepts a drop except a full NOW. */
  predicate CanDrop(section: Section, isFull: bool)
    ensures section != NowSection ==> CanDrop(section, isFull)
    ensures section == NowSection ==> (CanDrop(section, isFull) <==> !isFull)
  {
    !isFull || section != NowSection
  }

  /** A card dropped on the section (not on a card) asks to move to the
      index just past the last task; a refused drop asks nothing. */
  function DropOnSection(draggedId: TaskId, section: Section, tasks: seq<Task>, maxTasks: Option<nat>): (r: Option<MoveRequest>)
    ensures r.None? <==> section == NowSection && IsFull(|tasks|, maxTasks)
    ensures r.Some? ==> r.value.taskId == draggedId && r.value.section == section && r.value.index == |tasks|
  {
    if CanDrop(section, IsFull(|tasks|, maxTasks)) then Some(MoveRequest(draggedId, section, |tasks|)) else None
  }

  /** The add-task control exists only outside NOW: in Today and in the
      Parking Lot. */
  predicate CanAdd(section: Section)
    ensures CanAdd(section) <==> section == TodaySection || section == ParkingSection
  {
    section != NowSection
  }

  /** What the adder asks the board to create. */
  datatype AddRequest = AddRequest(section: Section, title: string)

  /** The section's add-task input: whether it is open and what is typed. */
  class TaskAdder {
    var isAdding: bool
    var newTaskTitle: string

    constructor ()
      ensures !isAdding && newTaskTitle == ""
    {
      isAdding, newTaskTitle := false, "";
    }

    /** The "Add task" button, shown only where `CanAdd` holds. */
    method Open(section: Section)
      modifies this
      ensures isAdding == (old(isAdding) || CanAdd(section)) && newTaskTitle == old(newTaskTitle)
    {
      if CanAdd(section) {
        isAdding := true;
      }
    }

    /** Typing into the input. */
    method Edit(title: string)
      modifies this
      ensures isAdding == old(isAdding) && newTaskTitle == title
    {
      newTaskTitle := title;
    }

    /** `handleAddTask` (Enter or leaving the input): a title that is not
        blank once trimmed is sent as typed, untrimmed, and the input is
        cleared and closed; a blank one changes nothing. */
    method HandleAddTask(section: Section) returns (req: Option<AddRequest>)
      modifies this
      ensures req.Some? <==> !Blank(old(newTaskTitle))
      ensures req.Some? ==> req.value == AddRequest(section, old(newTaskTitle)) && newTaskTitle == "" && !isAdding
      ensures req.None? ==> newTaskTitle == old(newTaskTitle) && isAdding == old(isAdding)
    {
      req := None;
      if !Blank(newTaskTitle) {
        req := Some(AddRequest(section, newTaskTitle));
        newTaskTitle := "";
        isAdding := false;
      }
    }

    /** Escape: close the input and clear it. */
    method Escape()
      modifies this
      ensures !isAdding && newTaskTitle == ""
    {
      isAdding, newTaskTitle := false, "";
    }
  }
}
