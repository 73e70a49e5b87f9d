/** A task card on the board: dropping another card onto it, the quick-move
    buttons, the NOW-full rule for those buttons, and inline editing of the
    title and note. */
module TaskCard {
  import opened Types
  import opened Text
  import FocusPanel
  import TaskList
  import TaskSection

  /** The drop handler the card declares: a dragged card dropped on this
      card would ask to move to this card's section at this card's index,
      and dropped on itself would ask nothing. The card never attaches
      this drop target to an element (its root takes only the drag
      connector), so as the board is wired a card released over another
      card reaches the section's target instead; `App.DragOverCardGoesToEnd`
      states what that does. */
  function DropOnCard(draggedId: TaskId, card: Task, section: Section, index: nat): (r: Option<MoveRequest>)
    ensures r.None? <==> draggedId == card.id
    ensures r.Some? ==> r.value.taskId == draggedId && r.value.section == section && r.value.index == index
  {
    if draggedId != card.id then Some(MoveRequest(draggedId, section, index)) else None
  }

  /** `nowIsFull`: NOW holds its three tasks and this card is elsewhere.
      For a card outside NOW this is the NOW section's own `isFull` rule;
      a card already in NOW is never blocked by it. */
  predicate NowIsFull(nowTaskCount: nat, section: Section)
    ensures section == NowSection ==> !NowIsFull(nowTaskCount, section)
    ensures section != NowSection ==>
      (NowIsFull(nowTaskCount, section) <==> TaskSection.IsFull(nowTaskCount, Some(NowCapacity)))
  {
    nowTaskCount >= NowCapacity && section != NowSection
  }

  /** `hasPartialTime`: the task has a remaining time below the budget. For
      a fetched task, whose remaining time is `RemainingFor` its stored
      elapsed time, that is exactly when some time has elapsed. */
  predicate HasPartialTime(task: Task)
    ensures forall elapsed: int :: task.remainingTime == Some(TaskList.RemainingFor(elapsed)) ==>
      (HasPartialTime(task) <==> elapsed > 0)
  {
    task.remainingTime.Some? && task.remainingTime.value < FocusBudget
  }

  /** A card with partial time shows its focused time: "Just started" in
      the first minute, otherwise between 1 and 25 whole minutes. */
  lemma PartialTimeReading(task: Task)
    requires HasPartialTime(task)
    ensures var r := FocusPanel.FormatFocusedTime(task.remainingTime.value);
      r == "Just started" || (|r| > 12 && AllDigits(r[..|r| - 12]) && 1 <= DigitsValue(r[..|r| - 12]) <= FocusBudget / 60)
  {
    var rem := task.remainingTime.value;
    if rem <= FocusBudget - 60 {
      assert 60 <= FocusBudget - rem <= FocusBudget;
      assert 1 <= (FocusBudget - rem) / 60 <= FocusBudget / 60;
    }
  }

  /** The focused-time line under the title. Only a card in NOW with
      partial time shows it, and then it reads "Just started" or a count
      of 1 to 25 whole minutes. */
  function FocusedTimeLine(task: Task, section: Section): (r: Option<string>)
    ensures r.Some? <==> section == NowSection && HasPartialTime(task)
    ensures r.Some? ==> r.value == FocusPanel.FormatFocusedTime(task.remainingTime.value)
    ensures r.Some? ==>
      r.value == "Just started"
      || (|r.value| > 12 && r.value[|r.value| - 12..] == " min focused" && AllDigits(r.value[..|r.value| - 12])
          && 1 <= DigitsValue(r.value[..|r.value| - 12]) <= FocusBudget / 60)
  {
    if HasPartialTime(task) && section == NowSection then
      PartialTimeReading(task);
      Some(FocusPanel.FormatFocusedTime(task.remainingTime.value))
    else None
  }

  /** The quick-move buttons a card shows, by the section it sits in. */
  function QuickMoveTargets(section: Section): (r: seq<Section>)
    ensures section !in r
    ensures |r| >= 1 && forall i, j :: 0 <= i < j < |r| ==> r[i] != r[j]
  {
    match section
    case NowSection => [TodaySection]
    case TodaySection => [NowSection, ParkingSection]
    case ParkingSection => [TodaySection, NowSection]
  }

  /** A quick-move click: a button that is shown and enabled asks to move
      the card to the end of the target section (the `EndOfList` index);
      the "To NOW" button is disabled while `NowIsFull`. */
  function QuickMove(task: Task, section: Section, nowTaskCount: nat, target: Section): (r: Option<MoveRequest>)
    ensures r.Some? <==> target in QuickMoveTargets(section) && !(target == NowSection && NowIsFull(nowTaskCount, section))
    ensures r.Some? ==> r.value.taskId == task.id && r.value.section == target && r.value.index == EndOfList
  {
    if target in QuickMoveTargets(section) && !(target == NowSection && NowIsFull(nowTaskCount, section))
    then Some(MoveRequest(task.id, target, EndOfList))
    else None
  }

  /** Quick moves never ask to stay in place, and never ask to enter a full
      NOW. */
  lemma QuickMoveLeavesSection(task: Task, section: Section, nowTaskCount: nat, target: Section)
    requires QuickMove(task, section, nowTaskCount, target).Some?
    ensures target != section
    ensures target == NowSection ==> nowTaskCount < NowCapacity
  {
    assert section !in QuickMoveTargets(section);
  }

  /** What a save asks the board to write. */
  datatype UpdateRequest = UpdateRequest(taskId: TaskId, patch: TaskPatch)

  /** The card's edit state: whether the editor is open, and the two fields
      as typed. */
  class CardEditor {
    var isEditing: bool
    var editTitle: string
    var editNote: string

    constructor (task: Task)
      ensures !isEditing && editTitle == task.title && editNote == task.note
    {
      isEditing, editTitle, editNote := false, task.title, task.note;
    }

    /** A click on the card body opens the editor. */
    method StartEdit()
      modifies this
      ensures isEditing && editTitle == old(editTitle) && editNote == old(editNote)
    {
      isEditing := true;
    }

    /** Typing into the two fields. */
    method Edit(title: string, note: string)
      modifies this
      ensures isEditing == old(isEditing) && editTitle == title && editNote == note
    {
      editTitle, editNote := title, note;
    }

    /** `handleSave`: a title that is not blank once trimmed is sent with
        the note, both trimmed; a blank title sends nothing. The editor
        closes either way and the fields keep what was typed. */
    method Save(task: Task) returns (update: Option<UpdateRequest>)
      modifies this
      ensures !isEditing && editTitle == old(editTitle) && editNote == old(editNote)
      ensures update.Some? <==> !Blank(editTitle)
      ensures update.Some? ==> update.value == UpdateRequest(task.id, TaskPatch(Some(Trim(editTitle)), Some(Trim(editNote)), None, None, None))
      ensures update.Some? ==> var t := Trim(editTitle); t != [] && !IsTrimmable(t[0]) && !IsTrimmable(t[|t| - 1])
    {
      update := None;
      if !Blank(editTitle) {
        update := Some(UpdateRequest(task.id, TaskPatch(Some(Trim(editTitle)), Some(Trim(editNote)), None, None, None)));
      }
      isEditing := false;
    }

    /** `handleCancel`: the fields go back to the task's title and note and
        the editor closes. */
    method Cancel(task: Task)
      modifies this
      ensures !isEditing && editTitle == task.title && editNote == task.note
    {
      editTitle, editNote := task.title, task.note;
      isEditing := false;
    }
  }
}
