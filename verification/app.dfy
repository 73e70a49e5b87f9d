/** The board's handlers: moving, adding, completing, demoting and
    un-completing tasks, and turning a finished meeting into new tasks. The
    remote `tasks` table is a map from id to row that each handler writes;
    the handlers read the client's lists, which change only through the
    fetch and the realtime events. */
module App {
  import opened Types
  import opened TaskList
  import opened MeetingMode
  import TaskSection
  import TaskCard

  // ---------------------------------------------------------------------
  // Section names and list types

  /** `reverseMapListType`: the section a stored list type is shown in. */
  function ReverseMapListType(lt: ListType): (s: Section)
    ensures s == ParkingSection <==> lt == ParkingLot
    ensures s == NowSection <==> lt == Now
  {
    match lt
    case Now => NowSection
    case Today => TodaySection
    case ParkingLot => ParkingSection
  }

  /** `mapListType`: the stored list type of a section; mapping back gives
      the section again. */
  function MapListType(s: Section): (lt: ListType)
    ensures ReverseMapListType(lt) == s
  {
    match s
    case NowSection => Now
    case TodaySection => Today
    case ParkingSection => ParkingLot
  }

  /** The two maps are inverse bijections, and only the Parking Lot is
      spelled differently in the store. */
  lemma ListTypeRoundTrip(lt: ListType, s: Section)
    ensures MapListType(ReverseMapListType(lt)) == lt
    ensures MapListType(s) == ParkingLot <==> s == ParkingSection
  {
  }

  // ---------------------------------------------------------------------
  // The store

  type Store = map<TaskId, TaskRow>

  /** An update by id: the row with the id, if there is one, gets the patch;
      no other row changes and no row appears or disappears. */
  function UpdateWhere(store: Store, id: TaskId, p: TaskPatch): (r: Store)
    ensures r.Keys == store.Keys
    ensures id in store ==> r[id] == ApplyPatch(store[id], p)
    ensures forall k :: k in store && k != id ==> r[k] == store[k]
  {
    if id in store then store[id := ApplyPatch(store[id], p)] else store
  }

  function PositionPatch(position: int): TaskPatch {
    TaskPatch(None, None, None, Some(position), None)
  }

  /** The write of the remote `moveTask`: list type and position. */
  function MovePatch(lt: ListType, position: int): TaskPatch {
    TaskPatch(None, None, Some(lt), Some(position), None)
  }

  const CompletePatch: TaskPatch := TaskPatch(None, None, None, None, Some(true))

  // ---------------------------------------------------------------------
  // The three lists as the board sees them

  function ListOf(tasks: seq<Task>, s: Section): seq<Task> {
    ByList(tasks, MapListType(s))
  }

  /** NOW, then Today, then the Parking Lot: where the handlers look a task
      up. */
  function AllLists(tasks: seq<Task>): seq<Task> {
    ByList(tasks, Now) + ByList(tasks, Today) + ByList(tasks, ParkingLot)
  }

  /** No two tasks share an id. */
  predicate DistinctIds(tasks: seq<Task>) {
    forall i, j :: 0 <= i < j < |tasks| ==> tasks[i].id != tasks[j].id
  }

  predicate Distinct<T(==)>(s: seq<T>) {
    forall i, j :: 0 <= i < j < |s| ==> s[i] != s[j]
  }

  /** The ids of a list, in order. */
  function Ids(tasks: seq<Task>): (r: seq<TaskId>)
    ensures |r| == |tasks| && forall i :: 0 <= i < |tasks| ==> r[i] == tasks[i].id
  {
    if tasks == [] then [] else [tasks[0].id] + Ids(tasks[1..])
  }

  /** The three lists together hold exactly the tasks of the list. */
  lemma AllListsPermutes(tasks: seq<Task>)
    ensures multiset(AllLists(tasks)) == multiset(tasks)
  {
    ByListPartition(tasks);
  }

  /** With distinct ids, looking a task up across the three lists finds
      exactly that task. */
  lemma FindsTheTask(tasks: seq<Task>, j: nat)
    requires DistinctIds(tasks) && j < |tasks|
    ensures FindById(AllLists(tasks), tasks[j].id) == Some(tasks[j])
  {
    var all := AllLists(tasks);
    AllListsPermutes(tasks);
    assert tasks[j] in multiset(all);
    var k := IndexOf(all, tasks[j].id);
    assert k >= 0;
    var found := all[k];
    assert found in multiset(tasks);
    var m :| 0 <= m < |tasks| && tasks[m] == found;
    assert m == j;
  }

  /** A task found across the three lists is a task of the list. */
  lemma FoundInTasks(tasks: seq<Task>, id: TaskId)
    ensures FindById(AllLists(tasks), id).Some? ==> exists i :: 0 <= i < |tasks| && tasks[i].id == id
  {
    var found := FindById(AllLists(tasks), id);
    if found.Some? {
      AllListsPermutes(tasks);
      assert found.value in multiset(AllLists(tasks));
      assert found.value in tasks;
    }
  }

  /** A task that no list holds is not found. */
  lemma FindsNothing(tasks: seq<Task>, id: TaskId)
    requires forall i :: 0 <= i < |tasks| ==> tasks[i].id != id
    ensures FindById(AllLists(tasks), id).None?
  {
    FoundInTasks(tasks, id);
  }

  /** A list of a distinct-id task list has distinct ids, and holds the
      tasks of its type. */
  lemma {:induction false} ByListDistinct(tasks: seq<Task>, lt: ListType)
    requires DistinctIds(tasks)
    ensures DistinctIds(ByList(tasks, lt))
  {
    if tasks != [] {
      var rest := ByList(tasks[1..], lt);
      ByListDistinct(tasks[1..], lt);
      ByListCounts(tasks[1..], lt);
      forall i | 0 <= i < |rest|
        ensures rest[i].id != tasks[0].id
      {
        assert rest[i] in multiset(rest);
        assert rest[i] in tasks[1..];
      }
      var head := if tasks[0].listType == lt then [tasks[0]] else [];
      assert ByList(tasks, lt) == head + rest;
    }
  }

  // ---------------------------------------------------------------------
  // Reordering within a list

  function RemoveAt<T>(s: seq<T>, i: nat): seq<T>
    requires i < |s|
  {
    s[..i] + s[i + 1..]
  }

  /** The two splices of a reorder: take the element out of `from`, insert
      it at `to` (an index past the end inserts it last). The result is a
      permutation with the element at the clamped index and every other
      element in its old relative order. */
  function Reorder<T>(s: seq<T>, from: nat, to: nat): (r: seq<T>)
    requires from < |s|
    ensures |r| == |s|
    ensures multiset(r) == multiset(s)
    ensures var k := if to < |s| - 1 then to else |s| - 1;
      r[k] == s[from] && RemoveAt(r, k) == RemoveAt(s, from)
  {
    var rest := RemoveAt(s, from);
    var k := if to < |rest| then to else |rest|;
    var r := rest[..k] + [s[from]] + rest[k..];
    assert s == s[..from] + [s[from]] + s[from + 1..];
    assert multiset(s) == multiset(rest) + multiset{s[from]};
    assert rest == rest[..k] + rest[k..];
    assert multiset(r) == multiset(rest[..k]) + multiset{s[from]} + multiset(rest[k..]);
    assert r[k] == s[from];
    assert r[..k] == rest[..k] && r[k + 1..] == rest[k..];
    r
  }

  /** Where the element at index `i` of a reorder came from. */
  function ReorderSource(from: nat, k: nat, i: nat): nat {
    if i < k then (if i < from then i else i + 1)
    else if i == k then from
    else if i - 1 < from then i - 1
    else i
  }

  /** Each element of a reorder is the element of the list at its source
      index. */
  lemma ReorderFrom<T>(s: seq<T>, from: nat, to: nat, i: nat)
    requires from < |s| && i < |s|
    ensures var k := if to < |s| - 1 then to else |s| - 1;
      ReorderSource(from, k, i) < |s| && Reorder(s, from, to)[i] == s[ReorderSource(from, k, i)]
  {
    var rest := RemoveAt(s, from);
    var k := if to < |rest| then to else |rest|;
    var r := Reorder(s, from, to);
    assert r == rest[..k] + [s[from]] + rest[k..];
    assert |rest| == |s| - 1;
    if i < k {
      assert r[i] == rest[i];
      assert rest[i] == if i < from then s[i] else s[i + 1];
    } else if i > k {
      assert r[i] == rest[i - 1];
      assert rest[i - 1] == if i - 1 < from then s[i - 1] else s[i];
    }
  }

  /** Distinct indices come from distinct source indices. */
  lemma ReorderSourceInjective(from: nat, k: nat, i: nat, j: nat)
    requires i < j
    ensures ReorderSource(from, k, i) != ReorderSource(from, k, j)
  {
  }

  /** Reordering keeps ids distinct. */
  lemma ReorderKeepsDistinctIds(s: seq<Task>, from: nat, to: nat)
    requires from < |s| && DistinctIds(s)
    ensures DistinctIds(Reorder(s, from, to))
  {
    var r := Reorder(s, from, to);
    var k := if to < |s| - 1 then to else |s| - 1;
    forall i, j | 0 <= i < j < |r|
      ensures r[i].id != r[j].id
    {
      ReorderFrom(s, from, to, i);
      ReorderFrom(s, from, to, j);
      ReorderSourceInjective(from, k, i, j);
    }
  }

  // ---------------------------------------------------------------------
  // Renumbering

  /** The position loop after it has handled `order`: each id in turn is
      written its index as position. */
  function WritePositions(store: Store, order: seq<TaskId>): (r: Store)
    ensures r.Keys == store.Keys
  {
    if order == [] then store
    else UpdateWhere(WritePositions(store, order[..|order| - 1]), order[|order| - 1], PositionPatch(|order| - 1))
  }

  /** With distinct ids, every listed row ends with its index as position,
      and no other row changes. */
  lemma {:induction false} WritePositionsEffect(store: Store, order: seq<TaskId>)
    requires Distinct(order)
    ensures forall i :: 0 <= i < |order| && order[i] in store ==>
      WritePositions(store, order)[order[i]] == store[order[i]].(position := i)
    ensures forall k :: k in store && k !in order ==> WritePositions(store, order)[k] == store[k]
  {
    if order != [] {
      var n := |order| - 1;
      var init := order[..n];
      WritePositionsEffect(store, init);
      assert forall i :: 0 <= i < n ==> init[i] == order[i] && order[i] != order[n];
      assert order[n] !in init;
      assert forall k :: k !in order ==> k !in init && k != order[n];
    }
  }

  // ---------------------------------------------------------------------
  // Moving a task

  /** What `moveTask` writes: nothing, the positions of a reordered list,
      or a new list type and position for one task. */
  datatype MovePlan =
    | Unchanged
    | Renumber(order: seq<TaskId>)
    | Relocate(taskId: TaskId, listType: ListType, position: int)

  /** The index a move aims at: the end of the target list for the
      `EndOfList` sentinel, the given index otherwise. */
  function ResolveIndex(targetIndex: nat, targetList: seq<Task>): (k: nat)
    ensures targetIndex == EndOfList ==> k == |targetList|
    ensures targetIndex != EndOfList ==> k == targetIndex
  {
    if targetIndex == EndOfList then |targetList| else targetIndex
  }

  /** `moveTask`'s decisions, from the client's lists: unknown tasks and
      moves into a full NOW from elsewhere are dropped; a move within a list
      that changes the index reorders the list and renumbers it; a move to
      another list relocates the task. */
  function PlanMove(tasks: seq<Task>, taskId: TaskId, targetSection: Section, targetIndex: nat): (plan: MovePlan)
    ensures plan.Renumber? ==> |plan.order| == |ListOf(tasks, targetSection)|
    ensures plan.Relocate? ==> plan.taskId == taskId && plan.listType == MapListType(targetSection)
  {
    match FindById(AllLists(tasks), taskId)
    case None => Unchanged
    case Some(task) =>
      if targetSection == NowSection && |ByList(tasks, Now)| >= NowCapacity && task.listType != Now then Unchanged
      else
        var target := MapListType(targetSection);
        var targetList := ByList(tasks, target);
        var finalIndex := ResolveIndex(targetIndex, targetList);
        if task.listType == target then
          var currentIndex := IndexOf(targetList, taskId);
          if currentIndex == -1 || currentIndex == finalIndex then Unchanged
          else Renumber(Ids(Reorder(targetList, currentIndex, finalIndex)))
        else Relocate(taskId, target, finalIndex)
  }

  /** The store after the plan's writes. */
  function ApplyPlan(store: Store, plan: MovePlan): (r: Store)
    ensures r.Keys == store.Keys
  {
    match plan
    case Unchanged => store
    case Renumber(order) => WritePositions(store, order)
    case Relocate(id, lt, position) => UpdateWhere(store, id, MovePatch(lt, position))
  }

  /** Moving a task the lists do not hold writes nothing. */
  lemma MoveUnknownTaskChangesNothing(store: Store, tasks: seq<Task>, taskId: TaskId, targetSection: Section, targetIndex: nat)
    requires forall i :: 0 <= i < |tasks| ==> tasks[i].id != taskId
    ensures ApplyPlan(store, PlanMove(tasks, taskId, targetSection, targetIndex)) == store
  {
    FindsNothing(tasks, taskId);
  }

  /** A move into NOW from another list while NOW holds three tasks writes
      nothing. */
  lemma MoveIntoFullNowRefused(store: Store, tasks: seq<Task>, taskId: TaskId, targetIndex: nat)
    requires |ByList(tasks, Now)| >= NowCapacity
    requires forall i :: 0 <= i < |tasks| && tasks[i].id == taskId ==> tasks[i].listType != Now
    ensures ApplyPlan(store, PlanMove(tasks, taskId, NowSection, targetIndex)) == store
  {
    var found := FindById(AllLists(tasks), taskId);
    if found.Some? {
      AllListsPermutes(tasks);
      assert found.value in multiset(tasks);
    }
  }

  /** Within its own list, the task is found at its index there, and the
      plan is a renumbering of the reordered list unless the index does not
      change. */
  lemma PlanWithinList(tasks: seq<Task>, j: nat, targetSection: Section, targetIndex: nat)
    requires DistinctIds(tasks) && j < |tasks|
    requires tasks[j].listType == MapListType(targetSection)
    ensures var list := ListOf(tasks, targetSection);
      var from := IndexOf(list, tasks[j].id);
      var final := ResolveIndex(targetIndex, list);
      && 0 <= from < |list| && list[from] == tasks[j] && DistinctIds(list)
      && PlanMove(tasks, tasks[j].id, targetSection, targetIndex)
         == if from == final then Unchanged else Renumber(Ids(Reorder(list, from, final)))
  {
    FindsTheTask(tasks, j);
    FoundInOwnList(tasks, j, MapListType(targetSection));
    PlanForFoundTask(tasks, tasks[j], targetSection, targetIndex);
  }

  /** A task with a distinct id sits in its own list at the index `IndexOf`
      reports. */
  lemma FoundInOwnList(tasks: seq<Task>, j: nat, lt: ListType)
    requires DistinctIds(tasks) && j < |tasks| && tasks[j].listType == lt
    ensures var list := ByList(tasks, lt); var from := IndexOf(list, tasks[j].id);
      0 <= from < |list| && list[from] == tasks[j] && DistinctIds(list)
  {
    var list := ByList(tasks, lt);
    ByListCounts(tasks, lt);
    assert tasks[j] in multiset(list);
    var m :| 0 <= m < |list| && list[m] == tasks[j];
    ByListDistinct(tasks, lt);
    assert IndexOf(list, tasks[j].id) == m;
  }

  /** `moveTask` on a task found in the target's own list: unchanged when the
      index stays, a renumbering of the reordered list otherwise. */
  lemma PlanForFoundTask(tasks: seq<Task>, task: Task, targetSection: Section, targetIndex: nat)
    requires FindById(AllLists(tasks), task.id) == Some(task)
    requires task.listType == MapListType(targetSection)
    requires var list := ListOf(tasks, targetSection); 0 <= IndexOf(list, task.id) < |list|
    ensures var list := ListOf(tasks, targetSection);
      var from := IndexOf(list, task.id);
      var final := ResolveIndex(targetIndex, list);
      PlanMove(tasks, task.id, targetSection, targetIndex)
        == if from == final then Unchanged else Renumber(Ids(Reorder(list, from, final)))
  {
  }

  /** Renumbering a reordered list of distinct ids writes each task its new
      index as position and touches no row outside the list. */
  lemma RenumberEffect(store: Store, list: seq<Task>, from: nat, final: nat)
    requires from < |list| && DistinctIds(list)
    ensures var r := Reorder(list, from, final);
      var after := ApplyPlan(store, Renumber(Ids(r)));
      && (forall i :: 0 <= i < |r| && r[i].id in store ==> after[r[i].id] == store[r[i].id].(position := i))
      && (forall key :: key in store && (forall i :: 0 <= i < |list| ==> list[i].id != key) ==> after[key] == store[key])
  {
    var r := Reorder(list, from, final);
    ReorderKeepsDistinctIds(list, from, final);
    var order := Ids(r);
    assert Distinct(order);
    WritePositionsEffect(store, order);
    forall key | key in store && (forall i :: 0 <= i < |list| ==> list[i].id != key)
      ensures key !in order
    {
      forall i | 0 <= i < |r|
        ensures order[i] != key
      {
        ReorderFrom(list, from, final, i);
      }
    }
    assert ApplyPlan(store, Renumber(order)) == WritePositions(store, order);
  }

  /** A move within the task's own list (NOW included, full or not): the
      same index writes nothing; any other index reorders the list so that
      the task sits at the resolved index (the last place, for an index past
      the end), the other tasks keep their order, and every task of the
      list is written its new index as position. No other row changes. */
  lemma MoveWithinList(store: Store, tasks: seq<Task>, j: nat, targetSection: Section, targetIndex: nat)
    requires DistinctIds(tasks) && j < |tasks|
    requires tasks[j].listType == MapListType(targetSection)
    ensures var list := ListOf(tasks, targetSection);
      var from := IndexOf(list, tasks[j].id);
      var final := ResolveIndex(targetIndex, list);
      var after := ApplyPlan(store, PlanMove(tasks, tasks[j].id, targetSection, targetIndex));
      && 0 <= from < |list| && list[from] == tasks[j]
      && (from == final ==> after == store)
      && (from != final ==>
           var r := Reorder(list, from, final);
           var k := if final < |list| - 1 then final else |list| - 1;
           && r[k] == tasks[j] && RemoveAt(r, k) == RemoveAt(list, from)
           && (forall i :: 0 <= i < |r| && r[i].id in store ==> after[r[i].id] == store[r[i].id].(position := i))
           && (forall key :: key in store && (forall i :: 0 <= i < |list| ==> list[i].id != key) ==> after[key] == store[key]))
  {
    PlanWithinList(tasks, j, targetSection, targetIndex);
    var list := ListOf(tasks, targetSection);
    var from := IndexOf(list, tasks[j].id);
    var final := ResolveIndex(targetIndex, list);
    var plan := PlanMove(tasks, tasks[j].id, targetSection, targetIndex);
    if from != final {
      var r := Reorder(list, from, final);
      assert plan == Renumber(Ids(r));
      RenumberEffect(store, list, from, final);
    } else {
      assert plan == Unchanged;
    }
  }

  /** A move to another list (allowed unless it enters a full NOW) writes
      the target list type and the resolved index to that task alone; no
      other task is renumbered. */
  lemma MoveAcrossLists(store: Store, tasks: seq<Task>, j: nat, targetSection: Section, targetIndex: nat)
    requires DistinctIds(tasks) && j < |tasks|
    requires tasks[j].listType != MapListType(targetSection)
    requires targetSection == NowSection ==> |ByList(tasks, Now)| < NowCapacity
    ensures var id := tasks[j].id;
      var after := ApplyPlan(store, PlanMove(tasks, id, targetSection, targetIndex));
      var final := ResolveIndex(targetIndex, ListOf(tasks, targetSection));
      && (id in store ==> after[id] == store[id].(listType := MapListType(targetSection), position := final))
      && (forall key :: key in store && key != id ==> after[key] == store[key])
      && after.Keys == store.Keys
  {
    FindsTheTask(tasks, j);
  }

  /** A quick move (the sentinel index) and a drop on the section itself
      (the list's length) make the same move. */
  lemma QuickMoveIsDropOnSection(tasks: seq<Task>, taskId: TaskId, targetSection: Section)
    ensures PlanMove(tasks, taskId, targetSection, EndOfList)
         == PlanMove(tasks, taskId, targetSection, |ListOf(tasks, targetSection)|)
  {
  }

  /** As the board is wired, a card released over a card of its own list
      is received by the section's drop target, not the card's: the
      request is for index `tasks.length` whichever card it was released
      over (refused only in a full NOW), so the task moves to the last
      place of its list. The card's own handler would have asked for that
      card's index. */
  lemma DragOverCardGoesToEnd(store: Store, tasks: seq<Task>, j: nat, section: Section, maxTasks: Option<nat>, over: nat)
    requires DistinctIds(tasks) && j < |tasks|
    requires tasks[j].listType == MapListType(section)
    requires over < |ListOf(tasks, section)|
    ensures var list := ListOf(tasks, section);
      var req := TaskSection.DropOnSection(tasks[j].id, section, list, maxTasks);
      && (req.None? <==> section == NowSection && TaskSection.IsFull(|list|, maxTasks))
      && (req.Some? ==> req.value.index == |list|)
      && (list[over].id != tasks[j].id ==> req != TaskCard.DropOnCard(tasks[j].id, list[over], section, over))
    ensures var list := ListOf(tasks, section);
      var from := IndexOf(list, tasks[j].id);
      && 0 <= from < |list|
      && var r := Reorder(list, from, |list|);
         var after := ApplyPlan(store, PlanMove(tasks, tasks[j].id, section, |list|));
         && r[|list| - 1] == tasks[j] && RemoveAt(r, |list| - 1) == RemoveAt(list, from)
         && (forall i :: 0 <= i < |r| && r[i].id in store ==> after[r[i].id] == store[r[i].id].(position := i))
  {
    var list := ListOf(tasks, section);
    assert ResolveIndex(|list|, list) == |list|;
    MoveWithinList(store, tasks, j, section, |list|);
  }

  // ---------------------------------------------------------------------
  // New tasks

  /** The largest position of a non-empty list. */
  function MaxPosition(list: seq<Task>): (m: int)
    requires list != []
    ensures forall i :: 0 <= i < |list| ==> list[i].position <= m
    ensures exists i :: 0 <= i < |list| && list[i].position == m
  {
    if |list| == 1 then list[0].position
    else
      var m := MaxPosition(list[1..]);
      assert forall i :: 1 <= i < |list| ==> list[i] == list[1..][i - 1];
      if list[0].position >= m then list[0].position else m
  }

  /** The position a new task gets at the end of a list: 0 for an empty
      list, otherwise one past the largest position, so strictly after
      every task already there. */
  function NextPosition(list: seq<Task>): (p: int)
    ensures list == [] ==> p == 0
    ensures forall i :: 0 <= i < |list| ==> list[i].position < p
    ensures list != [] ==> exists i :: 0 <= i < |list| && p == list[i].position + 1
  {
    if list == [] then 0 else MaxPosition(list) + 1
  }

  /** The rows the end of a meeting inserts into one list: the drafts in
      order, at consecutive positions from `start`. */
  function InsertDrafts(store: Store, drafts: seq<Draft>, ids: seq<TaskId>, lt: ListType, start: int): Store
    requires |ids| == |drafts|
  {
    if drafts == [] then store
    else
      var n := |drafts| - 1;
      InsertDrafts(store, drafts[..n], ids[..n], lt, start)[ids[n] := TaskRow(ids[n], drafts[n].title, drafts[n].note, lt, start + n, false)]
  }

  /** Inserting drafts makes every id a key, loses no key and adds no other
      key. */
  lemma {:induction false} InsertDraftsKeys(store: Store, drafts: seq<Draft>, ids: seq<TaskId>, lt: ListType, start: int)
    requires |ids| == |drafts|
    ensures forall i :: 0 <= i < |ids| ==> ids[i] in InsertDrafts(store, drafts, ids, lt, start)
    ensures forall k :: k in store ==> k in InsertDrafts(store, drafts, ids, lt, start)
    ensures forall k :: k in InsertDrafts(store, drafts, ids, lt, start) ==> k in store || k in ids
  {
    if drafts != [] {
      var n := |drafts| - 1;
      InsertDraftsKeys(store, drafts[..n], ids[..n], lt, start);
      assert forall i :: 0 <= i < n ==> ids[..n][i] == ids[i];
      assert forall k :: k in ids[..n] ==> k in ids;
    }
  }

  /** One more draft: the store after `i + 1` drafts is the store after
      `i` with draft `i` written at position `start + i`. */
  lemma InsertDraftsStep(store: Store, drafts: seq<Draft>, ids: seq<TaskId>, lt: ListType, start: int, i: nat)
    requires |ids| == |drafts| && i < |drafts|
    ensures InsertDrafts(store, drafts[..i + 1], ids[..i + 1], lt, start)
         == InsertDrafts(store, drafts[..i], ids[..i], lt, start)[ids[i] := TaskRow(ids[i], drafts[i].title, drafts[i].note, lt, start + i, false)]
  {
    assert drafts[..i + 1][..i] == drafts[..i] && ids[..i + 1][..i] == ids[..i];
    assert drafts[..i + 1][i] == drafts[i] && ids[..i + 1][i] == ids[i];
  }

  /** With distinct ids, draft `i` becomes an uncompleted row of the list at
      position `start + i`, with its title and note, and the other rows are
      kept. */
  lemma {:induction false} InsertDraftsEffect(store: Store, drafts: seq<Draft>, ids: seq<TaskId>, lt: ListType, start: int)
    requires |ids| == |drafts| && Distinct(ids)
    ensures forall i :: 0 <= i < |ids| ==> ids[i] in InsertDrafts(store, drafts, ids, lt, start)
    ensures forall k :: k in store ==> k in InsertDrafts(store, drafts, ids, lt, start)
    ensures forall i :: 0 <= i < |ids| ==>
      InsertDrafts(store, drafts, ids, lt, start)[ids[i]] == TaskRow(ids[i], drafts[i].title, drafts[i].note, lt, start + i, false)
    ensures forall k :: k in store && k !in ids ==> InsertDrafts(store, drafts, ids, lt, start)[k] == store[k]
  {
    if drafts != [] {
      var n := |drafts| - 1;
      var prev := InsertDrafts(store, drafts[..n], ids[..n], lt, start);
      InsertDraftsKeys(store, drafts, ids, lt, start);
      InsertDraftsEffect(store, drafts[..n], ids[..n], lt, start);
      forall i | 0 <= i < n
        ensures InsertDrafts(store, drafts, ids, lt, start)[ids[i]] == TaskRow(ids[i], drafts[i].title, drafts[i].note, lt, start + i, false)
      {
        assert ids[..n][i] == ids[i] && drafts[..n][i] == drafts[i] && ids[i] != ids[n];
      }
      forall k | k in store && k !in ids
        ensures InsertDrafts(store, drafts, ids, lt, start)[k] == store[k]
      {
        assert k !in ids[..n] && k != ids[n];
      }
    }
  }

  /** The store after ending a meeting: the Today drafts after the Today
      list, then the Parking Lot drafts after the Parking Lot. */
  function EndMeetingStore(store: Store, tasks: seq<Task>, today: seq<Draft>, parking: seq<Draft>, todayIds: seq<TaskId>, parkingIds: seq<TaskId>): Store
    requires |todayIds| == |today| && |parkingIds| == |parking|
  {
    InsertDrafts(
      InsertDrafts(store, today, todayIds, Today, NextPosition(ByList(tasks, Today))),
      parking, parkingIds, ParkingLot, NextPosition(ByList(tasks, ParkingLot)))
  }

  /** Ending a meeting with fresh ids: every Today draft becomes a Today row
      at consecutive positions after the Today list, every Parking Lot draft
      likewise, each with its title and note as typed; existing rows are
      kept, and no other row appears. */
  lemma EndMeetingEffect(store: Store, tasks: seq<Task>, today: seq<Draft>, parking: seq<Draft>, todayIds: seq<TaskId>, parkingIds: seq<TaskId>)
    requires |todayIds| == |today| && |parkingIds| == |parking|
    requires Distinct(todayIds + parkingIds)
    requires forall k :: k in todayIds || k in parkingIds ==> k !in store
    ensures var t0 := NextPosition(ByList(tasks, Today));
      var p0 := NextPosition(ByList(tasks, ParkingLot));
      var after := EndMeetingStore(store, tasks, today, parking, todayIds, parkingIds);
      && (forall i :: 0 <= i < |today| ==> todayIds[i] in after)
      && (forall i :: 0 <= i < |parking| ==> parkingIds[i] in after)
      && (forall k :: k in store ==> k in after)
      && (forall i :: 0 <= i < |today| ==> after[todayIds[i]] == TaskRow(todayIds[i], today[i].title, today[i].note, Today, t0 + i, false))
      && (forall i :: 0 <= i < |parking| ==> after[parkingIds[i]] == TaskRow(parkingIds[i], parking[i].title, parking[i].note, ParkingLot, p0 + i, false))
      && (forall k :: k in store ==> after[k] == store[k])
      && (forall k :: k in after ==> k in store || k in todayIds || k in parkingIds)
  {
    var t0 := NextPosition(ByList(tasks, Today));
    var p0 := NextPosition(ByList(tasks, ParkingLot));
    DistinctAppend(todayIds, parkingIds);
    var mid := InsertDrafts(store, today, todayIds, Today, t0);
    InsertDraftsEffect(store, today, todayIds, Today, t0);
    InsertDraftsEffect(mid, parking, parkingIds, ParkingLot, p0);
    InsertDraftsKeys(store, today, todayIds, Today, t0);
    InsertDraftsKeys(mid, parking, parkingIds, ParkingLot, p0);
  }

  /** The two halves of a sequence without repeats have none, and share no
      element. */
  lemma DistinctAppend<T>(a: seq<T>, b: seq<T>)
    requires Distinct(a + b)
    ensures Distinct(a) && Distinct(b)
    ensures forall i :: 0 <= i < |a| ==> a[i] !in b
  {
    var all := a + b;
    assert forall i :: 0 <= i < |a| ==> all[i] == a[i];
    assert forall i :: 0 <= i < |b| ==> all[|a| + i] == b[i];
    forall i | 0 <= i < |a|
      ensures a[i] !in b
    {
      forall m | 0 <= m < |b|
        ensures b[m] != a[i]
      {
        assert all[i] != all[|a| + m];
      }
    }
  }

  // ---------------------------------------------------------------------
  // Completion and undo

  /** The undo record of a completion from the board: the task, the section
      of its list and its position. */
  function BoardUndo(task: Task): (u: UndoAction)
    ensures u.kind == CompleteBoard && u.task == task
    ensures MapListType(u.sourceSection) == task.listType && u.sourceIndex == task.position
    ensures u.previousActiveTaskId.None? && u.previousTimerSeconds.None? && u.previousIsRunning.None?
  {
    UndoAction(CompleteBoard, task, ReverseMapListType(task.listType), task.position, None, None, None)
  }

  /** The undo record of a completion from the focus panel: from NOW, with
      the timer as it stood. */
  function FocusUndo(task: Task, timerSeconds: nat, isRunning: bool): (u: UndoAction)
    ensures u.kind == CompleteFocus && u.task == task
    ensures MapListType(u.sourceSection) == Now && u.sourceIndex == task.position
    ensures u.previousActiveTaskId == Some(task.id)
    ensures u.previousTimerSeconds == Some(timerSeconds) && u.previousIsRunning == Some(isRunning)
  {
    UndoAction(CompleteFocus, task, NowSection, task.position, Some(task.id), Some(timerSeconds), Some(isRunning))
  }

  /** What undo writes: not completed, back in the recorded list at the
      recorded position. */
  function UndoPatch(u: UndoAction): (p: TaskPatch)
    ensures forall row ::
      ApplyPatch(row, p) == row.(listType := MapListType(u.sourceSection), position := u.sourceIndex, isCompleted := false)
  {
    TaskPatch(None, None, Some(MapListType(u.sourceSection)), Some(u.sourceIndex), Some(false))
  }

  /** Undoing a completion from the board puts the stored row back as it
      was, when the board's copy of the task matched the store. */
  lemma UndoRevertsBoardCompletion(store: Store, task: Task)
    requires task.id in store && store[task.id] == RowOf(task) && !task.isCompleted
    ensures UpdateWhere(UpdateWhere(store, task.id, CompletePatch), task.id, UndoPatch(BoardUndo(task))) == store
  {
    ListTypeRoundTrip(task.listType, NowSection);
    var after := UpdateWhere(UpdateWhere(store, task.id, CompletePatch), task.id, UndoPatch(BoardUndo(task)));
    assert after[task.id] == store[task.id];
  }

  /** Undoing a completion from the focus panel does the same for a NOW
      task. */
  lemma UndoRevertsFocusCompletion(store: Store, task: Task, timerSeconds: nat, isRunning: bool)
    requires task.id in store && store[task.id] == RowOf(task) && !task.isCompleted && task.listType == Now
    ensures UpdateWhere(UpdateWhere(store, task.id, CompletePatch), task.id, UndoPatch(FocusUndo(task, timerSeconds, isRunning))) == store
  {
    var after := UpdateWhere(UpdateWhere(store, task.id, CompletePatch), task.id, UndoPatch(FocusUndo(task, timerSeconds, isRunning)));
    assert after[task.id] == store[task.id];
  }

  /** Undo takes the completed task back off the local completed list. */
  lemma UndoRevertsCompletedList(completed: seq<Task>, task: Task)
    requires forall i :: 0 <= i < |completed| ==> completed[i].id != task.id
    ensures RemoveById(completed + [task.(isCompleted := true)], task.id) == completed
  {
    RemoveByIdAppend(completed, [task.(isCompleted := true)], task.id);
    RemoveAbsentId(completed, task.id);
    assert RemoveById([task.(isCompleted := true)], task.id) == [];
  }

  // ---------------------------------------------------------------------
  // The board

  datatype ViewMode = BoardView | MeetingView

  /** The app's state: the remote table, the client's task list, and the
      local UI state the handlers update. */
  class Board {
    var store: Store
    var tasks: seq<Task>
    var activeTaskId: Option<TaskId>
    var undoAction: Option<UndoAction>
    var showUndoToast: bool
    var completedTasks: seq<Task>
    var viewMode: ViewMode
    var meetingItems: seq<MeetingItem>

    /** The undo toast shows only while an undo is pending, and a pending
        undo's task is on the completed list. */
    predicate Valid()
      reads this
    {
      && (showUndoToast ==> undoAction.Some?)
      && (undoAction.Some? ==> IndexOf(completedTasks, undoAction.value.task.id) >= 0)
    }

    constructor (store: Store)
      ensures this.store == store && tasks == [] && activeTaskId == None
      ensures undoAction == None && !showUndoToast && completedTasks == []
      ensures viewMode == BoardView && meetingItems == []
      ensures Valid()
    {
      this.store := store;
      tasks, activeTaskId := [], None;
      undoAction, showUndoToast, completedTasks := None, false, [];
      viewMode, meetingItems := BoardView, [];
    }

    /** `moveTask`: the plan's writes, the positions of a reorder written
        one by one in list order. */
    method MoveTask(taskId: TaskId, targetSection: Section, targetIndex: nat)
      modifies this`store
      ensures store == ApplyPlan(old(store), PlanMove(tasks, taskId, targetSection, targetIndex))
    {
      var plan := PlanMove(tasks, taskId, targetSection, targetIndex);
      match plan {
        case Unchanged =>
        case Renumber(order) =>
          WriteOrder(order);
        case Relocate(id, lt, position) =>
          store := UpdateWhere(store, id, MovePatch(lt, position));
      }
    }

    /** The position loop of `moveTask`: the task at each index of the
        reordered list is written that index as position. */
    method WriteOrder(order: seq<TaskId>)
      modifies this`store
      ensures store == WritePositions(old(store), order)
    {
      var i := 0;
      while i < |order|
        invariant 0 <= i <= |order|
        invariant store == WritePositions(old(store), order[..i])
      {
        assert order[..i + 1][..i] == order[..i] && order[..i + 1][i] == order[i];
        store := UpdateWhere(store, order[i], PositionPatch(i));
        i := i + 1;
      }
      assert order[..i] == order;
    }

    /** `updateTask`: the edit goes to the store as it is. */
    method UpdateTask(taskId: TaskId, patch: TaskPatch)
      modifies this`store
      ensures store == UpdateWhere(old(store), taskId, patch)
    {
      store := UpdateWhere(store, taskId, patch);
    }

    /** `addTask`: refused for NOW while it holds three tasks; otherwise a
        new uncompleted row with an empty note at the end of the section's
        list. */
    method AddTask(section: Section, title: string, newId: TaskId)
      requires newId !in store
      modifies this`store
      ensures section == NowSection && |ByList(tasks, Now)| >= NowCapacity ==> store == old(store)
      ensures !(section == NowSection && |ByList(tasks, Now)| >= NowCapacity) ==>
        store == old(store)[newId := TaskRow(newId, title, "", MapListType(section), NextPosition(ListOf(tasks, section)), false)]
    {
      if section == NowSection && |ByList(tasks, Now)| >= NowCapacity {
        return;
      }
      var position := NextPosition(ListOf(tasks, section));
      store := store[newId := TaskRow(newId, title, "", MapListType(section), position, false)];
    }

    /** `completeTaskFromBoard`: a task found in the lists is marked
        completed in the store and added to the completed list, the undo
        slot records where it was, and the active task is cleared if it was
        this one. An unknown id changes nothing. */
    method CompleteTaskFromBoard(taskId: TaskId)
      requires Valid()
      modifies this`store, this`completedTasks, this`undoAction, this`showUndoToast, this`activeTaskId
      ensures Valid()
      ensures FindById(AllLists(tasks), taskId).None? ==>
        && store == old(store) && completedTasks == old(completedTasks) && undoAction == old(undoAction)
        && showUndoToast == old(showUndoToast) && activeTaskId == old(activeTaskId)
      ensures FindById(AllLists(tasks), taskId).Some? ==>
        var task := FindById(AllLists(tasks), taskId).value;
        && completedTasks == old(completedTasks) + [task.(isCompleted := true)]
        && store == UpdateWhere(old(store), taskId, CompletePatch)
        && undoAction == Some(BoardUndo(task)) && showUndoToast
        && activeTaskId == (if old(activeTaskId) == Some(taskId) then None else old(activeTaskId))
    {
      var found := FindById(AllLists(tasks), taskId);
      if found.None? {
        return;
      }
      var task := found.value;
      completedTasks := completedTasks + [task.(isCompleted := true)];
      assert completedTasks[|completedTasks| - 1].id == taskId;
      store := UpdateWhere(store, taskId, CompletePatch);
      undoAction := Some(BoardUndo(task));
      showUndoToast := true;
      if activeTaskId == Some(taskId) {
        activeTaskId := None;
      }
    }

    /** `completeTaskFromFocus`: as from the board, for a NOW task, with the
        timer recorded for undo; the active task is always cleared. */
    method CompleteTaskFromFocus(taskId: TaskId, timerSeconds: nat, isRunning: bool)
      requires Valid()
      modifies this`store, this`completedTasks, this`undoAction, this`showUndoToast, this`activeTaskId
      ensures Valid()
      ensures FindById(ByList(tasks, Now), taskId).None? ==>
        && store == old(store) && completedTasks == old(completedTasks) && undoAction == old(undoAction)
        && showUndoToast == old(showUndoToast) && activeTaskId == old(activeTaskId)
      ensures FindById(ByList(tasks, Now), taskId).Some? ==>
        var task := FindById(ByList(tasks, Now), taskId).value;
        && completedTasks == old(completedTasks) + [task.(isCompleted := true)]
        && store == UpdateWhere(old(store), taskId, CompletePatch)
        && undoAction == Some(FocusUndo(task, timerSeconds, isRunning)) && showUndoToast
        && activeTaskId == None
    {
      var found := FindById(ByList(tasks, Now), taskId);
      if found.None? {
        return;
      }
      var task := found.value;
      completedTasks := completedTasks + [task.(isCompleted := true)];
      assert completedTasks[|completedTasks| - 1].id == taskId;
      store := UpdateWhere(store, taskId, CompletePatch);
      undoAction := Some(FocusUndo(task, timerSeconds, isRunning));
      showUndoToast := true;
      activeTaskId := None;
    }

    /** `handleUndo`: with nothing pending, nothing happens; otherwise the
        task is written back uncompleted to its recorded list and position
        (with no capacity check), leaves the completed list, becomes the
        active task again after a focus completion, and the slot and toast
        are cleared. */
    method HandleUndo()
      requires Valid()
      modifies this`store, this`completedTasks, this`undoAction, this`showUndoToast, this`activeTaskId
      ensures Valid()
      ensures old(undoAction).None? ==>
        && store == old(store) && completedTasks == old(completedTasks) && undoAction == old(undoAction)
        && showUndoToast == old(showUndoToast) && activeTaskId == old(activeTaskId)
      ensures old(undoAction).Some? ==>
        var u := old(undoAction).value;
        && store == UpdateWhere(old(store), u.task.id, UndoPatch(u))
        && completedTasks == RemoveById(old(completedTasks), u.task.id)
        && activeTaskId == (if u.kind == CompleteFocus then Some(u.task.id) else old(activeTaskId))
        && undoAction.None? && !showUndoToast
      ensures old(undoAction).Some? ==>
        |completedTasks| < |old(completedTasks)| && IndexOf(completedTasks, old(undoAction).value.task.id) == -1
    {
      if undoAction.None? {
        return;
      }
      var u := undoAction.value;
      RemovePresentId(completedTasks, u.task.id);
      store := UpdateWhere(store, u.task.id, UndoPatch(u));
      completedTasks := RemoveById(completedTasks, u.task.id);
      if u.kind == CompleteFocus {
        activeTaskId := Some(u.task.id);
      }
      undoAction := None;
      showUndoToast := false;
    }

    /** `handleDemoteTask`: a NOW task moves to the top of Today (position
        0, nothing renumbered) and stops being the active task. */
    method HandleDemoteTask(taskId: TaskId)
      modifies this`store, this`activeTaskId
      ensures FindById(ByList(tasks, Now), taskId).None? ==> store == old(store) && activeTaskId == old(activeTaskId)
      ensures FindById(ByList(tasks, Now), taskId).Some? ==>
        && store == UpdateWhere(old(store), taskId, MovePatch(Today, 0))
        && activeTaskId == (if old(activeTaskId) == Some(taskId) then None else old(activeTaskId))
    {
      if FindById(ByList(tasks, Now), taskId).None? {
        return;
      }
      store := UpdateWhere(store, taskId, MovePatch(Today, 0));
      if activeTaskId == Some(taskId) {
        activeTaskId := None;
      }
    }

    /** `handleEndMeeting`: insert the Today drafts one by one at
        consecutive positions after the Today list, then the Parking Lot
        drafts likewise; empty the meeting buffer and return to the
        board. */
    method HandleEndMeeting(todayItems: seq<Draft>, parkingItems: seq<Draft>, todayIds: seq<TaskId>, parkingIds: seq<TaskId>)
      requires |todayIds| == |todayItems| && |parkingIds| == |parkingItems|
      requires Distinct(todayIds + parkingIds)
      requires forall k :: k in todayIds || k in parkingIds ==> k !in store
      modifies this`store, this`meetingItems, this`viewMode
      ensures store == EndMeetingStore(old(store), tasks, todayItems, parkingItems, todayIds, parkingIds)
      ensures forall k :: k in old(store) ==> k in store && store[k] == old(store)[k]
      ensures meetingItems == [] && viewMode == BoardView
    {
      EndMeetingEffect(store, tasks, todayItems, parkingItems, todayIds, parkingIds);
      InsertAt(todayItems, todayIds, Today, NextPosition(ByList(tasks, Today)));
      InsertAt(parkingItems, parkingIds, ParkingLot, NextPosition(ByList(tasks, ParkingLot)));
      meetingItems := [];
      viewMode := BoardView;
    }

    /** One loop of `handleEndMeeting`: each draft is inserted in turn and
        the position counter moves on by one. */
    method InsertAt(drafts: seq<Draft>, ids: seq<TaskId>, lt: ListType, start: int)
      requires |ids| == |drafts|
      modifies this`store
      ensures store == InsertDrafts(old(store), drafts, ids, lt, start)
    {
      ghost var s0 := store;
      var position := start;
      var i := 0;
      while i < |drafts|
        invariant 0 <= i <= |drafts| && position == start + i
        invariant store == InsertDrafts(s0, drafts[..i], ids[..i], lt, start)
      {
        InsertDraftsStep(s0, drafts, ids, lt, start, i);
        store := store[ids[i] := TaskRow(ids[i], drafts[i].title, drafts[i].note, lt, position, false)];
        position := position + 1;
        i := i + 1;
      }
      assert drafts[..i] == drafts && ids[..i] == ids;
    }

    /** A realtime change to the tasks table reaches the client's list. */
    method OnTaskEvent(ev: TaskEvent)
      modifies this`tasks
      ensures tasks == ApplyTaskEvent(old(tasks), ev)
    {
      tasks := ApplyTaskEvent(tasks, ev);
    }

    /** A realtime change to the timer states reaches the client's list. */
    method OnTimerEvent(ev: TimerEvent)
      modifies this`tasks
      ensures tasks == ApplyTimerEvent(old(tasks), ev)
    {
      tasks := ApplyTimerEvent(tasks, ev);
    }

    /** `refetchTasks` for the signed-in user: the response replaces the
        client's list, or leaves it on an error. */
    method Refetch(resp: FetchResponse)
      modifies this`tasks
      ensures resp.Rows? ==> tasks == FromFetchedRows(resp.rows)
      ensures resp.FetchFailed? ==> tasks == old(tasks)
    {
      if resp.Rows? {
        tasks := FromFetchedRows(resp.rows);
      }
    }

    /** Choosing the task to focus on (or none). */
    method SetActiveTask(id: Option<TaskId>)
      modifies this`activeTaskId
      ensures activeTaskId == id
    {
      activeTaskId := id;
    }

    /** Dismissing the undo toast keeps the undo itself. */
    method DismissUndo()
      requires Valid()
      modifies this`showUndoToast
      ensures !showUndoToast && Valid()
    {
      showUndoToast := false;
    }

    /** The meeting buffer as the meeting view edits it. */
    method UpdateMeetingItems(items: seq<MeetingItem>)
      modifies this`meetingItems
      ensures meetingItems == items
    {
      meetingItems := items;
    }

    /** Switching between the board and the meeting view. */
    method SetViewMode(mode: ViewMode)
      modifies this`viewMode
      ensures viewMode == mode
    {
      viewMode := mode;
    }
  }
}
