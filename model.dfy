/** The board data of `KanbanBoard` (src/Components/kanbanBoard.tsx): the
    ordered columns, the ordered tasks, and the operations that compute a new
    column or task list from the old one. Each operation is pure; the state
    holder in module KanbanBoard assigns its result, as the component hands a
    new array to `setColumns` / `setTasks`. */
module KanbanModel {
  import opened Sequences
  import opened Decimal

  /** Identifiers of columns and tasks (numbers drawn by `generateId`). */
  type Id = int

  datatype Column = Column(id: Id, title: string)

  datatype Task = Task(id: Id, columnId: Id, content: string)

  function IdOfColumn(c: Column): Id { c.id }

  function IdOfTask(t: Task): Id { t.id }

  /** The ids of the live columns. */
  function ColumnIds(columns: seq<Column>): set<Id> {
    set c | c in columns :: c.id
  }

  /** The task ids in board order. */
  function TaskIds(tasks: seq<Task>): seq<Id> {
    seq(|tasks|, i requires 0 <= i < |tasks| => tasks[i].id)
  }

  /** Every task belongs to a live column. */
  ghost predicate NoOrphans(columns: seq<Column>, tasks: seq<Task>) {
    forall t :: t in tasks ==> t.columnId in ColumnIds(columns)
  }

  /** The board invariant: column ids are unique, task ids are unique, and no
      task is orphaned. */
  ghost predicate WellFormed(columns: seq<Column>, tasks: seq<Task>) {
    UniqueBy(columns, IdOfColumn) && UniqueBy(tasks, IdOfTask) && NoOrphans(columns, tasks)
  }

  // The predicates handed to `filter` and `findIndex`.

  function ColumnWithId(id: Id): Column -> bool { (c: Column) => c.id == id }

  function ColumnOtherThan(id: Id): Column -> bool { (c: Column) => c.id != id }

  function TaskWithId(id: Id): Task -> bool { (t: Task) => t.id == id }

  function TaskOtherThan(id: Id): Task -> bool { (t: Task) => t.id != id }

  function TaskInColumn(columnId: Id): Task -> bool { (t: Task) => t.columnId == columnId }

  function TaskOutsideColumn(columnId: Id): Task -> bool { (t: Task) => t.columnId != columnId }

  /** `columns.findIndex(col => col.id === id)`. */
  function ColumnIndex(columns: seq<Column>, id: Id): (i: int)
    ensures -1 <= i < |columns|
    ensures i == -1 <==> id !in ColumnIds(columns)
    ensures 0 <= i ==> columns[i].id == id && forall k :: 0 <= k < i ==> columns[k].id != id
  {
    var i := FindIndex(columns, ColumnWithId(id));
    assert i == -1 ==> forall c :: c in columns ==> c.id != id by {
      if i == -1 {
        forall c | c in columns ensures c.id != id {
          var k :| 0 <= k < |columns| && columns[k] == c;
          assert !ColumnWithId(id)(columns[k]);
        }
      }
    }
    i
  }

  /** `tasks.findIndex(task => task.id === id)`. */
  function TaskIndex(tasks: seq<Task>, id: Id): (i: int)
    ensures -1 <= i < |tasks|
    ensures i == -1 <==> id !in TaskIds(tasks)
    ensures 0 <= i ==> tasks[i].id == id && forall k :: 0 <= k < i ==> tasks[k].id != id
  {
    var i := FindIndex(tasks, TaskWithId(id));
    assert i == -1 ==> id !in TaskIds(tasks) by {
      if i == -1 {
        forall k | 0 <= k < |tasks| ensures TaskIds(tasks)[k] != id {
          assert !TaskWithId(id)(tasks[k]);
        }
      }
    }
    assert 0 <= i ==> TaskIds(tasks)[i] == id;
    i
  }

  /** The tasks a column shows: the global task list filtered to the column,
      in global order. */
  function TasksOf(tasks: seq<Task>, columnId: Id): (r: seq<Task>)
    ensures forall t :: t in r <==> t in tasks && t.columnId == columnId
    ensures forall t :: multiset(r)[t] == if t.columnId == columnId then multiset(tasks)[t] else 0
    ensures IsSubsequence(r, tasks)
  {
    FilterCounts(tasks, TaskInColumn(columnId));
    Filter(tasks, TaskInColumn(columnId))
  }

  // ---------------------------------------------------------------- columns

  /** The default title of the n-th column, `Column ${n}`. */
  function ColumnTitle(n: nat): string {
    "Column " + DecimalString(n)
  }

  /** `createNewColumn`: one column appended at the end, titled after the new
      column count, with the caller's fresh id. */
  function CreateNewColumn(columns: seq<Column>, freshId: Id): (r: seq<Column>)
    ensures |r| == |columns| + 1
    ensures r[..|columns|] == columns
    ensures r[|columns|].id == freshId
    ensures r[|columns|].title == ColumnTitle(|r|)
  {
    columns + [Column(freshId, ColumnTitle(|columns| + 1))]
  }

  /** The title of the appended column names the new column count. */
  lemma CreateNewColumnTitleCounts(columns: seq<Column>, freshId: Id)
    ensures var title := CreateNewColumn(columns, freshId)[|columns|].title;
      |title| > 7 && title[..7] == "Column " &&
      (forall i :: 7 <= i < |title| ==> IsDigit(title[i])) &&
      ParseDecimal(title[7..]) == |columns| + 1
  {
    var title := CreateNewColumn(columns, freshId)[|columns|].title;
    assert title[7..] == DecimalString(|columns| + 1);
    ParseDecimalString(|columns| + 1);
  }

  /** The column list of `deleteColumn`: every column with that id is gone,
      the rest keep their order; an absent id changes nothing. */
  function RemoveColumn(columns: seq<Column>, id: Id): (r: seq<Column>)
    ensures forall c :: c in r <==> c in columns && c.id != id
    ensures forall c :: multiset(r)[c] == if c.id != id then multiset(columns)[c] else 0
    ensures IsSubsequence(r, columns)
    ensures id !in ColumnIds(columns) ==> r == columns
  {
    FilterCounts(columns, ColumnOtherThan(id));
    assert id !in ColumnIds(columns) ==> Filter(columns, ColumnOtherThan(id)) == columns by {
      if id !in ColumnIds(columns) {
        FilterKeepsAll(columns, ColumnOtherThan(id));
      }
    }
    Filter(columns, ColumnOtherThan(id))
  }

  /** The task list of `deleteColumn` (the cascade): every task of that column
      is gone, the rest keep their order; nothing changes if no task is in it. */
  function RemoveTasksOfColumn(tasks: seq<Task>, columnId: Id): (r: seq<Task>)
    ensures forall t :: t in r <==> t in tasks && t.columnId != columnId
    ensures forall t :: multiset(r)[t] == if t.columnId != columnId then multiset(tasks)[t] else 0
    ensures IsSubsequence(r, tasks)
    ensures (forall t :: t in tasks ==> t.columnId != columnId) ==> r == tasks
  {
    FilterCounts(tasks, TaskOutsideColumn(columnId));
    assert (forall t :: t in tasks ==> t.columnId != columnId) ==> Filter(tasks, TaskOutsideColumn(columnId)) == tasks by {
      if forall t :: t in tasks ==> t.columnId != columnId {
        FilterKeepsAll(tasks, TaskOutsideColumn(columnId));
      }
    }
    Filter(tasks, TaskOutsideColumn(columnId))
  }

  /** Every other column shows the same tasks, in the same order, after the cascade. */
  lemma RemoveTasksOfColumnKeepsOtherColumns(tasks: seq<Task>, columnId: Id, other: Id)
    requires other != columnId
    ensures TasksOf(RemoveTasksOfColumn(tasks, columnId), other) == TasksOf(tasks, other)
  {
    FilterOfFilter(tasks, TaskOutsideColumn(columnId), TaskInColumn(other));
  }

  /** `deleteColumn` leaves no orphan behind if there was none before. */
  lemma DeleteColumnKeepsNoOrphans(columns: seq<Column>, tasks: seq<Task>, id: Id)
    requires NoOrphans(columns, tasks)
    ensures NoOrphans(RemoveColumn(columns, id), RemoveTasksOfColumn(tasks, id))
  {
    var cols, ts := RemoveColumn(columns, id), RemoveTasksOfColumn(tasks, id);
    forall t | t in ts ensures t.columnId in ColumnIds(cols) {
      var c :| c in columns && c.id == t.columnId;
      assert c in cols;
    }
  }

  /** `deleteColumn` keeps the board invariant. */
  lemma DeleteColumnKeepsWellFormed(columns: seq<Column>, tasks: seq<Task>, id: Id)
    requires WellFormed(columns, tasks)
    ensures WellFormed(RemoveColumn(columns, id), RemoveTasksOfColumn(tasks, id))
  {
    FilterKeepsUnique(columns, ColumnOtherThan(id), IdOfColumn);
    FilterKeepsUnique(tasks, TaskOutsideColumn(id), IdOfTask);
    DeleteColumnKeepsNoOrphans(columns, tasks, id);
  }

  /** `updateColumnTitle`: the columns with that id get the new title; ids,
      order and every other column are unchanged. */
  function UpdateColumnTitle(columns: seq<Column>, id: Id, title: string): (r: seq<Column>)
    ensures |r| == |columns|
    ensures forall i :: 0 <= i < |r| ==> r[i].id == columns[i].id
    ensures forall i :: 0 <= i < |r| && columns[i].id == id ==> r[i].title == title
    ensures forall i :: 0 <= i < |r| && columns[i].id != id ==> r[i] == columns[i]
  {
    seq(|columns|, i requires 0 <= i < |columns| =>
      if columns[i].id != id then columns[i] else columns[i].(title := title))
  }

  /** Renaming an absent column changes nothing. */
  lemma UpdateColumnTitleAbsent(columns: seq<Column>, id: Id, title: string)
    requires id !in ColumnIds(columns)
    ensures UpdateColumnTitle(columns, id, title) == columns
  {
    var r := UpdateColumnTitle(columns, id, title);
    forall i | 0 <= i < |columns| ensures r[i] == columns[i] {
      assert columns[i] in columns;
    }
  }

  /** Renaming keeps the board invariant and the set of column ids. */
  lemma UpdateColumnTitleKeepsWellFormed(columns: seq<Column>, tasks: seq<Task>, id: Id, title: string)
    requires WellFormed(columns, tasks)
    ensures ColumnIds(UpdateColumnTitle(columns, id, title)) == ColumnIds(columns)
    ensures WellFormed(UpdateColumnTitle(columns, id, title), tasks)
  {
    var r := UpdateColumnTitle(columns, id, title);
    forall x | x in ColumnIds(columns) ensures x in ColumnIds(r) {
      var k :| 0 <= k < |columns| && columns[k].id == x;
      assert r[k] in r;
    }
    forall x | x in ColumnIds(r) ensures x in ColumnIds(columns) {
      var k :| 0 <= k < |r| && r[k].id == x;
      assert columns[k] in columns;
    }
  }

  /** `createNewColumn` with an unused id keeps the board invariant. */
  lemma CreateNewColumnKeepsWellFormed(columns: seq<Column>, tasks: seq<Task>, freshId: Id)
    requires WellFormed(columns, tasks)
    requires freshId !in ColumnIds(columns)
    ensures WellFormed(CreateNewColumn(columns, freshId), tasks)
  {
    var r := CreateNewColumn(columns, freshId);
    forall i, j | 0 <= i < j < |r| ensures r[i].id != r[j].id {
      if j == |columns| {
        assert r[i] == columns[i] && columns[i] in columns;
      } else {
        assert r[i] == columns[i] && r[j] == columns[j];
      }
    }
    forall x | x in ColumnIds(columns) ensures x in ColumnIds(r) {
      var c :| c in columns && c.id == x;
      assert c in r;
    }
  }

  // ------------------------------------------------------------------ tasks

  /** The default content of the n-th task, `Task ${n}`. */
  function TaskContent(n: nat): string {
    "Task " + DecimalString(n)
  }

  /** `createTask`: one task appended at the end, in the given column, whose
      content names the new total task count. */
  function CreateTask(tasks: seq<Task>, freshId: Id, columnId: Id): (r: seq<Task>)
    ensures |r| == |tasks| + 1
    ensures r[..|tasks|] == tasks
    ensures r[|tasks|].id == freshId && r[|tasks|].columnId == columnId
    ensures r[|tasks|].content == TaskContent(|r|)
  {
    tasks + [Task(freshId, columnId, TaskContent(|tasks| + 1))]
  }

  /** `createTask` with an unused id, for a live column, keeps the board invariant. */
  lemma CreateTaskKeepsWellFormed(columns: seq<Column>, tasks: seq<Task>, freshId: Id, columnId: Id)
    requires WellFormed(columns, tasks)
    requires freshId !in TaskIds(tasks)
    requires columnId in ColumnIds(columns)
    ensures WellFormed(columns, CreateTask(tasks, freshId, columnId))
  {
    var r := CreateTask(tasks, freshId, columnId);
    forall i, j | 0 <= i < j < |r| ensures r[i].id != r[j].id {
      if j == |tasks| {
        assert r[i].id == TaskIds(tasks)[i];
      } else {
        assert r[i] == tasks[i] && r[j] == tasks[j];
      }
    }
  }

  /** `deleteTask`: every task with that id is gone, the rest keep their
      order; an absent id changes nothing. */
  function DeleteTask(tasks: seq<Task>, id: Id): (r: seq<Task>)
    ensures forall t :: t in r <==> t in tasks && t.id != id
    ensures forall t :: multiset(r)[t] == if t.id != id then multiset(tasks)[t] else 0
    ensures IsSubsequence(r, tasks)
    ensures id !in TaskIds(tasks) ==> r == tasks
  {
    FilterCounts(tasks, TaskOtherThan(id));
    assert id !in TaskIds(tasks) ==> Filter(tasks, TaskOtherThan(id)) == tasks by {
      if id !in TaskIds(tasks) {
        forall t | t in tasks ensures TaskOtherThan(id)(t) {
          var k :| 0 <= k < |tasks| && tasks[k] == t;
          assert TaskIds(tasks)[k] == t.id;
        }
        FilterKeepsAll(tasks, TaskOtherThan(id));
      }
    }
    Filter(tasks, TaskOtherThan(id))
  }

  /** `deleteTask` keeps the board invariant. */
  lemma DeleteTaskKeepsWellFormed(columns: seq<Column>, tasks: seq<Task>, id: Id)
    requires WellFormed(columns, tasks)
    ensures WellFormed(columns, DeleteTask(tasks, id))
  {
    FilterKeepsUnique(tasks, TaskOtherThan(id), IdOfTask);
  }

  /** `updateTask`: the tasks with that id get the new content; ids, column
      membership, order and every other task are unchanged. */
  function UpdateTask(tasks: seq<Task>, id: Id, content: string): (r: seq<Task>)
    ensures |r| == |tasks|
    ensures forall i :: 0 <= i < |r| ==> r[i].id == tasks[i].id && r[i].columnId == tasks[i].columnId
    ensures forall i :: 0 <= i < |r| && tasks[i].id == id ==> r[i].content == content
    ensures forall i :: 0 <= i < |r| && tasks[i].id != id ==> r[i] == tasks[i]
  {
    seq(|tasks|, i requires 0 <= i < |tasks| =>
      if tasks[i].id != id then tasks[i] else tasks[i].(content := content))
  }

  /** Editing an absent task changes nothing. */
  lemma UpdateTaskAbsent(tasks: seq<Task>, id: Id, content: string)
    requires id !in TaskIds(tasks)
    ensures UpdateTask(tasks, id, content) == tasks
  {
    var r := UpdateTask(tasks, id, content);
    forall i | 0 <= i < |tasks| ensures r[i] == tasks[i] {
      assert TaskIds(tasks)[i] == tasks[i].id;
    }
  }

  /** Editing a task keeps the board invariant. */
  lemma UpdateTaskKeepsWellFormed(columns: seq<Column>, tasks: seq<Task>, id: Id, content: string)
    requires WellFormed(columns, tasks)
    ensures WellFormed(columns, UpdateTask(tasks, id, content))
  {
    var r := UpdateTask(tasks, id, content);
    forall t | t in r ensures t.columnId in ColumnIds(columns) {
      var k :| 0 <= k < |r| && r[k] == t;
      assert tasks[k] in tasks;
    }
  }

  // ------------------------------------------------------------ board moves

  /** The column reorder of `OndragEnd`: the dragged column moves to the
      index of the column it was dropped on, the others keep their relative
      order. An id that is not on the board leaves the columns as they are. */
  function MoveColumn(columns: seq<Column>, activeId: Id, overId: Id): (r: seq<Column>)
    ensures |r| == |columns| && multiset(r) == multiset(columns)
    ensures ColumnIndex(columns, activeId) < 0 || ColumnIndex(columns, overId) < 0 ==> r == columns
    ensures var from, to := ColumnIndex(columns, activeId), ColumnIndex(columns, overId);
      0 <= from && 0 <= to ==> r[to] == columns[from] && RemoveAt(r, to) == RemoveAt(columns, from)
  {
    var from, to := ColumnIndex(columns, activeId), ColumnIndex(columns, overId);
    if from < 0 || to < 0 then columns
    else
      MovePermutes(columns, from, to);
      MoveLands(columns, from, to);
      MoveKeepsOthersInOrder(columns, from, to);
      Move(columns, from, to)
  }

  /** Dropping a column on itself changes nothing. */
  lemma MoveColumnOntoItself(columns: seq<Column>, id: Id)
    ensures MoveColumn(columns, id, id) == columns
  {
    var i := ColumnIndex(columns, id);
    if 0 <= i {
      MoveToSelf(columns, i);
    }
  }

  /** A column reorder keeps the set of column ids and the board invariant. */
  lemma MoveColumnKeepsWellFormed(columns: seq<Column>, tasks: seq<Task>, activeId: Id, overId: Id)
    requires WellFormed(columns, tasks)
    ensures ColumnIds(MoveColumn(columns, activeId, overId)) == ColumnIds(columns)
    ensures WellFormed(MoveColumn(columns, activeId, overId), tasks)
  {
    var r := MoveColumn(columns, activeId, overId);
    var from, to := ColumnIndex(columns, activeId), ColumnIndex(columns, overId);
    if 0 <= from && 0 <= to {
      MoveKeepsUnique(columns, from, to, IdOfColumn);
      assert forall c :: c in r <==> c in columns by {
        forall c ensures c in r <==> c in columns {
          assert c in r <==> c in multiset(r);
        }
      }
    }
  }

  /** The task move of `OndragOver` when a task is dragged over another task:
      the dragged task takes the other task's column and moves to its index.
      An id that is not on the board leaves the tasks as they are. */
  function MoveTaskOverTask(tasks: seq<Task>, activeId: Id, overId: Id): (r: seq<Task>)
    ensures |r| == |tasks|
    ensures multiset(TaskIds(r)) == multiset(TaskIds(tasks))
    ensures TaskIndex(tasks, activeId) < 0 || TaskIndex(tasks, overId) < 0 ==> r == tasks
    ensures var from, to := TaskIndex(tasks, activeId), TaskIndex(tasks, overId);
      0 <= from && 0 <= to ==>
        (r[to] == tasks[from].(columnId := tasks[to].columnId) &&
         RemoveAt(r, to) == RemoveAt(tasks, from))
  {
    var from, to := TaskIndex(tasks, activeId), TaskIndex(tasks, overId);
    if from < 0 || to < 0 then tasks
    else
      var moved := tasks[from := tasks[from].(columnId := tasks[to].columnId)];
      MoveLands(moved, from, to);
      MoveKeepsOthersInOrder(moved, from, to);
      assert RemoveAt(moved, from) == RemoveAt(tasks, from);
      TaskIdsOfMove(moved, from, to);
      assert TaskIds(moved) == TaskIds(tasks);
      MovePermutes(TaskIds(moved), from, to);
      Move(moved, from, to)
  }

  /** The ids of a moved task list are the moved ids. */
  lemma TaskIdsOfMove(tasks: seq<Task>, from: nat, to: nat)
    requires from < |tasks| && to < |tasks|
    ensures TaskIds(Move(tasks, from, to)) == Move(TaskIds(tasks), from, to)
  {
    var ids, r := TaskIds(tasks), Move(tasks, from, to);
    forall k | 0 <= k < |tasks| ensures TaskIds(r)[k] == Move(ids, from, to)[k] {
      MoveAt(tasks, from, to, k);
      MoveAt(ids, from, to, k);
    }
  }

  /** Dragging a task over itself changes nothing. */
  lemma MoveTaskOverItself(tasks: seq<Task>, id: Id)
    ensures MoveTaskOverTask(tasks, id, id) == tasks
  {
    var i := TaskIndex(tasks, id);
    if 0 <= i {
      assert tasks[i := tasks[i].(columnId := tasks[i].columnId)] == tasks;
      MoveToSelf(tasks, i);
    }
  }

  /** A task-over-task move keeps the board invariant: the dragged task joins
      a live column, and ids stay unique. */
  lemma MoveTaskOverTaskKeepsWellFormed(columns: seq<Column>, tasks: seq<Task>, activeId: Id, overId: Id)
    requires WellFormed(columns, tasks)
    ensures WellFormed(columns, MoveTaskOverTask(tasks, activeId, overId))
  {
    var from, to := TaskIndex(tasks, activeId), TaskIndex(tasks, overId);
    if 0 <= from && 0 <= to {
      var moved := tasks[from := tasks[from].(columnId := tasks[to].columnId)];
      assert UniqueBy(moved, IdOfTask) by {
        forall i, j | 0 <= i < j < |moved| ensures moved[i].id != moved[j].id {
          assert moved[i].id == tasks[i].id && moved[j].id == tasks[j].id;
        }
      }
      MoveKeepsUnique(moved, from, to, IdOfTask);
      assert NoOrphans(columns, moved) by {
        forall k | 0 <= k < |moved| ensures moved[k].columnId in ColumnIds(columns) {
          assert tasks[k] in tasks && tasks[to] in tasks;
        }
      }
      MovePermutes(moved, from, to);
      var r := Move(moved, from, to);
      forall t | t in r ensures t in moved {
        assert t in multiset(r);
      }
    }
  }

  /** The task move of `OndragOver` when a task is dragged over a column: only
      the dragged task's column changes; every task keeps its index. An id
      that is not on the board leaves the tasks as they are. */
  function MoveTaskOverColumn(tasks: seq<Task>, activeId: Id, columnId: Id): (r: seq<Task>)
    ensures |r| == |tasks|
    ensures TaskIds(r) == TaskIds(tasks)
    ensures TaskIndex(tasks, activeId) < 0 ==> r == tasks
    ensures var i := TaskIndex(tasks, activeId);
      0 <= i ==> (r[i] == tasks[i].(columnId := columnId) &&
        forall k :: 0 <= k < |r| && k != i ==> r[k] == tasks[k])
  {
    var i := TaskIndex(tasks, activeId);
    if i < 0 then tasks
    else
      var moved := tasks[i := tasks[i].(columnId := columnId)];
      MoveToSelf(moved, i);
      Move(moved, i, i)
  }

  /** A task-over-column move into a live column keeps the board invariant. */
  lemma MoveTaskOverColumnKeepsWellFormed(columns: seq<Column>, tasks: seq<Task>, activeId: Id, columnId: Id)
    requires WellFormed(columns, tasks)
    requires columnId in ColumnIds(columns)
    ensures WellFormed(columns, MoveTaskOverColumn(tasks, activeId, columnId))
  {
    var i := TaskIndex(tasks, activeId);
    if 0 <= i {
      var r := MoveTaskOverColumn(tasks, activeId, columnId);
      forall a, b | 0 <= a < b < |r| ensures r[a].id != r[b].id {
        assert r[a].id == tasks[a].id && r[b].id == tasks[b].id;
      }
      forall t | t in r ensures t.columnId in ColumnIds(columns) {
        var k :| 0 <= k < |r| && r[k] == t;
        if k != i {
          assert tasks[k] in tasks;
        }
      }
    }
  }

  // --------------------------------------------------------------- examples

  /** Dropping task 1 on column B keeps its index and changes only its column. */
  lemma ExampleTaskOverColumn()
    ensures MoveTaskOverColumn([Task(1, 10, "t1"), Task(2, 10, "t2")], 1, 20)
         == [Task(1, 20, "t1"), Task(2, 10, "t2")]
  {
    MoveToSelf([Task(1, 20, "t1"), Task(2, 10, "t2")], 0);
  }

  /** Columns A, B, C with C dropped on A become C, A, B. */
  lemma ExampleMoveColumn(a: Column, b: Column, c: Column)
    requires c.id != a.id && c.id != b.id
    ensures MoveColumn([a, b, c], c.id, a.id) == [c, a, b]
  {
    var cols := [a, b, c];
    assert ColumnIndex(cols, c.id) == 2 by {
      assert cols[2] in cols;
    }
    assert MoveColumn(cols, c.id, a.id) == Move(cols, 2, 0) by {
      assert ColumnIndex(cols, a.id) == 0;
    }
    MoveLastToFront(a, b, c);
  }

  /** Task 1 of column A dragged over task 3 of column B joins B and takes
      task 3's former index 2; tasks 2 and 3 shift left: t2, t3, t1. */
  lemma ExampleTaskOverTask()
    ensures MoveTaskOverTask([Task(1, 10, "t1"), Task(2, 10, "t2"), Task(3, 20, "t3")], 1, 3)
         == [Task(2, 10, "t2"), Task(3, 20, "t3"), Task(1, 20, "t1")]
  {
    var ts := [Task(1, 10, "t1"), Task(2, 10, "t2"), Task(3, 20, "t3")];
    assert TaskIndex(ts, 1) == 0 && TaskIndex(ts, 3) == 2;
    var moved := [Task(1, 20, "t1"), Task(2, 10, "t2"), Task(3, 20, "t3")];
    assert MoveTaskOverTask(ts, 1, 3) == Move(moved, 0, 2);
    assert RemoveAt(moved, 0) == [Task(2, 10, "t2"), Task(3, 20, "t3")];
  }

  /** Deleting column A removes it and its task, and keeps column B's. */
  lemma ExampleDeleteColumn()
    ensures RemoveColumn([Column(1, "A"), Column(2, "B")], 1) == [Column(2, "B")]
    ensures RemoveTasksOfColumn([Task(5, 1, "t1"), Task(6, 2, "t2")], 1) == [Task(6, 2, "t2")]
  {
  }

  /** A third column is titled `Column 3`. */
  lemma ExampleCreateNewColumn()
    ensures CreateNewColumn([Column(1, "A"), Column(2, "B")], 7)[2] == Column(7, "Column 3")
  {
    assert DecimalString(3) == "3";
  }
}
