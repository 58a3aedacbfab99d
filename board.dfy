/** The state held by the `KanbanBoard` component and the handlers that change
    it: the six editing callbacks and the three drag handlers. */
module KanbanBoard {
  import opened KanbanModel
  import opened DragData

  /** The droppable under the pointer: its id and its drag data's `type`. */
  datatype Over = Over(id: Id, typeField: TypeField)

  class Board {
    var columns: seq<Column>
    var tasks: seq<Task>
    /** The drag snapshot shown in the overlay while a column is dragged. */
    var activeColumn: Option<Column>
    /** The drag snapshot shown in the overlay while a task is dragged. */
    var activeTask: Option<Task>

    /** Unique column ids, unique task ids, and every task in a live column. */
    ghost predicate Valid()
      reads this
    {
      WellFormed(columns, tasks)
    }

    /** An empty board with nothing being dragged. */
    constructor ()
      ensures Valid()
      ensures columns == [] && tasks == []
      ensures activeColumn == None && activeTask == None
    {
      columns, tasks := [], [];
      activeColumn, activeTask := None, None;
    }

    /** `createNewColumn`, with `freshId` standing for `generateId()`. */
    method CreateNewColumn(freshId: Id)
      requires Valid()
      requires freshId !in ColumnIds(columns)
      modifies this`columns
      ensures Valid()
      ensures columns == KanbanModel.CreateNewColumn(old(columns), freshId)
      ensures tasks == old(tasks)
    {
      CreateNewColumnKeepsWellFormed(columns, tasks, freshId);
      columns := KanbanModel.CreateNewColumn(columns, freshId);
    }

    /** `deleteColumn`: the column goes, and so do its tasks. */
    method DeleteColumn(id: Id)
      requires Valid()
      modifies this`columns, this`tasks
      ensures Valid()
      ensures columns == RemoveColumn(old(columns), id)
      ensures tasks == RemoveTasksOfColumn(old(tasks), id)
      ensures forall t :: t in tasks ==> t.columnId != id
    {
      DeleteColumnKeepsWellFormed(columns, tasks, id);
      columns := RemoveColumn(columns, id);
      tasks := RemoveTasksOfColumn(tasks, id);
    }

    /** `updateColumnTitle`. */
    method UpdateColumnTitle(id: Id, title: string)
      requires Valid()
      modifies this`columns
      ensures Valid()
      ensures columns == KanbanModel.UpdateColumnTitle(old(columns), id, title)
      ensures tasks == old(tasks)
    {
      UpdateColumnTitleKeepsWellFormed(columns, tasks, id, title);
      columns := KanbanModel.UpdateColumnTitle(columns, id, title);
    }

    /** `createTask`, with `freshId` standing for `generateId()`; the column
        components only call it with their own, live, column id. */
    method CreateTask(freshId: Id, columnId: Id)
      requires Valid()
      requires freshId !in TaskIds(tasks)
      requires columnId in ColumnIds(columns)
      modifies this`tasks
      ensures Valid()
      ensures tasks == KanbanModel.CreateTask(old(tasks), freshId, columnId)
      ensures columns == old(columns)
    {
      CreateTaskKeepsWellFormed(columns, tasks, freshId, columnId);
      tasks := KanbanModel.CreateTask(tasks, freshId, columnId);
    }

    /** `deleteTask`. */
    method DeleteTask(id: Id)
      requires Valid()
      modifies this`tasks
      ensures Valid()
      ensures tasks == KanbanModel.DeleteTask(old(tasks), id)
      ensures columns == old(columns)
    {
      DeleteTaskKeepsWellFormed(columns, tasks, id);
      tasks := KanbanModel.DeleteTask(tasks, id);
    }

    /** `updateTask`. */
    method UpdateTask(id: Id, content: string)
      requires Valid()
      modifies this`tasks
      ensures Valid()
      ensures tasks == KanbanModel.UpdateTask(old(tasks), id, content)
      ensures columns == old(columns)
    {
      UpdateTaskKeepsWellFormed(columns, tasks, id, content);
      tasks := KanbanModel.UpdateTask(tasks, id, content);
    }

    /** `onDragStart`: remembers the dragged column or task for the overlay,
        according to the `type` of the active item's data; nothing else. */
    method OnDragStart(active: Data)
      requires Valid()
      modifies this`activeColumn, this`activeTask
      ensures Valid()
      ensures active.typeField == ColumnTag ==> activeColumn == active.column && activeTask == old(activeTask)
      ensures active.typeField == TaskTag ==> activeTask == active.task && activeColumn == old(activeColumn)
      ensures active.typeField.ColumnObject? ==> activeColumn == old(activeColumn) && activeTask == old(activeTask)
    {
      if active.typeField == ColumnTag {
        activeColumn := active.column;
        return;
      }
      if active.typeField == TaskTag {
        activeTask := active.task;
        return;
      }
    }

    /** `OndragEnd`: clears both drag snapshots, then reorders the columns
        when the active item was dropped on a different item. */
    method OnDragEnd(activeId: Id, over: Option<Over>)
      requires Valid()
      modifies this`columns, this`activeColumn, this`activeTask
      ensures Valid()
      ensures activeColumn == None && activeTask == None
      ensures tasks == old(tasks)
      ensures ColumnIds(columns) == ColumnIds(old(columns))
      ensures over.None? || over.value.id == activeId ==> columns == old(columns)
      ensures over.Some? && over.value.id != activeId ==> columns == MoveColumn(old(columns), activeId, over.value.id)
    {
      activeColumn := None;
      activeTask := None;
      if over.None? {
        return;
      }
      var overId := over.value.id;
      if activeId == overId {
        return;
      }
      MoveColumnKeepsWellFormed(columns, tasks, activeId, overId);
      columns := MoveColumn(columns, activeId, overId);
    }

    /** `OndragOver`: while a task is dragged, moves it over the task or into
        the column under the pointer. Columns and drag snapshots are never
        touched. A droppable column reported by the drag library is a live
        column of the board. */
    method OnDragOver(activeId: Id, activeType: TypeField, over: Option<Over>)
      requires Valid()
      requires over.Some? && over.value.typeField == ColumnTag ==> over.value.id in ColumnIds(columns)
      modifies this`tasks
      ensures Valid()
      ensures columns == old(columns)
      ensures over.None? || over.value.id == activeId || activeType != TaskTag ==> tasks == old(tasks)
      ensures over.Some? && over.value.id != activeId && activeType == TaskTag ==>
        tasks == match over.value.typeField
          case TaskTag => MoveTaskOverTask(old(tasks), activeId, over.value.id)
          case ColumnTag => MoveTaskOverColumn(old(tasks), activeId, over.value.id)
          case ColumnObject(_) => old(tasks)
    {
      if over.None? {
        return;
      }
      var overId := over.value.id;
      if activeId == overId {
        return;
      }
      var isActiveTask := activeType == TaskTag;
      var isOverTask := over.value.typeField == TaskTag;
      if !isActiveTask {
        return;
      }
      if isActiveTask && isOverTask {
        MoveTaskOverTaskKeepsWellFormed(columns, tasks, activeId, overId);
        tasks := MoveTaskOverTask(tasks, activeId, overId);
      }
      var isOverColumn := over.value.typeField == ColumnTag;
      if isActiveTask && isOverColumn {
        MoveTaskOverColumnKeepsWellFormed(columns, tasks, activeId, overId);
        tasks := MoveTaskOverColumn(tasks, activeId, overId);
      }
    }
  }

  /** A column drag started with the data the column component attaches as
      written: the start handler does not recognise it, so neither drag
      snapshot changes and the dragged column never shows in the overlay. */
  method ColumnDragStartAsWritten(b: Board, c: Column)
    requires b.Valid()
    modifies b`activeColumn, b`activeTask
    ensures b.activeColumn == old(b.activeColumn) && b.activeTask == old(b.activeTask)
  {
    b.OnDragStart(ColumnDataAsWritten(c));
  }

  /** The same drag with the data tagged "Column": the column becomes active. */
  method ColumnDragStart(b: Board, c: Column)
    requires b.Valid()
    modifies b`activeColumn, b`activeTask
    ensures b.activeColumn == Some(c) && b.activeTask == old(b.activeTask)
  {
    b.OnDragStart(ColumnData(c));
  }

  /** A task card dragged with its data tagged "Task": the task becomes the
      active task and the active column stays as it was. */
  method TaskDragStart(b: Board, t: Task)
    requires b.Valid()
    modifies b`activeColumn, b`activeTask
    ensures b.activeTask == Some(t)
    ensures b.activeColumn == old(b.activeColumn)
  {
    b.OnDragStart(TaskData(t));
  }

  /** A task dragged over a column whose data is written as the column
      component writes it: the over handler sees no column, and the task
      stays in its column. */
  method TaskOverColumnAsWritten(b: Board, taskId: Id, c: Column)
    requires b.Valid()
    modifies b`tasks
    ensures b.tasks == old(b.tasks)
  {
    b.OnDragOver(taskId, TaskTag, Some(Over(c.id, ColumnDataAsWritten(c).typeField)));
  }

  /** The same drag with the data tagged "Column": the task joins the column. */
  method TaskOverColumn(b: Board, taskId: Id, c: Column)
    requires b.Valid()
    requires c in b.columns && taskId in TaskIds(b.tasks) && taskId != c.id
    modifies b`tasks
    ensures b.tasks == MoveTaskOverColumn(old(b.tasks), taskId, c.id)
    ensures forall t :: t in b.tasks && t.id == taskId ==> t.columnId == c.id
  {
    b.OnDragOver(taskId, TaskTag, Some(Over(c.id, ColumnData(c).typeField)));
  }
}
