/** The data a sortable item attaches to a drag (`useSortable({ data })`) and
    that the handlers read back as `active.data.current` / `over.data.current`. */
module DragData {
  import opened KanbanModel

  datatype Option<T> = None | Some(value: T)

  /** The value stored under `type`: the string "Column", the string "Task",
      or, as the column component actually stores it, the column object. */
  datatype TypeField = ColumnTag | TaskTag | ColumnObject(column: Column)

  /** The drag data of an item: `{ type, column }` or `{ type, task }`. */
  datatype Data = Data(typeField: TypeField, column: Option<Column>, task: Option<Task>)

  /** The data a task card attaches (TaskCard.tsx): tagged "Task", carrying the task. */
  function TaskData(t: Task): (d: Data)
    ensures d.typeField == TaskTag && d.task == Some(t)
  {
    Data(TaskTag, None, Some(t))
  }

  /** The data a column attaches AS WRITTEN (ColumnsContainer.tsx): `type` is
      the column itself, which neither "Column" nor "Task" equals. */
  function ColumnDataAsWritten(c: Column): (d: Data)
    ensures d.typeField != ColumnTag && d.typeField != TaskTag
    ensures d.column == Some(c)
  {
    Data(ColumnObject(c), Some(c), None)
  }

  /** The data a column attaches as the handlers expect it: tagged "Column". */
  function ColumnData(c: Column): (d: Data)
    ensures d.typeField == ColumnTag && d.column == Some(c)
  {
    Data(ColumnTag, Some(c), None)
  }
}
