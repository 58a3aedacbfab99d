# Kanban board: board state and drag handlers

A model of the `KanbanBoard` component of a React Kanban board
(`src/Components/kanbanBoard.tsx`). The component holds four pieces of state: the
ordered columns `{id, title}`, the ordered tasks `{id, columnId, content}`, and
two drag snapshots, `activeColumn` and `ActiveTask`. It offers six editing
callbacks: create, delete and rename a column, and create, delete and edit a
task. It also has three drag handlers:

- `onDragStart` remembers what is being dragged.
- `OndragEnd` reorders the columns when a gesture ends.
- `OndragOver` moves a task while a gesture is under way, either over another task or into a column.

A column shows the global task list filtered by its id. All reorders use
dnd-kit's `arrayMove`. It takes the element out at one index and re-inserts it at
another, so the elements in between shift by one slot.

The project has five modules:

- `Sequences` (`sequences.dfy`): `filter`, `findIndex` and `arrayMove` as functions on sequences. The lemmas say where every element of a move comes from, that a move is a permutation, that it keeps the other elements in order, and that it keeps keys unique.
- `Decimal` (`decimal.dfy`): the decimal rendering of the counts in the default titles `Column N` and `Task N`, and its parse round trip.
- `KanbanModel` (`model.dfy`): the `Column` and `Task` datatypes and the editing operations as pure functions. The source builds new arrays with `filter`, `map` and spread, and hands them to the state setters. It also has the three board moves and the board invariant `WellFormed`: unique column ids, unique task ids and no orphaned task. One lemma per operation proves that the operation keeps the invariant.
- `DragData` (`drag_data.dfy`): the data each sortable item attaches to a drag, with its `type` field.
- `KanbanBoard` (`board.dfy`): the class `Board`. Its fields are `columns`, `tasks`, `activeColumn` and `activeTask`. Its methods are the callbacks and handlers, each stated against the pure operations and each keeping `Valid()`.

In three places the code behaves differently from what one might expect. The model follows the code:

- `createTask` does not check that the column exists. It always appends.
- No handler is registered for a cancelled drag.
- A task dragged over another task takes that task's index exactly as `arrayMove` computes it. With tasks `t1, t2, t3`, dragging `t1` over `t3` gives `t2, t3, t1`, not `t2, t1, t3` (`KanbanModel.ExampleTaskOverTask`).

## Model

| member | source | states |
|---|---|---|
| `Sequences.Filter` | src/Components/kanbanBoard.tsx:112 | the result holds exactly the elements that pass the predicate, in their original order (a subsequence) |
| `Sequences.FilterCounts` | src/Components/kanbanBoard.tsx:112 | every copy of an element that passes is kept and every copy of one that fails is dropped: the result's count of each value is the input's count or zero |
| `Sequences.FilterKeepsAll` | src/Components/kanbanBoard.tsx:225 | a filter that every element passes returns the list unchanged |
| `Sequences.FilterOfFilter` | src/Components/kanbanBoard.tsx:56 | filtering the survivors of a weaker filter with a stricter one equals the stricter filter alone |
| `Sequences.FilterKeepsUnique` | src/Components/kanbanBoard.tsx:112 | filtering keeps ids unique |
| `Sequences.FindIndex` | src/Components/kanbanBoard.tsx:159-160 | -1 exactly when no element matches, otherwise the first matching index |
| `Sequences.Move` | src/Components/kanbanBoard.tsx:163 | `arrayMove(s, from, to)` returns a list of the input's length; where each element comes from is `Sequences.MoveAt` |
| `Sequences.MoveAt` | src/Components/kanbanBoard.tsx:163 | `arrayMove(s, from, to)`: the moved element lands at `to`, the elements strictly between shift one slot toward `from`, all others keep their index |
| `Sequences.MoveLands` | src/Components/kanbanBoard.tsx:163 | the moved element ends at index `to` |
| `Sequences.MoveKeepsOthersInOrder` | src/Components/kanbanBoard.tsx:191 | removing the moved element from the result gives the input minus that element, in the same order |
| `Sequences.MovePermutes` | src/Components/kanbanBoard.tsx:163 | the result is a permutation of the input |
| `Sequences.MoveToSelf` | src/Components/kanbanBoard.tsx:204 | `arrayMove(s, i, i)` is the identity |
| `Sequences.MoveKeepsUnique` | src/Components/kanbanBoard.tsx:191 | a move keeps ids unique |
| `Sequences.MoveLastToFront` | src/Components/kanbanBoard.tsx:162-163 | a move is not a swap: moving index 2 to index 0 of A, B, C gives C, A, B |
| `Decimal.DecimalString` | src/Components/kanbanBoard.tsx:104 | the rendering of a count in `Column ${n}` is nonempty, made only of digits and without a leading zero |
| `Decimal.ParseDecimalString` | src/Components/kanbanBoard.tsx:104 | the rendered count reads back as the count |
| `KanbanModel.ColumnIndex` | src/Components/kanbanBoard.tsx:159-160 | -1 exactly when no column has the id, otherwise the first column with it |
| `KanbanModel.TaskIndex` | src/Components/kanbanBoard.tsx:186-187 | -1 exactly when no task has the id, otherwise the first task with it |
| `KanbanModel.TasksOf` | src/Components/kanbanBoard.tsx:56 | a column shows exactly the tasks with its id, every copy of each, in global order |
| `KanbanModel.CreateNewColumn` | src/Components/kanbanBoard.tsx:101-108 | exactly one column is appended, with the fresh id and the title `Column N` for the new count N; the existing columns are kept as they were |
| `KanbanModel.CreateNewColumnTitleCounts` | src/Components/kanbanBoard.tsx:104 | the new title is `Column ` followed by digits that read as the old column count + 1 |
| `KanbanModel.CreateNewColumnKeepsWellFormed` | src/Components/kanbanBoard.tsx:101-108 | with an unused id, the board invariant is kept |
| `KanbanModel.RemoveColumn` | src/Components/kanbanBoard.tsx:111-113 | every column with the id is removed, every copy of every other column is kept and they keep their order; an absent id changes nothing |
| `KanbanModel.RemoveTasksOfColumn` | src/Components/kanbanBoard.tsx:115-116 | the cascade removes every task of the column and only those; every copy of the others is kept, in order; a column without tasks changes nothing |
| `KanbanModel.RemoveTasksOfColumnKeepsOtherColumns` | src/Components/kanbanBoard.tsx:115 | every other column shows the same tasks, in the same order, after the cascade |
| `KanbanModel.DeleteColumnKeepsNoOrphans` | src/Components/kanbanBoard.tsx:111-117 | if no task was orphaned before `deleteColumn`, none is orphaned after it |
| `KanbanModel.DeleteColumnKeepsWellFormed` | src/Components/kanbanBoard.tsx:111-117 | `deleteColumn` keeps the board invariant, with ids still unique |
| `KanbanModel.UpdateColumnTitle` | src/Components/kanbanBoard.tsx:120-128 | length, ids and order are kept; the matching columns get the title; every other column is unchanged |
| `KanbanModel.UpdateColumnTitleAbsent` | src/Components/kanbanBoard.tsx:120-128 | renaming an absent id changes nothing |
| `KanbanModel.UpdateColumnTitleKeepsWellFormed` | src/Components/kanbanBoard.tsx:120-128 | renaming keeps the column id set and the board invariant |
| `KanbanModel.CreateTask` | src/Components/kanbanBoard.tsx:213-221 | exactly one task is appended, with the fresh id, the given column and the content `Task N` for the new total count N |
| `KanbanModel.CreateTaskKeepsWellFormed` | src/Components/kanbanBoard.tsx:213-221 | with an unused id and a live column, the board invariant is kept |
| `KanbanModel.DeleteTask` | src/Components/kanbanBoard.tsx:224-227 | exactly the tasks with the id are removed, every copy of the rest is kept and they keep their order; an absent id changes nothing |
| `KanbanModel.DeleteTaskKeepsWellFormed` | src/Components/kanbanBoard.tsx:224-227 | deleting a task keeps the board invariant |
| `KanbanModel.UpdateTask` | src/Components/kanbanBoard.tsx:230-237 | length, ids, order and column membership are kept; the matching tasks get the content; every other task is unchanged |
| `KanbanModel.UpdateTaskAbsent` | src/Components/kanbanBoard.tsx:230-237 | editing an absent id changes nothing |
| `KanbanModel.UpdateTaskKeepsWellFormed` | src/Components/kanbanBoard.tsx:230-237 | editing keeps the board invariant |
| `KanbanModel.MoveColumn` | src/Components/kanbanBoard.tsx:158-164 | the column reorder is a permutation: the dragged column lands at the index of the column it was dropped on, and the others keep their relative order; an id not on the board changes nothing |
| `KanbanModel.MoveColumnOntoItself` | src/Components/kanbanBoard.tsx:156 | dropping a column on itself changes nothing |
| `KanbanModel.MoveColumnKeepsWellFormed` | src/Components/kanbanBoard.tsx:158-164 | the reorder keeps the set of column ids and the board invariant |
| `KanbanModel.MoveTaskOverTask` | src/Components/kanbanBoard.tsx:184-193 | the task ids are permuted; the dragged task takes the other task's column and index, and every other task keeps its fields and relative order; an id not on the board changes nothing |
| `KanbanModel.TaskIdsOfMove` | src/Components/kanbanBoard.tsx:191 | the ids of a moved task list are the moved ids |
| `KanbanModel.MoveTaskOverItself` | src/Components/kanbanBoard.tsx:175 | dragging a task over itself changes nothing |
| `KanbanModel.MoveTaskOverTaskKeepsWellFormed` | src/Components/kanbanBoard.tsx:184-193 | the dragged task joins a live column and ids stay unique |
| `KanbanModel.MoveTaskOverColumn` | src/Components/kanbanBoard.tsx:198-206 | only the dragged task's column changes, to the column's id; every task keeps its index; an absent task changes nothing |
| `KanbanModel.MoveTaskOverColumnKeepsWellFormed` | src/Components/kanbanBoard.tsx:198-206 | a move into a live column keeps the board invariant |
| `KanbanModel.ExampleTaskOverColumn` | src/Components/kanbanBoard.tsx:198-206 | t1 and t2 both in A, with t1 dropped on column B, become t1 in B then t2 in A |
| `KanbanModel.ExampleMoveColumn` | src/Components/kanbanBoard.tsx:158-164 | any columns A, B, C, with C's id differing from the others, become C, A, B when C is dropped on A |
| `KanbanModel.ExampleTaskOverTask` | src/Components/kanbanBoard.tsx:184-193 | with t1, t2 in A and t3 in B, dragging t1 over t3 puts t1 in B and gives the order t2, t3, t1 |
| `KanbanModel.ExampleDeleteColumn` | src/Components/kanbanBoard.tsx:111-117 | deleting A from A, B with tasks t1 in A and t2 in B leaves column B and task t2 |
| `KanbanModel.ExampleCreateNewColumn` | src/Components/kanbanBoard.tsx:101-108 | the column added to a board of two is titled `Column 3` |
| `DragData.TaskData` | src/Components/TaskCard.tsx:27-34 | a task card's drag data is tagged "Task" and carries the task |
| `DragData.ColumnDataAsWritten` | src/Components/ColumnsContainer.tsx:36-43 | a column's drag data, as written, has a `type` that is neither "Column" nor "Task" |
| `DragData.ColumnData` | src/Components/ColumnsContainer.tsx:36-43 | a column's drag data as the handlers expect it is tagged "Column" and carries the column |
| `KanbanBoard.Board.constructor` | src/Components/kanbanBoard.tsx:20-26 | the board starts empty, with no drag snapshot, and is valid |
| `KanbanBoard.Board.CreateNewColumn` | src/Components/kanbanBoard.tsx:101-108 | the columns become `CreateNewColumn` of the old ones; the tasks are unchanged; the invariant is kept |
| `KanbanBoard.Board.DeleteColumn` | src/Components/kanbanBoard.tsx:111-117 | the column and its tasks are removed, with no task of that column left; the invariant is kept |
| `KanbanBoard.Board.UpdateColumnTitle` | src/Components/kanbanBoard.tsx:120-128 | only the columns change, as `UpdateColumnTitle` says; the invariant is kept |
| `KanbanBoard.Board.CreateTask` | src/Components/kanbanBoard.tsx:213-221 | only the tasks change, as `CreateTask` says; the invariant is kept |
| `KanbanBoard.Board.DeleteTask` | src/Components/kanbanBoard.tsx:224-227 | only the tasks change, as `DeleteTask` says; the invariant is kept |
| `KanbanBoard.Board.UpdateTask` | src/Components/kanbanBoard.tsx:230-237 | only the tasks change, as `UpdateTask` says; the invariant is kept |
| `KanbanBoard.Board.OnDragStart` | src/Components/kanbanBoard.tsx:134-144 | a "Column" tag sets only the column snapshot, a "Task" tag sets only the task snapshot, and any other tag changes nothing; the invariant is kept |
| `KanbanBoard.Board.OnDragEnd` | src/Components/kanbanBoard.tsx:147-165 | both snapshots are cleared and the tasks are unchanged; the columns are unchanged without a target or on the item itself, and are otherwise reordered by `MoveColumn` |
| `KanbanBoard.Board.OnDragOver` | src/Components/kanbanBoard.tsx:168-208 | columns and snapshots are untouched; the tasks are unchanged without a target, on the item itself or when a non-task is dragged; otherwise they follow `MoveTaskOverTask` or `MoveTaskOverColumn` by the target's tag; the invariant is kept |
| `KanbanBoard.ColumnDragStartAsWritten` | src/Components/ColumnsContainer.tsx:36-43 | with the column data as written, starting a column drag changes neither snapshot, so the column never becomes active; only the snapshots may change |
| `KanbanBoard.ColumnDragStart` | src/Components/kanbanBoard.tsx:134-137 | with the column data tagged "Column", starting a column drag makes that column active and leaves the task snapshot, the columns and the tasks as they were |
| `KanbanBoard.TaskDragStart` | src/Components/kanbanBoard.tsx:140-142 | with the data a task card attaches, tagged "Task", starting a drag makes that task active and leaves the active column, the columns and the tasks as they were |
| `KanbanBoard.TaskOverColumnAsWritten` | src/Components/kanbanBoard.tsx:195-198 | with the column data as written, dragging a task over a column leaves the tasks unchanged; the columns and snapshots are not touched |
| `KanbanBoard.TaskOverColumn` | src/Components/kanbanBoard.tsx:195-206 | with the column data tagged "Column", the dragged task joins the column and the tasks follow `MoveTaskOverColumn`; the columns and snapshots are not touched |

## Findings

| source | as written | input that shows it | evidently intended | confidence | as-written member | corrected member |
|---|---|---|---|---|---|---|
| src/Components/ColumnsContainer.tsx:39 | a column's drag data stores the column object under `type`, but the handlers test `type === 'Column'` (src/Components/kanbanBoard.tsx:135 and :195) | any column: dragging it leaves `activeColumn` null, and dragging a task over it never moves the task into it | `type: "Column"`, as the task card's `type: "Task"` | high, not executed | `DragData.ColumnDataAsWritten`, `KanbanBoard.ColumnDragStartAsWritten`, `KanbanBoard.TaskOverColumnAsWritten` | `DragData.ColumnData`, `KanbanBoard.ColumnDragStart`, `KanbanBoard.TaskOverColumn` |

The handlers in `Board` take the `type` tag as an explicit argument, so they
model the intended behaviour. The column reorder at drag end is unaffected by the
finding, because `OndragEnd` does not look at the tag.

## Left out

- Rendering, hooks (`useMemo`, `useSensors`), the drag overlay and the portal (src/Components/kanbanBoard.tsx:30-92) are UI plumbing. The only logic there, the per-column filter at line 56, is `KanbanModel.TasksOf`.
- The column and task components (`ColumnsContainer.tsx`, `TaskCard.tsx`) only hold local UI flags. Their drag data is modelled in `DragData`.
- `generateId` draws from `Math.random` and does not guarantee uniqueness. The create operations take the fresh id as an argument instead. The `Board` methods require that id to be unused, which is what keeps ids unique.
- A `findIndex` that returns -1 (src/Components/kanbanBoard.tsx:159-163, 186-191, 200-204) is modelled as a no-op. The source does not guard it. `tasks[-1].columnId` would throw, and the behaviour of dnd-kit's `arrayMove` on -1 is not part of this model. This path is not only for a stale id. It is taken whenever a task drag ends over a different item (the returns at lines 152 and 156 come first) and the task's id is not also a column id. Then `columns.findIndex` at line 159 returns -1 and the source calls `arrayMove(columns, -1, overColumnIndex)`. The promise of `KanbanBoard.Board.OnDragEnd` (through `KanbanModel.MoveColumn`) that a task drag end leaves the columns as they were therefore rests on this no-op choice.
- Aliasing is not modelled. `OndragOver` writes `columnId` into the task object in place, and that object is shared with the previous state and with the `ActiveTask` snapshot. The model builds a new task value, so the snapshot keeps the old column id.
- React's batching of state updates and stale closures are framework timing, not board logic. Each method applies its update at once.
- The pointer-sensor activation distance (src/Components/kanbanBoard.tsx:30-34) is not modelled.
- `KanbanBoard.Board.OnDragOver`: requires that a target tagged "Column" be a live column. The source takes this on trust from the drag library, which only reports registered droppables. Without it the invariant could not be kept.
- `KanbanBoard.Board.CreateTask`: requires the column to be live. The source does not check it, but its only callers pass their own column's id.
