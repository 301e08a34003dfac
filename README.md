# TaskManager task service, modelled in Dafny

TaskManager is a small CRUD service for to-do tasks. A `Task` row has an id, a title, a
description, an optional due date and a completion flag. `TaskManagerService` validates
requests and applies them to a single `Task` table: create, look up by id, list, update, and
delete by id.

This project models that service over an explicit table:

- `models.dfy` (module `Models`): the `Task` record. Nullable strings and dates become
  `Option`. A `DateTime` is a tick count that is only stored and compared. `DefaultTask` is what
  `new Task()` builds: id 0, no text, no date, not completed.
- `data.dfy` (module `Data`): the table is a sequence of rows in store order. It defines the
  two queries the service runs. `FindIndex` is `Where(t => t.Id == id).FirstOrDefault()`.
  `Without` is `Where(t => t.Id == id).ExecuteDelete()`. The lemmas say that deleting keeps ids
  distinct and that deleting a present id removes exactly one row.
- `services.dfy` (module `Services`): the class `TaskManagerService`. Its field `tasks` holds the
  rows. Its field `nextId` stands in for the store's auto-increment. The C# exceptions become a
  tagged `Result`:
  - `InvalidArgument(paramName)` for `ArgumentNullException`, with the same parameter names the
    source passes.
  - `NotFound("Task not found")` for the exception thrown by `UpdateTask`.
  - `NullReference` for a null task given to `UpdateTask`.

  `Valid()` is the class invariant: ids are distinct, every id was handed out by the counter,
  and every stored task has a non-empty title. Each method keeps `Valid()`. `Merge` is the
  field-wise update rule, and the lemmas beside it state what an update does.
- `services_tests.dfy` (module `ServicesTests`): the repository's NUnit scenarios, written as
  clients of the class. Each one's `ensures` is the value the scenario expects, proved from the
  methods' contracts and the definitions of the two queries `GetTask` and `GetAllTask`. For
  example, id 4 is assigned after three seeded rows, and deleting id 2 leaves 2 rows.

`UpdateTask` in the source assigns the fields one by one and writes the completion flag only
when it differs. The method keeps that shape. Its contract equates the stored row with `Merge`
of the old row and the incoming task. So the flag always ends up equal to the incoming value,
as the comparison at Services/TaskManagerService.cs:50 makes happen.

## Model

| member | source | states |
|---|---|---|
| `Data.FindIndex` | Services/TaskManagerService.cs:39 | the first row whose id matches, and when no row matches, exactly that no row carries the id |
| `Data.FindIndexUnique` | Services/TaskManagerService.cs:44 | in a table with distinct ids, looking up a row's id finds that very row |
| `Data.Without` | Services/TaskManagerService.cs:29 | after a delete by id, the rows left are exactly the old rows with a different id; an absent id leaves the table as it was |
| `Data.WithoutDistinct` | Services/TaskManagerService.cs:29 | a delete keeps the table's ids distinct |
| `Data.WithoutSize` | Services/TaskManagerService.cs:29 | deleting an id that is present removes exactly one row |
| `Services.Merge` | Services/TaskManagerService.cs:47-50 | the field-wise update, defined by its body: a title or description overwrites only when not null or empty, a due date only when not null; its contract states that the id is the stored one, that the flag always takes the incoming value, and that a titled row stays titled |
| `Services.MergeIdempotent` | Services/TaskManagerService.cs:47-50 | applying the same update twice gives the row that applying it once gives |
| `Services.MergeSelf` | Services/TaskManagerService.cs:47-50 | updating a row with its own stored value changes nothing |
| `Services.MergeAllFields` | Services/TaskManagerService.cs:47-50 | an update that supplies title, description and due date replaces every field with the incoming value, completion flag included |
| `Services.MergeOnlyTitle` | Services/TaskManagerService.cs:47 | an update that differs from the row only in a non-empty title changes the title and nothing else |
| `Services.TaskManagerService.constructor` | Services/TaskManagerService.cs:11-14 | a service over a freshly created table starts empty, with the counter at id 1, and satisfies the invariant |
| `Services.TaskManagerService.CreateTask` | Services/TaskManagerService.cs:16-25 | a null task fails with `InvalidArgument("task")` and an empty or null title fails with `InvalidArgument("Description of the Task")`, both leaving the table unchanged; otherwise the row is appended with the input's fields and an id no earlier row carries, the table grows by one, and lookup finds the new row |
| `Services.TaskManagerService.DeleteTask` | Services/TaskManagerService.cs:27-30 | the id is no longer found and every other row stays; a present id shrinks the table by one, and an unknown id leaves it unchanged with no error |
| `Services.TaskManagerService.GetAllTask` | Services/TaskManagerService.cs:32-35 | the list has as many rows as the table, every listed row is what a lookup of its id returns, and every row a lookup finds is listed |
| `Services.TaskManagerService.GetTask` | Services/TaskManagerService.cs:37-40 | a found row is in the table and carries the id; `None` exactly when no row carries it; the table is only read |
| `Services.TaskManagerService.UpdateTask` | Services/TaskManagerService.cs:42-55 | an unknown id fails with `NotFound` and a null task with `NullReference`, both leaving the table unchanged; otherwise the row with that id, and only it, becomes the merge of the old row and the incoming task, the id is kept, and the returned task is the stored row |
| `ServicesTests.DefaultTasks` | ServicesTests/CRUDTasksTests.cs:201-224 | the three seed rows are built without ids and all have titles |
| `ServicesTests.SeedDefaultTasks` | ServicesTests/CRUDTasksTests.cs:201-228 | loading the seed rows into a fresh table gives them ids 1, 2 and 3 |
| `ServicesTests.CreateNewCompleteTask` | ServicesTests/CRUDTasksTests.cs:27-46 | a complete new task comes back with its own fields and id 4 |
| `ServicesTests.CreateTaskBlankTitle` | ServicesTests/CRUDTasksTests.cs:48-58 | a blank title is rejected and the table keeps its 3 rows |
| `ServicesTests.CreateTaskOnlyTitle` | ServicesTests/CRUDTasksTests.cs:60-76 | a title-only task keeps its default fields and gets id 4 |
| `ServicesTests.UpdateOnlyTitleTask` | ServicesTests/CRUDTasksTests.cs:78-95 | a new title on row 2 leaves its description, due date and flag unchanged |
| `ServicesTests.UpdateAllTask` | ServicesTests/CRUDTasksTests.cs:97-117 | a full update of row 2 returns exactly the incoming task |
| `ServicesTests.UpdateInvalidTask` | ServicesTests/CRUDTasksTests.cs:119-130 | updating id 99 fails with `NotFound` and the table keeps 3 rows |
| `ServicesTests.DeleteValidTaskById` | ServicesTests/CRUDTasksTests.cs:132-142 | deleting id 2 leaves 2 rows, and id 2 is no longer found |
| `ServicesTests.DeleteInvalidTaskById` | ServicesTests/CRUDTasksTests.cs:144-154 | deleting id 99 leaves the 3 rows |
| `ServicesTests.ReadTaskById` | ServicesTests/CRUDTasksTests.cs:156-169 | reading id 1 gives the first seed row |
| `ServicesTests.ReadInvalidTaskShouldReturnNull` | ServicesTests/CRUDTasksTests.cs:171-179 | reading id 99 gives `None` rather than an error |
| `ServicesTests.ReadAllTask` | ServicesTests/CRUDTasksTests.cs:181-189 | listing the seeded table gives 3 rows |

## Left out

- The HTTP controller, which only maps the service's exceptions to status codes, is not part of
  this model. Controllers/TaskManagerController.cs:60-63 answers 404 when a delete throws. Since
  `DeleteTask` never fails, that answer cannot happen.
- Application start-up is not part of this model: dependency injection, the in-memory SQLite
  connection, Swagger, and `EnsureCreated`. The constructor instead starts from an empty table.
- The EF Core context, change tracking and `SaveChanges` are replaced by the `tasks` sequence.
  Each operation changes at most one row, in one atomic step. Failures raised by the store
  itself are not modelled.
- `CreateTask`: the store always assigns the id from the counter. The case of a caller who
  supplies a non-default `Id` is not modelled.
- Ids: ids come from a counter that starts at 1, goes up by one on each successful create and
  never reuses an id. This is what an auto-increment key does when the caller leaves `Id` at 0.
  The 32-bit range of `int` is not modelled, so an overflow past `Int32.MaxValue` is not
  modelled.
- Aliasing: C# hands out and stores references to tracked objects, so a caller who mutates a
  returned task mutates the tracked row. The model works on values. For example, in the
  only-title update scenario the source passes the tracked object itself. The model passes a
  copy with the new title, which ends in the same stored row. Aliasing also means the
  non-empty-title invariant in `Valid()` is not an unconditional property of the C# code.
  Suppose a caller gets a tracked task from `GetTask` (Services/TaskManagerService.cs:39), sets
  its title to empty or null, and passes it to `UpdateTask`. The lookup at line 44 returns that
  same object, so line 47 skips the write, and `SaveChanges` at line 52 stores the empty title
  anyway. Any later `SaveChanges`, such as the one in `CreateTask` at line 23, would do the same.
  The invariant therefore holds only for callers that reach rows through the service's values.
  Every HTTP request is such a caller: it gets a freshly deserialized task and its own scoped
  context (Program.cs:9, 18).
- The seed rows are inserted through `CreateTask`, not through the context's `AddRange`. This
  gives the same table, because every seed row has a title.
- `GetAllTask` lists the rows in insertion order. The source promises no order.
- Concurrent requests on the shared database, and last-write-wins behaviour, are not modelled.
- `DateTime.Now` is not modelled: the scenarios take the current time as a parameter.
