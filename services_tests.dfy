/** The NUnit scenarios for the service, as clients that rely on its methods' contracts and the
    definitions of its two queries.
    `now` and `later` stand for the `DateTime.Now` values the scenarios read. */
module ServicesTests {
  import opened Models
  import opened Services

  /** The three rows every scenario starts from, as they are built (ids not yet assigned). */
  function DefaultTasks(now: DateTime): (r: seq<Task>)
    ensures |r| == 3 && forall t :: t in r ==> t.id == 0 && HasTitle(t)
  {
    [ DefaultTask.(title := Some("Task tile 1"), description := Some("Description of the new task 1"),
                   isCompleted := true, dueDate := Some(now)),
      DefaultTask.(title := Some("Task tile 2"), description := Some("Description of the new task 2"),
                   isCompleted := false, dueDate := Some(now)),
      DefaultTask.(title := Some("Task tile 3")) ]
  }

  /** A fresh empty table loaded with the default rows, which receive ids 1, 2 and 3. */
  method SeedDefaultTasks(now: DateTime) returns (service: TaskManagerService)
    ensures fresh(service) && service.Valid()
    ensures service.nextId == 4
    ensures service.tasks == [ DefaultTasks(now)[0].(id := 1),
                               DefaultTasks(now)[1].(id := 2),
                               DefaultTasks(now)[2].(id := 3) ]
  {
    var defaults := DefaultTasks(now);
    service := new TaskManagerService();
    var r1 := service.CreateTask(Some(defaults[0]));
    var r2 := service.CreateTask(Some(defaults[1]));
    var r3 := service.CreateTask(Some(defaults[2]));
  }

  /** A complete new task is stored with every field as given and the id after the seeded ones. */
  method CreateNewCompleteTask(now: DateTime) returns (created: Result<Task>)
    ensures created == Ok(Task(4, Some("New Task tile"), Some("Description of the new task"), Some(now), true))
  {
    var service := SeedDefaultTasks(now);
    var newTask := DefaultTask.(title := Some("New Task tile"), description := Some("Description of the new task"),
                                isCompleted := true, dueDate := Some(now));
    created := service.CreateTask(Some(newTask));
  }

  /** A blank title is rejected. */
  method CreateTaskBlankTitle(now: DateTime) returns (created: Result<Task>, count: nat)
    ensures created == Err(InvalidArgument("Description of the Task"))
    ensures count == 3
  {
    var service := SeedDefaultTasks(now);
    created := service.CreateTask(Some(DefaultTask.(title := Some(""))));
    count := |service.GetAllTask()|;
  }

  /** A task with only a title keeps its defaults and gets the next id. */
  method CreateTaskOnlyTitle(now: DateTime) returns (created: Result<Task>)
    ensures created == Ok(DefaultTask.(id := 4, title := Some("Only title")))
  {
    var service := SeedDefaultTasks(now);
    created := service.CreateTask(Some(DefaultTask.(title := Some("Only title"))));
  }

  /** Changing only the title of the second seeded row leaves its other fields as they were. */
  method UpdateOnlyTitleTask(now: DateTime) returns (updated: Result<Task>)
    ensures updated == Ok(Task(2, Some("New Title"), Some("Description of the new task 2"), Some(now), false))
  {
    var service := SeedDefaultTasks(now);
    var updatedTask := service.tasks[1].(title := Some("New Title"));
    updated := service.UpdateTask(Some(updatedTask));
  }

  /** An update that supplies every field overwrites every field of the row. */
  method UpdateAllTask(now: DateTime, later: DateTime) returns (saved: Result<Task>)
    ensures saved == Ok(Task(2, Some("Task tile updated"), Some("Description of the task changed"), Some(later), true))
  {
    var service := SeedDefaultTasks(now);
    var updatedTask := Task(2, Some("Task tile updated"), Some("Description of the task changed"), Some(later), true);
    saved := service.UpdateTask(Some(updatedTask));
  }

  /** Updating an id that is not in the table fails and changes nothing. */
  method UpdateInvalidTask(now: DateTime) returns (saved: Result<Task>, count: nat)
    ensures saved == Err(NotFound("Task not found"))
    ensures count == 3
  {
    var service := SeedDefaultTasks(now);
    saved := service.UpdateTask(Some(DefaultTask.(id := 99, title := Some("Task tile updated"))));
    count := |service.GetAllTask()|;
  }

  /** Deleting a seeded id removes one row. */
  method DeleteValidTaskById(now: DateTime) returns (count: nat, gone: Option<Task>)
    ensures count == 2 && gone == None
  {
    var service := SeedDefaultTasks(now);
    service.DeleteTask(2);
    count := |service.GetAllTask()|;
    gone := service.GetTask(2);
  }

  /** Deleting an unknown id removes nothing. */
  method DeleteInvalidTaskById(now: DateTime) returns (count: nat)
    ensures count == 3
  {
    var service := SeedDefaultTasks(now);
    service.DeleteTask(99);
    count := |service.GetAllTask()|;
  }

  /** Reading id 1 gives the first seeded row. */
  method ReadTaskById(now: DateTime) returns (task: Option<Task>)
    ensures task == Some(DefaultTasks(now)[0].(id := 1))
  {
    var service := SeedDefaultTasks(now);
    task := service.GetTask(1);
  }

  /** Reading an unknown id gives no task, not an error. */
  method ReadInvalidTaskShouldReturnNull(now: DateTime) returns (task: Option<Task>)
    ensures task == None
  {
    var service := SeedDefaultTasks(now);
    task := service.GetTask(99);
  }

  /** Listing the seeded table gives its three rows. */
  method ReadAllTask(now: DateTime) returns (count: nat)
    ensures count == 3
  {
    var service := SeedDefaultTasks(now);
    count := |service.GetAllTask()|;
  }
}
