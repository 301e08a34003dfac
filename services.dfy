/** The task service: validation and the create, read, update and delete operations on the table. */
module Services {
  import opened Models
  import opened Data

  /** The exceptions the service throws, as values. */
  datatype Error =
    | InvalidArgument(paramName: string)   // ArgumentNullException, with the name it is given
    | NotFound(message: string)            // the plain Exception thrown by UpdateTask
    | NullReference                        // dereferencing a null task in UpdateTask

  datatype Result<+T> = Ok(value: T) | Err(error: Error)

  /** The field-wise merge UpdateTask performs: text fields and the due date overwrite the
      stored value only when present, the completion flag always takes the incoming value. */
  function Merge(stored: Task, incoming: Task): (r: Task)
    ensures r.id == stored.id
    ensures r.isCompleted == incoming.isCompleted
    ensures HasTitle(stored) ==> HasTitle(r)
  {
    Task(
      stored.id,
      if IsNullOrEmpty(incoming.title) then stored.title else incoming.title,
      if IsNullOrEmpty(incoming.description) then stored.description else incoming.description,
      if incoming.dueDate.None? then stored.dueDate else incoming.dueDate,
      incoming.isCompleted)
  }

  /** Applying the same update twice is the same as applying it once. */
  lemma MergeIdempotent(stored: Task, incoming: Task)
    ensures Merge(Merge(stored, incoming), incoming) == Merge(stored, incoming)
  {
  }

  /** Updating a row with itself changes nothing. */
  lemma MergeSelf(stored: Task)
    ensures Merge(stored, stored) == stored
  {
  }

  /** An update that supplies every field replaces the stored row by the incoming one. */
  lemma MergeAllFields(stored: Task, incoming: Task)
    requires incoming.id == stored.id
    requires !IsNullOrEmpty(incoming.title) && !IsNullOrEmpty(incoming.description)
    requires incoming.dueDate.Some?
    ensures Merge(stored, incoming) == incoming
  {
  }

  /** An update that differs from the stored row only in a non-empty title changes only the title. */
  lemma MergeOnlyTitle(stored: Task, title: string)
    requires title != ""
    ensures Merge(stored, stored.(title := Some(title))) == stored.(title := Some(title))
  {
  }

  /** The service over its table. The table is the sequence of rows in store order; `nextId`
      stands for the store's auto-increment and is the id the next created row receives. */
  class TaskManagerService {
    var tasks: seq<Task>
    var nextId: int

    /** Ids are distinct and were all handed out by the counter; every row has a title. */
    ghost predicate Valid()
      reads this
    {
      && 1 <= nextId
      && (forall t :: t in tasks ==> 1 <= t.id < nextId)
      && DistinctIds(tasks)
      && AllTitled(tasks)
    }

    /** A service over a freshly created, empty table. */
    constructor ()
      ensures Valid()
      ensures tasks == [] && nextId == 1
    {
      tasks := [];
      nextId := 1;
    }

    /** Rejects a null task or one without a title; otherwise stores it under a fresh id. */
    method CreateTask(task: Option<Task>) returns (r: Result<Task>)
      requires Valid()
      modifies this
      ensures Valid()
      ensures task.None? ==> r == Err(InvalidArgument("task"))
      ensures task.Some? && IsNullOrEmpty(task.value.title) ==> r == Err(InvalidArgument("Description of the Task"))
      ensures r.Err? ==> tasks == old(tasks) && nextId == old(nextId)
      ensures r.Ok? <==> task.Some? && HasTitle(task.value)
      ensures r.Ok? ==> r.value == task.value.(id := old(nextId))
      ensures r.Ok? ==> forall t :: t in old(tasks) ==> t.id != r.value.id
      ensures r.Ok? ==> tasks == old(tasks) + [r.value] && nextId == old(nextId) + 1
      ensures r.Ok? ==> GetTask(r.value.id) == Some(r.value)
    {
      if task.None? {
        return Err(InvalidArgument("task"));
      }
      if IsNullOrEmpty(task.value.title) {
        return Err(InvalidArgument("Description of the Task"));
      }
      var stored := task.value.(id := nextId);
      FindIndexUnique(tasks + [stored], |tasks|);
      tasks := tasks + [stored];
      nextId := nextId + 1;
      r := Ok(stored);
    }

    /** Deletes the row with that id; an unknown id is silently ignored. */
    method DeleteTask(taskId: int)
      requires Valid()
      modifies this
      ensures Valid()
      ensures tasks == Without(old(tasks), taskId) && nextId == old(nextId)
      ensures GetTask(taskId) == None
      ensures forall t :: t in old(tasks) && t.id != taskId ==> t in tasks
      ensures old(GetTask(taskId)).Some? ==> |tasks| == |old(tasks)| - 1
      ensures old(GetTask(taskId)).None? ==> tasks == old(tasks)
    {
      WithoutDistinct(tasks, taskId);
      if FindIndex(tasks, taskId).Some? {
        WithoutSize(tasks, taskId);
      }
      tasks := Without(tasks, taskId);
    }

    /** `ToList()`: the rows of the table, each the one a lookup of its id finds. */
    function GetAllTask(): (r: seq<Task>)
      reads this
      requires Valid()
      ensures |r| == |tasks|
      ensures forall t :: t in r ==> GetTask(t.id) == Some(t)
      ensures forall id :: GetTask(id).Some? ==> GetTask(id).value in r
    {
      tasks
    }

    /** The row with that id, or `None` when there is none. */
    function GetTask(taskId: int): (r: Option<Task>)
      reads this
      ensures r.Some? ==> r.value in tasks && r.value.id == taskId
      ensures r.None? <==> forall t :: t in tasks ==> t.id != taskId
    {
      match FindIndex(tasks, taskId)
      case None => None
      case Some(i) => Some(tasks[i])
    }

    /** Looks up the stored row by the incoming id and merges the incoming fields into it. */
    method UpdateTask(task: Option<Task>) returns (r: Result<Task>)
      requires Valid()
      modifies this
      ensures Valid()
      ensures nextId == old(nextId)
      ensures task.None? ==> r == Err(NullReference)
      ensures task.Some? && old(GetTask(task.value.id)).None? ==> r == Err(NotFound("Task not found"))
      ensures r.Err? ==> tasks == old(tasks)
      ensures task.Some? && old(GetTask(task.value.id)).Some? ==>
        var i := FindIndex(old(tasks), task.value.id).value;
        r == Ok(Merge(old(tasks)[i], task.value)) && tasks == old(tasks)[i := r.value]
      ensures r.Ok? ==> GetTask(task.value.id) == Some(r.value)
    {
      if task.None? {
        return Err(NullReference);
      }
      var incoming := task.value;
      var found := FindIndex(tasks, incoming.id);
      if found.None? {
        return Err(NotFound("Task not found"));
      }
      var i := found.value;
      var taskUpdate := tasks[i];
      if !IsNullOrEmpty(incoming.title) {
        taskUpdate := taskUpdate.(title := incoming.title);
      }
      if !IsNullOrEmpty(incoming.description) {
        taskUpdate := taskUpdate.(description := incoming.description);
      }
      if incoming.dueDate.Some? {
        taskUpdate := taskUpdate.(dueDate := incoming.dueDate);
      }
      if incoming.isCompleted != taskUpdate.isCompleted {
        taskUpdate := taskUpdate.(isCompleted := incoming.isCompleted);
      }
      assert HasTitle(Merge(tasks[i], incoming));
      tasks := tasks[i := taskUpdate];
      FindIndexUnique(tasks, i);
      r := Ok(taskUpdate);
    }
  }
}
