/** The task record persisted by the service, and the nullable values it is built from. */
module Models {

  /** A nullable value: `None` stands for a C# `null`. */
  datatype Option<+T> = None | Some(value: T)

  /** A point in time, as .NET counts it: a number of ticks. Due dates are only stored and compared. */
  datatype DateTime = DateTime(ticks: int)

  /** One row of the `Task` table. */
  datatype Task = Task(
    id: int,
    title: Option<string>,
    description: Option<string>,
    dueDate: Option<DateTime>,
    isCompleted: bool)

  /** A task as `new Task()` builds it: id 0 (left to the store), no text, no due date, not completed. */
  const DefaultTask: Task := Task(0, None, None, None, false)

  /** `string.IsNullOrEmpty`. */
  predicate IsNullOrEmpty(s: Option<string>)
  {
    s.None? || s.value == ""
  }

  /** The invariant of every stored row: its title is neither null nor empty. */
  predicate HasTitle(t: Task)
  {
    !IsNullOrEmpty(t.title)
  }
}
