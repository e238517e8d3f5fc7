/**
 * The task record and its status, as declared in src/types/Task.ts.
 */
module TaskTypes {

  /** Optional values: `undefined`/`null` in the store become `None`. */
  datatype Option<T> = None | Some(value: T)

  /**
   * The string-literal union of task statuses: exactly three values,
   * with no order between them and no restriction on transitions.
   */
  datatype TaskStatus = Pending | InProgress | Completed

  /** The literal that stands for each status. */
  function StatusName(s: TaskStatus): string {
    match s
    case Pending => "pending"
    case InProgress => "in-progress"
    case Completed => "completed"
  }

  /** Reads a status literal; any other text is not a status. */
  function ParseStatus(text: string): (r: Option<TaskStatus>)
    ensures r.Some? ==> StatusName(r.value) == text
    ensures r.None? ==> text != "pending" && text != "in-progress" && text != "completed"
  {
    if text == "pending" then Some(Pending)
    else if text == "in-progress" then Some(InProgress)
    else if text == "completed" then Some(Completed)
    else None
  }

  /** A text is a status exactly when it is the literal of that status. */
  lemma StatusLiterals(s: TaskStatus, text: string)
    ensures ParseStatus(text) == Some(s) <==> text == StatusName(s)
  {
  }

  /**
   * A task: an opaque id, three free texts (the due date is a string with
   * no date meaning in the store), a status, and the creation instant in
   * milliseconds, the only field the store orders by.
   */
  datatype Task = Task(
    id: string,
    title: string,
    description: string,
    dueDate: string,
    status: TaskStatus,
    createdAt: int)
}
