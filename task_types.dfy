/** Values of the task store: the caller identity, the task record, the result
    of a mutating call, and the replace-or-keep field update of `update_task`. */
module TaskTypes {

  /** An optional argument: `None` leaves a field unchanged, `Some(v)` replaces it. */
  datatype Option<T> = None | Some(value: T) {
    function GetOr(default: T): T {
      match this
      case Some(v) => v
      case None => default
    }
  }

  /** The identity of a caller; on the platform a principal is a short byte blob
      compared by equality only. */
  datatype Principal = Principal(bytes: seq<bv8>)

  /** A to-do item. `id` is the key it is stored under (a `u64` in the source). */
  datatype Task = Task(id: nat, title: string, completed: bool, owner: Principal)

  /** `Result<(), String>` of `delete_task` and `update_task`. */
  datatype Result = Ok | Err(msg: string)

  const TaskNotFound: string := "Task not found"
  const NotOwner: string := "You are not the owner of this task"

  /** The two independent optional field updates of `update_task`: each field is
      replaced when its argument is present and kept otherwise; the id and the
      owner are never touched. */
  function Patch(t: Task, newTitle: Option<string>, completed: Option<bool>): (r: Task)
    ensures r.id == t.id && r.owner == t.owner
    ensures r.title == newTitle.GetOr(t.title)
    ensures r.completed == completed.GetOr(t.completed)
    ensures newTitle.None? ==> r.title == t.title
    ensures completed.None? ==> r.completed == t.completed
  {
    var withTitle := if newTitle.Some? then t.(title := newTitle.value) else t;
    if completed.Some? then withTitle.(completed := completed.value) else withTitle
  }

  /** Applying the same field updates twice is the same as applying them once. */
  lemma PatchIdempotent(t: Task, newTitle: Option<string>, completed: Option<bool>)
    ensures Patch(Patch(t, newTitle, completed), newTitle, completed) == Patch(t, newTitle, completed)
  {
  }

  /** With both arguments absent the task is left as it is. */
  lemma PatchNoneIsIdentity(t: Task)
    ensures Patch(t, None, None) == t
  {
  }

  /** The two field updates are independent: updating both at once is updating
      the title and then, separately, the completion flag (in either order). */
  lemma PatchFieldsIndependent(t: Task, title: string, status: bool)
    ensures Patch(t, Some(title), Some(status)) == Patch(Patch(t, Some(title), None), None, Some(status))
    ensures Patch(t, Some(title), Some(status)) == Patch(Patch(t, None, Some(status)), Some(title), None)
  {
  }
}
