/**
 * The Task document (`TaskSchema` in models/task.js): its fields, its required
 * fields, its defaults, and how a partial request body is laid over it.
 *
 * Text fields use "" for every JavaScript-falsy value (`undefined`, `null`, the empty
 * string), which is all the route handlers distinguish. Dates (`deadline`,
 * `dateCreated`) are opaque stamps; "" again means absent.
 */
module TaskModel {
  import opened Maybe

  /** An opaque timestamp; the conversion to a `Date` is not modelled. */
  type Stamp = string

  /** Sentinel stored in `assignedUserName` when no user is assigned. */
  const UNASSIGNED_NAME: string := "unassigned"

  datatype Task = Task(
    name: string,
    description: string,
    deadline: Stamp,
    completed: bool,
    assignedUser: string,   // a User id, or "" for unassigned
    assignedUserName: string,
    dateCreated: Stamp)

  /** The fields a request body may carry; `None` is a field left `undefined`. */
  datatype TaskPatch = TaskPatch(
    name: Option<string>,
    description: Option<string>,
    deadline: Option<Stamp>,
    completed: Option<bool>,
    assignedUser: Option<string>,
    assignedUserName: Option<string>)

  /** A patch that supplies nothing. */
  const EMPTY_PATCH: TaskPatch := TaskPatch(None, None, None, None, None, None)

  /** `name` and `deadline` are required: both must be present and non-empty. */
  predicate HasRequired(t: Task) {
    t.name != "" && t.deadline != ""
  }

  /** A task that belongs in its owner's `pendingTasks`: assigned and not completed. */
  predicate Pending(t: Task) {
    t.assignedUser != "" && !t.completed
  }

  /**
   * A freshly constructed task: every schema default applied, `dateCreated` stamped with `now`,
   * and the required fields still missing.
   */
  function NewTask(now: Stamp): (t: Task)
    ensures !t.completed
    ensures t.assignedUser == "" && t.assignedUserName == UNASSIGNED_NAME
    ensures t.dateCreated == now
    ensures !HasRequired(t) && !Pending(t)
  {
    Task("", "", "", false, "", UNASSIGNED_NAME, now)
  }

  /**
   * The update handler's field assignments, each guarded by the body field being defined:
   * a supplied field overwrites, an absent one keeps its value, and `dateCreated`
   * is never touched.
   */
  function Patch(t: Task, p: TaskPatch): (r: Task)
    ensures p.name.Some? ==> r.name == p.name.value
    ensures p.name.None? ==> r.name == t.name
    ensures p.description.Some? ==> r.description == p.description.value
    ensures p.description.None? ==> r.description == t.description
    ensures p.deadline.Some? ==> r.deadline == p.deadline.value
    ensures p.deadline.None? ==> r.deadline == t.deadline
    ensures p.completed.Some? ==> r.completed == p.completed.value
    ensures p.completed.None? ==> r.completed == t.completed
    ensures p.assignedUser.Some? ==> r.assignedUser == p.assignedUser.value
    ensures p.assignedUser.None? ==> r.assignedUser == t.assignedUser
    ensures p.assignedUserName.Some? ==> r.assignedUserName == p.assignedUserName.value
    ensures p.assignedUserName.None? ==> r.assignedUserName == t.assignedUserName
    ensures r.dateCreated == t.dateCreated
  {
    Task(
      p.name.GetOr(t.name),
      p.description.GetOr(t.description),
      p.deadline.GetOr(t.deadline),
      p.completed.GetOr(t.completed),
      p.assignedUser.GetOr(t.assignedUser),
      p.assignedUserName.GetOr(t.assignedUserName),
      t.dateCreated)
  }

  /** Laying the same patch twice is the same as laying it once. */
  lemma PatchIdempotent(t: Task, p: TaskPatch)
    ensures Patch(Patch(t, p), p) == Patch(t, p)
  {
  }

  /** A patch that supplies nothing leaves the task as it was. */
  lemma PatchEmpty(t: Task)
    ensures Patch(t, EMPTY_PATCH) == t
  {
  }

  /**
   * The create handler's unconditional copy of `name` from the body (and likewise
   * `description`, `deadline`) agrees with the guarded update over a new task,
   * because the new task's three fields are already absent.
   */
  lemma CreateIsPatchOfNew(p: TaskPatch, now: Stamp)
    ensures var t := Patch(NewTask(now), p);
      && t.name == p.name.GetOr("")
      && t.description == p.description.GetOr("")
      && t.deadline == p.deadline.GetOr("")
  {
  }
}
