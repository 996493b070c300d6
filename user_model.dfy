/**
 * The User document (`UserSchema` in models/user.js): its fields, its required
 * fields, the email uniqueness index and the `pendingTasks` default.
 * Falsy text fields are "" as in TaskModel.
 */
module UserModel {
  import opened Maybe
  import opened TaskModel

  datatype User = User(
    name: string,
    email: string,
    pendingTasks: seq<string>,   // Task ids
    dateCreated: Stamp)

  /** The fields an update body may carry; `None` is a field left `undefined`. */
  datatype UserPatch = UserPatch(
    name: Option<string>,
    email: Option<string>,
    pendingTasks: Option<seq<string>>)

  /** `name` and `email` are required: both must be present and non-empty. */
  predicate HasRequired(u: User) {
    u.name != "" && u.email != ""
  }

  /** A freshly constructed user: empty `pendingTasks`, `dateCreated` stamped with `now`, no name or email yet. */
  function NewUser(now: Stamp): (u: User)
    ensures u.pendingTasks == []
    ensures u.dateCreated == now
    ensures !HasRequired(u)
  {
    User("", "", [], now)
  }

  /**
   * The guarded field assignments of the update handler: a supplied field overwrites
   * (`pendingTasks` wholesale), an absent one keeps its value, `dateCreated` is kept.
   */
  function Patch(u: User, p: UserPatch): (r: User)
    ensures p.name.Some? ==> r.name == p.name.value
    ensures p.name.None? ==> r.name == u.name
    ensures p.email.Some? ==> r.email == p.email.value
    ensures p.email.None? ==> r.email == u.email
    ensures p.pendingTasks.Some? ==> r.pendingTasks == p.pendingTasks.value
    ensures p.pendingTasks.None? ==> r.pendingTasks == u.pendingTasks
    ensures r.dateCreated == u.dateCreated
  {
    User(
      p.name.GetOr(u.name),
      p.email.GetOr(u.email),
      p.pendingTasks.GetOr(u.pendingTasks),
      u.dateCreated)
  }

  /**
   * The create handler: only `name` and `email` are copied from the body onto a new
   * user, so its `pendingTasks` is empty whatever the body says.
   */
  function FromBody(p: UserPatch, now: Stamp): (u: User)
    ensures u.name == p.name.GetOr("") && u.email == p.email.GetOr("")
    ensures u.pendingTasks == []
    ensures u.dateCreated == now
  {
    Patch(NewUser(now), p.(pendingTasks := None))
  }

  /** The unique index on `email`: no two distinct users share one. */
  ghost predicate EmailsUnique(users: map<string, User>) {
    forall a, b :: a in users && b in users && a != b ==> users[a].email != users[b].email
  }

  /** Some user other than `self` already holds `email` (the index's duplicate-key error). */
  predicate EmailTaken(users: map<string, User>, email: string, self: string) {
    exists k :: k in users && k != self && users[k].email == email
  }

  /** Saving `u` under `id` when no other user holds its email keeps the emails unique. */
  lemma SaveKeepsEmailsUnique(users: map<string, User>, id: string, u: User)
    requires EmailsUnique(users)
    requires !EmailTaken(users, u.email, id)
    ensures EmailsUnique(users[id := u])
  {
  }

  /** Removing a user keeps the emails unique. */
  lemma RemoveKeepsEmailsUnique(users: map<string, User>, id: string)
    requires EmailsUnique(users)
    ensures EmailsUnique(users - {id})
  {
  }
}
