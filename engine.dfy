/**
 * The six mutating route handlers of routes/tasks.js and routes/users.js, over a store
 * holding the Task and User collections as two id-keyed tables. Each handler is the
 * flattened promise chain: look up, merge, validate, write the primary document, then
 * rewrite the documents on the other side of the link.
 */
module Engine {
  import opened Maybe
  import opened Lists
  import opened TaskModel
  import opened UserModel
  import opened Links

  /** The outcome a handler reports (the HTTP status codes are not modelled). */
  datatype Status = Ok | NotFound | Validation | Conflict

  class Store {
    var tasks: map<string, Task>
    var users: map<string, User>

    /** An empty database. */
    constructor ()
      ensures tasks == map[] && users == map[]
      ensures Consistent(tasks, users) && EmailsUnique(users)
    {
      tasks := map[];
      users := map[];
    }

    /**
     * Look the owner up; when it exists and does not list `tid` yet, append `tid` and save.
     * The step shared by task creation and correction 2 of task update.
     */
    method PushOnto(owner: string, tid: string)
      modifies this
      ensures users == Link(old(users), owner, tid) && tasks == old(tasks)
    {
      if owner in users {
        var user := users[owner];
        if IndexOf(user.pendingTasks, tid) == -1 {
          user := user.(pendingTasks := user.pendingTasks + [tid]);
          users := users[owner := user];
        }
      }
    }

    /**
     * Look the owner up; when it exists and lists `tid`, cut the first occurrence out
     * and save. The step shared by corrections 1 and 3 of task update and by task deletion.
     */
    method SpliceFrom(owner: string, tid: string)
      modifies this
      ensures users == Unlink(old(users), owner, tid) && tasks == old(tasks)
    {
      if owner in users {
        var user := users[owner];
        var index := IndexOf(user.pendingTasks, tid);
        if index > -1 {
          user := user.(pendingTasks := user.pendingTasks[..index] + user.pendingTasks[index + 1..]);
          users := users[owner := user];
        }
      }
    }

    /**
     * POST /tasks. `id` is the id the store assigns to the new document and `now` its
     * creation stamp. A task without `name` or `deadline` is refused and nothing is
     * written; otherwise the task is saved and, when assigned and not completed, its id
     * is pushed onto the owner's `pendingTasks` unless already there. An owner that
     * does not exist is not an error: the task is kept with its dangling `assignedUser`.
     */
    method CreateTask(id: string, body: TaskPatch, now: Stamp) returns (r: Status)
      requires id !in tasks
      modifies this
      ensures var t := TaskModel.Patch(NewTask(now), body);
        if !TaskModel.HasRequired(t) then
          r == Validation && tasks == old(tasks) && users == old(users)
        else
          && r == Ok
          && tasks == old(tasks)[id := t]
          && users == if Pending(t) then Link(old(users), t.assignedUser, id) else old(users)
      ensures r == Ok ==> tasks[id].dateCreated == now
      ensures r == Ok && !Pending(tasks[id]) ==> users == old(users)
      ensures r == Ok && Pending(tasks[id]) && tasks[id].assignedUser !in old(users) ==> users == old(users)
      ensures r == Ok && Pending(tasks[id]) && tasks[id].assignedUser in users ==>
        var owner := tasks[id].assignedUser;
        && id in users[owner].pendingTasks
        && (multiset(old(users)[owner].pendingTasks)[id] <= 1 ==> multiset(users[owner].pendingTasks)[id] == 1)
      ensures NoDuplicates(old(users)) ==> NoDuplicates(users)
      ensures Consistent(old(tasks), old(users)) ==> Consistent(tasks, users)
    {
      var task := TaskModel.Patch(NewTask(now), body);
      if !TaskModel.HasRequired(task) {
        return Validation;
      }
      tasks := tasks[id := task];
      if task.assignedUser != "" && !task.completed {
        PushOnto(task.assignedUser, id);
      }
      r := Ok;
      if NoDuplicates(old(users)) {
        LinkKeepsNoDuplicates(old(users), task.assignedUser, id);
      }
      if Consistent(old(tasks), old(users)) {
        CreateTaskKeepsConsistent(old(tasks), old(users), id, task);
      }
    }

    /**
     * PUT /tasks/:id. The supplied fields are laid over the stored task, which is then
     * re-validated; on success it is saved and the three reverse-link corrections are
     * applied with the owner captured before the merge (see Links.Reconcile).
     * A missing or malformed id is NotFound; both refusals write nothing.
     */
    method UpdateTask(id: string, body: TaskPatch) returns (r: Status)
      modifies this
      ensures id !in old(tasks) ==> r == NotFound && tasks == old(tasks) && users == old(users)
      ensures id in old(tasks) ==>
        var before := old(tasks)[id];
        var t := TaskModel.Patch(before, body);
        if !TaskModel.HasRequired(t) then
          r == Validation && tasks == old(tasks) && users == old(users)
        else
          && r == Ok
          && tasks == old(tasks)[id := t]
          && users == Reconcile(old(users), before.assignedUser, t, id)
      ensures r == Ok ==> tasks[id].dateCreated == old(tasks)[id].dateCreated
      ensures r == Ok ==> users.Keys == old(users).Keys
      ensures r == Ok ==> forall u :: u in users && u != old(tasks)[id].assignedUser && u != tasks[id].assignedUser ==>
        users[u] == old(users)[u]
      ensures NoDuplicates(old(users)) ==> NoDuplicates(users)
      ensures Consistent(old(tasks), old(users)) ==> Consistent(tasks, users)
    {
      if id !in tasks {
        return NotFound;
      }
      var task := tasks[id];
      var oldOwner := task.assignedUser;
      task := TaskModel.Patch(task, body);
      if !TaskModel.HasRequired(task) {
        return Validation;
      }
      tasks := tasks[id := task];
      var dropOld := oldOwner != "" && oldOwner != task.assignedUser;  // correction 1
      var addNew := task.assignedUser != "" && !task.completed;       // correction 2
      var dropDone := task.completed && oldOwner != "";               // correction 3
      // Corrections 1 and 3 both splice the old owner's list as saved before them.
      if dropOld || dropDone {
        SpliceFrom(oldOwner, id);
      }
      if addNew {
        PushOnto(task.assignedUser, id);
      }
      assert users == Reconcile(old(users), oldOwner, task, id);
      r := Ok;
      if NoDuplicates(old(users)) {
        ReconcileKeepsNoDuplicates(old(users), oldOwner, task, id);
      }
      if Consistent(old(tasks), old(users)) {
        UpdateTaskKeepsConsistent(old(tasks), old(users), id, task);
      }
    }

    /**
     * DELETE /tasks/:id. When the task has an owner, the first occurrence of its id is
     * spliced out of the owner's list (if both exist); then the task is removed.
     */
    method DeleteTask(id: string) returns (r: Status)
      modifies this
      ensures id !in old(tasks) ==> r == NotFound && tasks == old(tasks) && users == old(users)
      ensures id in old(tasks) ==>
        var owner := old(tasks)[id].assignedUser;
        && r == Ok
        && tasks == old(tasks) - {id}
        && users == if owner != "" then Unlink(old(users), owner, id) else old(users)
      ensures r == Ok ==> id !in tasks && tasks.Keys == old(tasks).Keys - {id}
      ensures NoDuplicates(old(users)) ==> NoDuplicates(users)
      ensures Consistent(old(tasks), old(users)) ==> Consistent(tasks, users)
    {
      if id !in tasks {
        return NotFound;
      }
      var task := tasks[id];
      if task.assignedUser != "" {
        SpliceFrom(task.assignedUser, id);
      }
      tasks := tasks - {id};
      r := Ok;
      if NoDuplicates(old(users)) {
        UnlinkKeepsNoDuplicates(old(users), task.assignedUser, id);
      }
      if Consistent(old(tasks), old(users)) {
        DeleteTaskKeepsConsistent(old(tasks), old(users), id);
      }
    }

    /**
     * POST /users. Only `name` and `email` are taken from the body; both are required.
     * An email already held by another user is a Conflict (the unique index), distinct
     * from a Validation failure. No task is touched.
     */
    method CreateUser(id: string, body: UserPatch, now: Stamp) returns (r: Status)
      requires id !in users
      modifies this
      ensures var u := FromBody(body, now);
        && (!UserModel.HasRequired(u) ==> r == Validation)
        && (UserModel.HasRequired(u) && EmailTaken(old(users), u.email, id) ==> r == Conflict)
        && (UserModel.HasRequired(u) && !EmailTaken(old(users), u.email, id) ==> r == Ok)
        && users == (if r == Ok then old(users)[id := u] else old(users))
      ensures tasks == old(tasks)
      ensures r == Ok ==> users[id].pendingTasks == []
      ensures EmailsUnique(old(users)) ==> EmailsUnique(users)
      ensures NoDuplicates(old(users)) ==> NoDuplicates(users)
    {
      var user := FromBody(body, now);
      if !UserModel.HasRequired(user) {
        return Validation;
      }
      if EmailTaken(users, user.email, id) {
        return Conflict;
      }
      users := users[id := user];
      r := Ok;
    }

    /**
     * PUT /users/:id. The supplied fields are laid over the stored user (`pendingTasks`
     * replaced wholesale, unchecked), re-validated and saved unless another user holds
     * the email. Then, when the new list is non-empty, every existing task listed in it
     * is pointed at this user under its new name, whatever its previous owner or
     * `completed` flag; nothing is removed from any other user's list.
     */
    method UpdateUser(id: string, body: UserPatch) returns (r: Status)
      modifies this
      ensures id !in old(users) ==> r == NotFound && tasks == old(tasks) && users == old(users)
      ensures id in old(users) ==>
        var u := UserModel.Patch(old(users)[id], body);
        if !UserModel.HasRequired(u) then
          r == Validation && tasks == old(tasks) && users == old(users)
        else if EmailTaken(old(users), u.email, id) then
          r == Conflict && tasks == old(tasks) && users == old(users)
        else
          && r == Ok
          && users == old(users)[id := u]
          && tasks == Relink(old(tasks), u.pendingTasks, id, u.name)
      ensures r == Ok ==> forall k :: k in tasks && k in users[id].pendingTasks ==>
        tasks[k].assignedUser == id && tasks[k].assignedUserName == users[id].name
      ensures r == Ok ==> forall k :: k in old(tasks) && k !in users[id].pendingTasks ==>
        tasks[k] == old(tasks)[k]
      ensures r == Ok ==> forall u :: u in old(users) && u != id ==> users[u] == old(users)[u]
      ensures EmailsUnique(old(users)) ==> EmailsUnique(users)
    {
      if id !in users {
        return NotFound;
      }
      var user := users[id];
      if body.name.Some? { user := user.(name := body.name.value); }
      if body.email.Some? { user := user.(email := body.email.value); }
      if body.pendingTasks.Some? { user := user.(pendingTasks := body.pendingTasks.value); }
      assert user == UserModel.Patch(old(users)[id], body);
      if !UserModel.HasRequired(user) {
        return Validation;
      }
      if EmailTaken(users, user.email, id) {
        return Conflict;
      }
      users := users[id := user];
      if |user.pendingTasks| > 0 {
        tasks := Relink(tasks, user.pendingTasks, id, user.name);
      }
      r := Ok;
      if EmailsUnique(old(users)) {
        SaveKeepsEmailsUnique(old(users), id, user);
      }
    }

    /**
     * DELETE /users/:id. Every task owned by the user becomes unassigned (`assignedUser`
     * "" and `assignedUserName` "unassigned"), then the user is removed.
     */
    method DeleteUser(id: string) returns (r: Status)
      modifies this
      ensures id !in old(users) ==> r == NotFound && tasks == old(tasks) && users == old(users)
      ensures id in old(users) ==> r == Ok && users == old(users) - {id} && tasks == Unassign(old(tasks), id)
      ensures r == Ok ==> tasks.Keys == old(tasks).Keys
      ensures EmailsUnique(old(users)) ==> EmailsUnique(users)
      ensures NoDuplicates(old(users)) ==> NoDuplicates(users)
      ensures Consistent(old(tasks), old(users)) ==> Consistent(tasks, users)
    {
      if id !in users {
        return NotFound;
      }
      tasks := Unassign(tasks, id);
      users := users - {id};
      r := Ok;
      if Consistent(old(tasks), old(users)) {
        DeleteUserKeepsConsistent(old(tasks), old(users), id);
      }
    }
  }
}
