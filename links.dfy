/**
 * The link-maintenance steps of the route handlers, as functions on the two id-keyed
 * tables, and the bidirectional link invariant between `Task.assignedUser` and
 * `User.pendingTasks`.
 */
module Links {
  import opened Lists
  import opened TaskModel
  import opened UserModel

  /** Every user's `pendingTasks` is free of duplicates. */
  ghost predicate NoDuplicates(users: map<string, User>) {
    forall u :: u in users ==> NoDup(users[u].pendingTasks)
  }

  /**
   * The bidirectional link: no list holds a duplicate; every pending task whose owner
   * exists is listed by that owner; and every listed id names an existing pending task
   * owned by the user that lists it.
   */
  ghost predicate Consistent(tasks: map<string, Task>, users: map<string, User>) {
    && NoDuplicates(users)
    && (forall tid :: tid in tasks && Pending(tasks[tid]) && tasks[tid].assignedUser in users ==>
          tid in users[tasks[tid].assignedUser].pendingTasks)
    && (forall uid, tid :: uid in users && tid in users[uid].pendingTasks ==>
          tid in tasks && Pending(tasks[tid]) && tasks[tid].assignedUser == uid)
  }

  /** Two tasks agree on every field but the two link fields. */
  predicate SameButLink(a: Task, b: Task) {
    a == b.(assignedUser := a.assignedUser, assignedUserName := a.assignedUserName)
  }

  /**
   * Look the owner up, then append `tid` to its `pendingTasks` unless present and
   * save; nothing happens when the owner does not exist.
   */
  function Link(users: map<string, User>, owner: string, tid: string): (r: map<string, User>)
    ensures r.Keys == users.Keys
    ensures forall u :: u in users && u != owner ==> r[u] == users[u]
    ensures owner in users ==>
      && r[owner] == users[owner].(pendingTasks := r[owner].pendingTasks)
      && r[owner].pendingTasks == AddIfAbsent(users[owner].pendingTasks, tid)
    ensures forall u, y :: u in users ==>
      (y in r[u].pendingTasks <==> y in users[u].pendingTasks || (u == owner && y == tid))
  {
    if owner in users then
      var user := users[owner];
      users[owner := user.(pendingTasks := AddIfAbsent(user.pendingTasks, tid))]
    else users
  }

  /**
   * Look the owner up, then cut the first occurrence of `tid` out of its
   * `pendingTasks` and save; nothing happens when the owner or the id is missing.
   */
  function Unlink(users: map<string, User>, owner: string, tid: string): (r: map<string, User>)
    ensures r.Keys == users.Keys
    ensures forall u :: u in users && u != owner ==> r[u] == users[u]
    ensures owner in users ==>
      && r[owner] == users[owner].(pendingTasks := r[owner].pendingTasks)
      && r[owner].pendingTasks == RemoveFirst(users[owner].pendingTasks, tid)
    ensures forall u, y :: u in users && (u != owner || y != tid) ==>
      (y in r[u].pendingTasks <==> y in users[u].pendingTasks)
  {
    if owner in users then
      var user := users[owner];
      users[owner := user.(pendingTasks := RemoveFirst(user.pendingTasks, tid))]
    else users
  }

  /**
   * The three reverse-link corrections after a task update, given the owner `oldOwner`
   * captured before the merge and the merged task `t`:
   *   1. the owner changed away from a non-empty `oldOwner`: splice from `oldOwner`;
   *   2. `t` is assigned and not completed: push onto `t.assignedUser` unless present;
   *   3. `t` is completed and `oldOwner` is non-empty: splice from `oldOwner`.
   * The corrections run together on the lists as saved before them; 1 and 3 write the
   * same spliced list of `oldOwner`, so one occurrence goes when either fires.
   */
  function Reconcile(users: map<string, User>, oldOwner: string, t: Task, tid: string): (r: map<string, User>)
    ensures r.Keys == users.Keys
    ensures forall u :: u in users && u != oldOwner && u != t.assignedUser ==> r[u] == users[u]
    ensures forall u, y :: u in users && y != tid ==> (y in r[u].pendingTasks <==> y in users[u].pendingTasks)
    ensures forall u :: u in users && tid in r[u].pendingTasks ==>
      tid in users[u].pendingTasks || (Pending(t) && u == t.assignedUser)
  {
    var dropOld := oldOwner != "" && (oldOwner != t.assignedUser || t.completed);
    var afterDrop := if dropOld then Unlink(users, oldOwner, tid) else users;
    if Pending(t) then Link(afterDrop, t.assignedUser, tid) else afterDrop
  }

  /**
   * The bulk `updateMany` of a user update, filtered on the ids in the user's list:
   * every existing task listed in `ids` is pointed at `uid` under `name`, whatever its
   * previous owner or `completed` flag; every other task is untouched.
   */
  function Relink(tasks: map<string, Task>, ids: seq<string>, uid: string, name: string): (r: map<string, Task>)
    ensures r.Keys == tasks.Keys
    ensures forall k :: k in tasks && k in ids ==>
      r[k].assignedUser == uid && r[k].assignedUserName == name && SameButLink(r[k], tasks[k])
    ensures forall k :: k in tasks && k !in ids ==> r[k] == tasks[k]
  {
    map k | k in tasks :: if k in ids then tasks[k].(assignedUser := uid, assignedUserName := name) else tasks[k]
  }

  /**
   * The bulk `updateMany` of a user deletion, filtered on the owner `uid`:
   * every task owned by `uid` becomes unassigned; every other task is untouched.
   */
  function Unassign(tasks: map<string, Task>, uid: string): (r: map<string, Task>)
    ensures r.Keys == tasks.Keys
    ensures forall k :: k in tasks && tasks[k].assignedUser == uid ==>
      r[k].assignedUser == "" && r[k].assignedUserName == UNASSIGNED_NAME && SameButLink(r[k], tasks[k])
    ensures forall k :: k in tasks && tasks[k].assignedUser != uid ==> r[k] == tasks[k]
    ensures forall k :: k in r ==> r[k].assignedUser != uid || uid == ""
  {
    map k | k in tasks :: if tasks[k].assignedUser == uid then tasks[k].(assignedUser := "", assignedUserName := UNASSIGNED_NAME) else tasks[k]
  }

  /** Linking keeps every list duplicate-free, and the linked id then occurs exactly once. */
  lemma LinkKeepsNoDuplicates(users: map<string, User>, owner: string, tid: string)
    requires NoDuplicates(users)
    ensures NoDuplicates(Link(users, owner, tid))
    ensures owner in users ==> multiset(Link(users, owner, tid)[owner].pendingTasks)[tid] == 1
  {
    if owner in users {
      AddIfAbsentKeepsNoDup(users[owner].pendingTasks, tid);
    }
  }

  /** Unlinking keeps every list duplicate-free and leaves no occurrence of the id with the owner. */
  lemma UnlinkKeepsNoDuplicates(users: map<string, User>, owner: string, tid: string)
    requires NoDuplicates(users)
    ensures NoDuplicates(Unlink(users, owner, tid))
    ensures owner in users ==> tid !in Unlink(users, owner, tid)[owner].pendingTasks
  {
    if owner in users {
      RemoveFirstKeepsNoDup(users[owner].pendingTasks, tid);
    }
  }

  /**
   * Corrections 1 and 3: when the owner changed away from a non-empty `oldOwner`, or the
   * task is now completed, the first occurrence of the id leaves `oldOwner`'s list
   * (which is otherwise kept); with duplicate-free lists no occurrence remains.
   */
  lemma ReconcileDropsOldOwner(users: map<string, User>, oldOwner: string, t: Task, tid: string)
    requires oldOwner != "" && (oldOwner != t.assignedUser || t.completed) && oldOwner in users
    ensures var r := Reconcile(users, oldOwner, t, tid);
      && r[oldOwner] == users[oldOwner].(pendingTasks := r[oldOwner].pendingTasks)
      && r[oldOwner].pendingTasks == RemoveFirst(users[oldOwner].pendingTasks, tid)
      && (NoDuplicates(users) ==> tid !in r[oldOwner].pendingTasks)
  {
    var afterDrop := Unlink(users, oldOwner, tid);
    if NoDuplicates(users) {
      UnlinkKeepsNoDuplicates(users, oldOwner, tid);
    }
    if Pending(t) {
      assert t.assignedUser != oldOwner;
    }
  }

  /**
   * Correction 2: an assigned, uncompleted task is pushed onto its (new) owner's list
   * unless already there; with duplicate-free lists it then occurs there exactly once.
   */
  lemma ReconcileAddsToNewOwner(users: map<string, User>, oldOwner: string, t: Task, tid: string)
    requires Pending(t) && t.assignedUser in users
    ensures var r := Reconcile(users, oldOwner, t, tid);
      && r[t.assignedUser] == users[t.assignedUser].(pendingTasks := r[t.assignedUser].pendingTasks)
      && r[t.assignedUser].pendingTasks == AddIfAbsent(users[t.assignedUser].pendingTasks, tid)
      && (NoDuplicates(users) ==> multiset(r[t.assignedUser].pendingTasks)[tid] == 1)
  {
    var dropOld := oldOwner != "" && (oldOwner != t.assignedUser || t.completed);
    var afterDrop := if dropOld then Unlink(users, oldOwner, tid) else users;
    assert afterDrop[t.assignedUser] == users[t.assignedUser];
    if NoDuplicates(users) {
      LinkKeepsNoDuplicates(users, t.assignedUser, tid);
    }
  }

  /**
   * A completed task is never added anywhere (corrections 2 and 3 never both fire):
   * every list but `oldOwner`'s is kept, and `oldOwner`'s loses the id's first occurrence.
   */
  lemma ReconcileCompletedOnlyDrops(users: map<string, User>, oldOwner: string, t: Task, tid: string)
    requires t.completed
    ensures var r := Reconcile(users, oldOwner, t, tid);
      forall u :: u in users ==>
        r[u].pendingTasks == if u == oldOwner && oldOwner != "" then RemoveFirst(users[u].pendingTasks, tid)
                             else users[u].pendingTasks
  {
  }

  /** The corrections touch only the old and the new owner. */
  lemma ReconcileOthersUnchanged(users: map<string, User>, oldOwner: string, t: Task, tid: string, u: string)
    requires u in users && u != oldOwner && u != t.assignedUser
    ensures Reconcile(users, oldOwner, t, tid)[u] == users[u]
  {
  }

  /** The corrections keep every list duplicate-free. */
  lemma ReconcileKeepsNoDuplicates(users: map<string, User>, oldOwner: string, t: Task, tid: string)
    requires NoDuplicates(users)
    ensures NoDuplicates(Reconcile(users, oldOwner, t, tid))
  {
    var dropOld := oldOwner != "" && (oldOwner != t.assignedUser || t.completed);
    var afterDrop := if dropOld then Unlink(users, oldOwner, tid) else users;
    UnlinkKeepsNoDuplicates(users, oldOwner, tid);
    LinkKeepsNoDuplicates(afterDrop, t.assignedUser, tid);
  }

  /**
   * The link invariant survives a change confined to one task id: the other tasks and
   * their list memberships are kept, the lists stay duplicate-free, and the changed id
   * satisfies both directions of the link on its own.
   */
  lemma ConsistentAfterLocalChange(tasks: map<string, Task>, users: map<string, User>,
                                   tasks': map<string, Task>, users': map<string, User>, id: string)
    requires Consistent(tasks, users)
    requires NoDuplicates(users') && users'.Keys == users.Keys
    requires forall tid :: tid != id ==> (tid in tasks' <==> tid in tasks)
    requires forall tid :: tid != id && tid in tasks ==> tasks'[tid] == tasks[tid]
    requires forall u, y :: u in users && y != id ==> (y in users'[u].pendingTasks <==> y in users[u].pendingTasks)
    requires id in tasks' && Pending(tasks'[id]) && tasks'[id].assignedUser in users ==>
      id in users'[tasks'[id].assignedUser].pendingTasks
    requires forall u :: u in users && id in users'[u].pendingTasks ==>
      id in tasks' && Pending(tasks'[id]) && tasks'[id].assignedUser == u
    ensures Consistent(tasks', users')
  {
    forall tid | tid in tasks' && Pending(tasks'[tid]) && tasks'[tid].assignedUser in users'
      ensures tid in users'[tasks'[tid].assignedUser].pendingTasks
    {
      if tid != id {
        assert tasks'[tid] == tasks[tid];
      }
    }
    forall uid, tid | uid in users' && tid in users'[uid].pendingTasks
      ensures tid in tasks' && Pending(tasks'[tid]) && tasks'[tid].assignedUser == uid
    {
      if tid != id {
        assert tid in users[uid].pendingTasks;
      }
    }
  }

  /** Creating task `id` (absent so far) and linking it when pending keeps the link invariant. */
  lemma CreateTaskKeepsConsistent(tasks: map<string, Task>, users: map<string, User>, id: string, t: Task)
    requires Consistent(tasks, users) && id !in tasks
    ensures Consistent(tasks[id := t], if Pending(t) then Link(users, t.assignedUser, id) else users)
  {
    var users' := if Pending(t) then Link(users, t.assignedUser, id) else users;
    LinkKeepsNoDuplicates(users, t.assignedUser, id);
    assert forall u :: u in users ==> id !in users[u].pendingTasks;
    ConsistentAfterLocalChange(tasks, users, tasks[id := t], users', id);
  }

  /** Updating task `id` to `t` and applying the three corrections keeps the link invariant. */
  lemma UpdateTaskKeepsConsistent(tasks: map<string, Task>, users: map<string, User>, id: string, t: Task)
    requires Consistent(tasks, users) && id in tasks
    ensures Consistent(tasks[id := t], Reconcile(users, tasks[id].assignedUser, t, id))
  {
    var oldOwner := tasks[id].assignedUser;
    var users' := Reconcile(users, oldOwner, t, id);
    var dropOld := oldOwner != "" && (oldOwner != t.assignedUser || t.completed);
    var afterDrop := if dropOld then Unlink(users, oldOwner, id) else users;
    ReconcileKeepsNoDuplicates(users, oldOwner, t, id);
    UnlinkKeepsNoDuplicates(users, oldOwner, id);
    // Before the update only the old owner could list the id, and only if it was pending.
    forall u | u in users && id in afterDrop[u].pendingTasks
      ensures u == oldOwner && Pending(t)
    {
      assert id in users[u].pendingTasks;
      assert tasks[id].assignedUser == u && Pending(tasks[id]);
    }
    ConsistentAfterLocalChange(tasks, users, tasks[id := t], users', id);
  }

  /** Unlinking task `id` from its owner and then removing it keeps the link invariant. */
  lemma DeleteTaskKeepsConsistent(tasks: map<string, Task>, users: map<string, User>, id: string)
    requires Consistent(tasks, users) && id in tasks
    ensures var owner := tasks[id].assignedUser;
      Consistent(tasks - {id}, if owner != "" then Unlink(users, owner, id) else users)
  {
    var owner := tasks[id].assignedUser;
    var users' := if owner != "" then Unlink(users, owner, id) else users;
    UnlinkKeepsNoDuplicates(users, owner, id);
    forall u | u in users ensures id !in users'[u].pendingTasks {
      if id in users[u].pendingTasks {
        assert u == owner;
      }
    }
    ConsistentAfterLocalChange(tasks, users, tasks - {id}, users', id);
  }

  /** Unassigning every task of user `uid` and then removing it keeps the link invariant. */
  lemma DeleteUserKeepsConsistent(tasks: map<string, Task>, users: map<string, User>, uid: string)
    requires Consistent(tasks, users)
    ensures Consistent(Unassign(tasks, uid), users - {uid})
  {
    var tasks' := Unassign(tasks, uid);
    var users' := users - {uid};
    forall uid', tid | uid' in users' && tid in users'[uid'].pendingTasks
      ensures tid in tasks' && Pending(tasks'[tid]) && tasks'[tid].assignedUser == uid'
    {
      assert tid in users[uid'].pendingTasks;
      assert tasks[tid].assignedUser == uid' != uid;
    }
  }
}
