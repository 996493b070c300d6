/**
 * Client sequences on the store: each method drives a fresh store through a short
 * sequence of requests and reports what a caller would then observe, proved from the
 * handlers' contracts alone.
 */
module Scenarios {
  import opened Maybe
  import opened Lists
  import opened TaskModel
  import opened UserModel
  import opened Links
  import opened Engine

  function Body(name: string, deadline: Stamp, owner: string): TaskPatch {
    TaskPatch(Some(name), None, Some(deadline), None, Some(owner), None)
  }

  function Person(name: string, email: string): UserPatch {
    UserPatch(Some(name), Some(email), None)
  }

  /**
   * Create a user and a task assigned to it, then mark the task completed, then delete
   * the user: the list holds the task after creation and is empty after completion;
   * the completed task still names its owner until the owner is deleted.
   */
  method CompletionUnlinks() returns (afterCreate: seq<string>, afterComplete: seq<string>,
                                      ownerAfterDelete: string, nameAfterDelete: string)
    ensures afterCreate == ["t1"] && afterComplete == []
    ensures ownerAfterDelete == "" && nameAfterDelete == UNASSIGNED_NAME
  {
    var db := new Store();
    var r := db.CreateUser("u1", Person("Alice", "a@x.com"), "now");
    assert r == Ok;
    r := db.CreateTask("t1", Body("T1", "2025-01-01", "u1"), "now");
    assert r == Ok;
    afterCreate := db.users["u1"].pendingTasks;
    r := db.UpdateTask("t1", EMPTY_PATCH.(completed := Some(true)));
    assert r == Ok;
    afterComplete := db.users["u1"].pendingTasks;
    assert db.tasks["t1"].assignedUser == "u1";
    r := db.DeleteUser("u1");
    ownerAfterDelete := db.tasks["t1"].assignedUser;
    nameAfterDelete := db.tasks["t1"].assignedUserName;
  }

  /** Reassigning a task from one user to another moves its id between the two lists. */
  method ReassignMoves() returns (first: seq<string>, second: seq<string>)
    ensures first == [] && second == ["t1"]
  {
    var db := new Store();
    var r := db.CreateUser("u1", Person("Alice", "a@x.com"), "now");
    r := db.CreateUser("u2", Person("Bob", "b@x.com"), "now");
    assert r == Ok;
    r := db.CreateTask("t1", Body("T1", "2025-01-01", "u1"), "now");
    r := db.UpdateTask("t1", EMPTY_PATCH.(assignedUser := Some("u2")));
    assert r == Ok;
    first := db.users["u1"].pendingTasks;
    second := db.users["u2"].pendingTasks;
  }

  /**
   * A task may name a user that does not exist: it is created all the same, and no
   * user's list changes.
   */
  method DanglingOwnerAccepted() returns (r: Status, pending: seq<string>)
    ensures r == Ok && pending == []
  {
    var db := new Store();
    var created := db.CreateUser("u1", Person("Alice", "a@x.com"), "now");
    r := db.CreateTask("t1", Body("T1", "2025-01-01", "nobody"), "now");
    pending := db.users["u1"].pendingTasks;
  }

  /** A missing required field is a validation error; a taken email is a conflict. */
  method ErrorsAreClassified() returns (noName: Status, noDeadline: Status, sameEmail: Status, otherEmail: Status)
    ensures noName == Validation && noDeadline == Validation
    ensures sameEmail == Conflict && otherEmail == Ok
  {
    var db := new Store();
    var r := db.CreateUser("u1", Person("Alice", "a@x.com"), "now");
    noName := db.CreateTask("t1", Body("", "2025-01-01", ""), "now");
    r := db.CreateTask("t1", Body("T1", "2025-01-01", ""), "now");
    noDeadline := db.UpdateTask("t1", EMPTY_PATCH.(deadline := Some("")));
    sameEmail := db.CreateUser("u2", Person("Bob", "a@x.com"), "now");
    otherEmail := db.CreateUser("u2", Person("Bob", "b@x.com"), "now");
  }

  /** Every handler addressed to an unknown id reports not-found. */
  method UnknownIdsNotFound() returns (missing: seq<Status>)
    ensures missing == [NotFound, NotFound, NotFound, NotFound]
  {
    var db := new Store();
    var r := db.CreateUser("u1", Person("Alice", "a@x.com"), "now");
    r := db.CreateTask("t1", Body("T1", "2025-01-01", "u1"), "now");
    var a := db.UpdateTask("t9", EMPTY_PATCH);
    var b := db.DeleteTask("t9");
    var c := db.UpdateUser("u9", UserPatch(None, None, None));
    var d := db.DeleteUser("u9");
    missing := [a, b, c, d];
  }

  /**
   * The user update replaces `pendingTasks` wholesale without checking it, so it can
   * store a duplicate id: the no-duplicates invariant of the task-side handlers does not
   * hold for it.
   */
  method UserUpdateAdmitsDuplicates() returns (pending: seq<string>)
    ensures pending == ["t1", "t1"] && !NoDup(pending)
  {
    var db := new Store();
    var r := db.CreateUser("u1", Person("Alice", "a@x.com"), "now");
    r := db.CreateTask("t1", Body("T1", "2025-01-01", "u1"), "now");
    r := db.UpdateUser("u1", UserPatch(None, None, Some(["t1", "t1"])));
    assert r == Ok;
    pending := db.users["u1"].pendingTasks;
    assert pending[0] == pending[1];
  }

  /**
   * The user update re-points a listed task without removing it from its previous
   * owner's list: afterwards the task names the second user under its name, yet the
   * first user still lists it, which breaks the link invariant.
   */
  method UserUpdateLeavesStaleLink() returns (firstList: seq<string>, owner: string, ownerName: string)
    ensures firstList == ["t1"] && owner == "u2" && ownerName == "Bob"
  {
    var db := new Store();
    var r := db.CreateUser("u1", Person("Alice", "a@x.com"), "now");
    r := db.CreateUser("u2", Person("Bob", "b@x.com"), "now");
    r := db.CreateTask("t1", Body("T1", "2025-01-01", "u1"), "now");
    r := db.UpdateUser("u2", UserPatch(None, None, Some(["t1"])));
    assert r == Ok;
    firstList := db.users["u1"].pendingTasks;
    owner := db.tasks["t1"].assignedUser;
    ownerName := db.tasks["t1"].assignedUserName;
  }
}
