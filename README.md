# Task/User link maintenance, modelled in Dafny

This project models the consistency core of a small task-tracking REST API built on
Express and Mongoose. The API keeps two collections, Tasks and Users, in two id-keyed
tables. The link between them is stored twice: `Task.assignedUser` holds a User id (or
"" for unassigned), and `User.pendingTasks` holds Task ids. Each create, update or
delete of a Task or a User also rewrites the documents on the other side:

- creating a task pushes its id onto the owner's list;
- updating a task applies three reverse-link corrections;
- deleting a task splices its id out of the owner's list;
- updating a user re-points every listed task at that user;
- deleting a user unassigns that user's tasks.

Files and modules:

- `maybe.dfy` (`Maybe`): `Option`, for request-body fields that are either supplied or `undefined`.
- `lists.dfy` (`Lists`): the array primitives the handlers use on `pendingTasks`. These are `indexOf`, push-if-absent and `splice(index, 1)`, plus their no-duplicates lemmas.
- `task_model.dfy` (`TaskModel`): the Task schema, its required fields, its defaults and the field-by-field merge of a request body.
- `user_model.dfy` (`UserModel`): the User schema, its required fields, the unique email index and the `pendingTasks` default.
- `links.dfy` (`Links`): the link steps as functions on the two tables. `Link` and `Unlink` are the push and splice on one owner; `Reconcile` is the three update corrections; `Relink` and `Unassign` are the two `updateMany` bulk writes. The file also holds the bidirectional link invariant `Consistent` and the lemmas that the task-side handlers and user deletion preserve it.
- `engine.dfy` (`Engine`): class `Store` with fields `tasks` and `users` and the six handlers as methods. Two small methods carry the steps the task handlers share: the push onto an owner's list and the splice out of it. Each method's `ensures` ties the new tables to the functions of `Links`.
- `scenarios.dfy` (`Scenarios`): client sequences on a fresh store, proved from the handlers' contracts, including the two that show `UpdateUser` breaking the invariant.

Modelling conventions:

- Ids are strings. The id a new document receives, and its creation stamp, are parameters; the store generates them.
- A malformed id in the request path (Mongoose `CastError` on the primary lookup) is modelled like an absent one. Both give `NotFound`. A malformed owner id stored in a task is a different matter; see "## Left out".
- Text fields use "" for every JavaScript-falsy value (`undefined`, `null`, empty). The `!task.name` style checks tell nothing more apart.
- `deadline` and `dateCreated` are opaque stamps.
- Every refusal (`NotFound`, `Validation`, `Conflict`) leaves both tables unchanged.

Three facts about the code shape what is proved:

- `UpdateUser` stores whatever list the body supplies (routes/users.js:189), so a user's `pendingTasks` can hold duplicates; `Scenarios.UserUpdateAdmitsDuplicates` shows one.
- `UpdateUser` re-points listed tasks without touching their previous owner's list (routes/users.js:204-215). It therefore breaks the link invariant, as `Scenarios.UserUpdateLeavesStaleLink` shows. The invariant is proved only for the task-side handlers and for user deletion.
- Completing a task does not clear its `assignedUser`; only deleting the owner does (routes/users.js:258-265). `Scenarios.CompletionUnlinks` shows this.

## Model

| member | source | states |
|---|---|---|
| `Lists.IndexOf` | routes/tasks.js:243 | the result is -1 exactly when the id is absent, and otherwise a position holding it with no earlier occurrence |
| `Lists.AddIfAbsent` | routes/tasks.js:125-126 | the id is present afterwards, the old list is an unchanged prefix, it is appended only when absent, and it then occurs once |
| `Lists.RemoveFirst` | routes/tasks.js:243-245 | when the id is present, the result is the list with the element at the id's first position cut out and the rest in order (multiset minus the id, length minus one); an absent id leaves the list as it was |
| `Lists.NoDupOccursOnce` | models/user.js:15-18 | in a duplicate-free list a present id occurs exactly once |
| `Lists.AddIfAbsentKeepsNoDup` | routes/tasks.js:258-260 | the guarded push keeps a list duplicate-free, and the id then occurs exactly once |
| `Lists.RemoveFirstKeepsNoDup` | routes/tasks.js:272-275 | the splice keeps a list duplicate-free and leaves no occurrence of the id |
| `Lists.RemoveFirstTwice` | routes/tasks.js:268-281 | on a duplicate-free list a second splice of the same id is a no-op, so corrections 1 and 3 firing together remove it once |
| `Lists.RemoveFirstUndoesAdd` | routes/tasks.js:321-327 | splicing out an id that was just pushed restores the list |
| `Lists.AddIfAbsentIdempotent` | routes/tasks.js:258 | re-adding an id already present never duplicates it |
| `TaskModel.NewTask` | models/task.js:5-30 | a new task has `completed` false, `assignedUser` "", `assignedUserName` "unassigned", `dateCreated` the creation stamp, and its required fields still missing |
| `TaskModel.Patch` | routes/tasks.js:213-218 | each supplied field overwrites, each absent field keeps its value, `dateCreated` never changes |
| `TaskModel.PatchIdempotent` | routes/tasks.js:213-218 | applying the same body twice equals applying it once |
| `TaskModel.PatchEmpty` | routes/tasks.js:213-218 | a body that supplies nothing leaves the task unchanged |
| `TaskModel.CreateIsPatchOfNew` | routes/tasks.js:97-103 | merging a body over a new task gives the create handler's unconditional name, description and deadline assignments |
| `UserModel.NewUser` | models/user.js:15-22 | a new user has an empty `pendingTasks`, `dateCreated` the creation stamp, and no name or email yet |
| `UserModel.Patch` | routes/users.js:187-189 | supplied name, email or `pendingTasks` overwrite (the list wholesale), absent ones are kept, `dateCreated` never changes |
| `UserModel.FromBody` | routes/users.js:95-97 | only name and email are taken from the body, so a created user's `pendingTasks` is empty |
| `UserModel.SaveKeepsEmailsUnique` | models/user.js:10-14 | saving a user whose email no other user holds keeps emails unique |
| `UserModel.RemoveKeepsEmailsUnique` | models/user.js:10-14 | removing a user keeps emails unique |
| `Links.Link` | routes/tasks.js:122-131 | only the owner's list changes, its other fields are kept, the id is pushed unless present, and a missing owner changes nothing |
| `Links.Unlink` | routes/tasks.js:321-331 | only the owner's list changes, by splicing the id's first occurrence; other ids' memberships are kept; a missing owner changes nothing |
| `Links.Reconcile` | routes/tasks.js:238-281 | the three corrections keep the set of users, leave every user other than the old and new owner unchanged, change no list's membership of any other task id, and add the task id only to the new owner's list and only when the task is assigned and not completed |
| `Links.Relink` | routes/users.js:204-215 | every existing task listed gets `assignedUser` = the user id and `assignedUserName` = the user's name, other fields kept; unlisted tasks are untouched |
| `Links.Unassign` | routes/users.js:258-265 | every task owned by the user gets `assignedUser` "" and `assignedUserName` "unassigned", other fields kept; other tasks are untouched; no task still names the user |
| `Links.LinkKeepsNoDuplicates` | routes/tasks.js:124-127 | linking keeps all lists duplicate-free, and the id then occurs exactly once with the owner |
| `Links.UnlinkKeepsNoDuplicates` | routes/tasks.js:323-327 | unlinking keeps all lists duplicate-free, and the owner no longer lists the id |
| `Links.ReconcileDropsOldOwner` | routes/tasks.js:239-281 | when the owner changed away from a non-empty old owner, or the task became completed, the old owner's list loses the id's first occurrence (with no duplicates: every occurrence) and nothing else |
| `Links.ReconcileAddsToNewOwner` | routes/tasks.js:255-265 | an assigned, uncompleted task is pushed onto its new owner's list unless present, and then occurs there exactly once when lists were duplicate-free |
| `Links.ReconcileCompletedOnlyDrops` | routes/tasks.js:255-281 | a completed task is added to no list: only the old owner's list changes, by a splice |
| `Links.ReconcileOthersUnchanged` | routes/tasks.js:236-285 | users other than the old and new owner are unchanged by the corrections |
| `Links.ReconcileKeepsNoDuplicates` | routes/tasks.js:236-285 | the three corrections keep every list duplicate-free |
| `Links.CreateTaskKeepsConsistent` | routes/tasks.js:118-137 | creating a task and linking it when pending preserves the bidirectional link invariant |
| `Links.UpdateTaskKeepsConsistent` | routes/tasks.js:234-286 | updating a task and applying the three corrections preserves the bidirectional link invariant |
| `Links.DeleteTaskKeepsConsistent` | routes/tasks.js:319-337 | unlinking a task from its owner and removing it preserves the bidirectional link invariant |
| `Links.DeleteUserKeepsConsistent` | routes/users.js:257-268 | unassigning a user's tasks and removing the user preserves the bidirectional link invariant |
| `Engine.Store.PushOnto` | routes/tasks.js:257-263 | the users table becomes `Link` of the old one; tasks are untouched |
| `Engine.Store.SpliceFrom` | routes/tasks.js:241-250 | the users table becomes `Unlink` of the old one; tasks are untouched |
| `Engine.Store.CreateTask` | routes/tasks.js:96-150 | a missing name or deadline gives Validation with nothing written. Otherwise the task is saved with its defaults and linked to an existing owner when pending, where its id then occurs once if it occurred at most once before. An unknown owner or a completed or unassigned task leaves users unchanged. No duplicates and the link invariant are preserved |
| `Engine.Store.UpdateTask` | routes/tasks.js:199-306 | an unknown id gives NotFound; an empty name or deadline after the merge gives Validation, both with nothing written. Otherwise the merged task is saved and the users table becomes `Reconcile` of the old one with the pre-merge owner. Users other than the two owners are unchanged; no duplicates and the link invariant are preserved |
| `Engine.Store.DeleteTask` | routes/tasks.js:309-354 | an unknown id gives NotFound with nothing written; otherwise the task is removed and its id is spliced from its owner's list; no duplicates and the link invariant are preserved |
| `Engine.Store.CreateUser` | routes/users.js:94-127 | a missing name or email gives Validation; an email held by another user gives Conflict. Otherwise the user is saved with an empty list. Tasks are never touched; email uniqueness and no duplicates are preserved |
| `Engine.Store.UpdateUser` | routes/users.js:176-244 | an unknown id gives NotFound; a missing name or email after the merge gives Validation; a taken email gives Conflict, all with nothing written. Otherwise the merged user is saved, every listed task is re-pointed at it under its new name, unlisted tasks and other users are kept, and emails stay unique |
| `Engine.Store.DeleteUser` | routes/users.js:247-285 | an unknown id gives NotFound with nothing written. Otherwise the user's tasks become unassigned and the user is removed. Email uniqueness, no duplicates and the link invariant are preserved |
| `Scenarios.CompletionUnlinks` | routes/tasks.js:268-281 | after create the owner lists the task; after completion the list is empty; after the owner is deleted the task is unassigned |
| `Scenarios.ReassignMoves` | routes/tasks.js:239-265 | reassigning a pending task from u1 to u2 leaves u1's list empty and u2's list exactly the task |
| `Scenarios.DanglingOwnerAccepted` | routes/tasks.js:121-136 | a task naming a nonexistent user is created and no user's list changes |
| `Scenarios.ErrorsAreClassified` | routes/users.js:114-121 | missing required fields give Validation and a taken email gives Conflict, a separate outcome |
| `Scenarios.UnknownIdsNotFound` | routes/users.js:249-255 | update and delete of an unknown task or user id each give NotFound |
| `Scenarios.UserUpdateAdmitsDuplicates` | routes/users.js:187-189 | a user update can store a list with a duplicate id |
| `Scenarios.UserUpdateLeavesStaleLink` | routes/users.js:204-215 | after a user update re-points a task, the previous owner still lists it |

## Left out

- The GET handlers and their query-string handling (`where`, `select`, `sort`, `skip`, `limit`, `count`): they pass JSON straight into Mongoose's query language and change nothing.
- server.js: Express setup, CORS headers, environment loading, the database connection and `listen` are plumbing and I/O.
- The conversion of `deadline` with `new Date(...)` and the `Date.now` defaults: dates are opaque stamps. The creation stamp and the new document's id are parameters, because the clock and the id generator belong to the host and the store.
- Mongoose's casting of body values: a string `"true"` becoming a boolean, a non-string name, and so on. Body fields arrive already typed, with "" standing for every falsy value.
- The concurrency of `Promise.all` in the task update. The corrections are modelled as steps over the lists as saved before them. Corrections 1 and 3 both splice the old owner's list, so one occurrence is removed when either fires; on duplicate-free lists this equals two sequential splices (`Lists.RemoveFirstTwice`). Read-modify-write races with concurrent requests are not modelled.
- Store failures and the HTTP 500 paths. Writes are assumed to succeed; the model claims no rollback, since a failed secondary save does not undo the primary one.
- A stored `assignedUser` that is not a well-formed id. Such a string can be stored, since the field is a plain String. The owner lookups in the task handlers (routes/tasks.js:122, 241, 257, 270, 321) then reject with a `CastError`, and the model treats that owner as absent. The three lines below say what the source does instead.
- Engine.Store.DeleteTask: with a malformed stored owner, the source answers 404 and never removes the task (routes/tasks.js:321-334, 342-347); the model answers `Ok` and removes it.
- Engine.Store.UpdateTask: with a malformed old or new owner, the source has already saved the merged task and answers 404 (routes/tasks.js:234, 283, 294-299), while corrections on the other, well-formed owner may still be applied; the model answers `Ok` and applies all corrections.
- Engine.Store.CreateTask: with a malformed owner of a pending task, the source has already saved the task and answers 500 (routes/tasks.js:118-122, 144-148); the model answers `Ok`.
- The `CastError` that `Task.updateMany` raises after a user update has already saved the user, when a `pendingTasks` entry is not a valid id. The model treats such an entry as the id of no task.
- HTTP status codes and response bodies, including the double response after a 404 or 400 inside the first `.then`. Those paths are modelled as refusals that change nothing.
- Engine.Store.CreateUser: does not state the link invariant is preserved, because it is not. A task may already name the new id as a dangling owner, and the new user's empty list does not list it.
- Engine.Store.UpdateUser: does not state the link invariant or the no-duplicates invariant is preserved, because the source preserves neither (see the two `Scenarios.UserUpdate…` sequences).
