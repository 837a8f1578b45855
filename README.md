# Family task tracker: the state layer, in Dafny

The tracker is a browser page where family members pick a weekday, see their
own task list for that day, tick tasks off and watch a progress bar. Everything
lives in one in-memory `state` record (users, tasks, the current user, the
current day, the task awaiting delete confirmation) that event handlers update
in place and mirror into `localStorage` under three keys.

This project models that state layer with the page taken away:

- `App.State` is the `state` record, a class whose fields the handler methods
  update in place: loading at start-up, toggling a task, adding or editing a
  task, confirming and deleting a task, adding and selecting a user, and
  switching the day. What each handler does to the task list is a function on
  sequences (`ToggledTasks`, `EditedTasks`, `TasksWithout`), and the handler's
  postcondition ties the new list to it. The task list and the progress counts
  shown for the current user and day are functions too (`VisibleTasks`,
  `ProgressOf`, `Percentage`).
- `UserManager.DeleteUser` is `userManager.deleteUser`. It runs the two guards
  in the source's order, then removes the user's tasks in cascade and falls
  back to the first remaining user. Finally it writes the three entries.
- `Storage.LocalStorage` is `localStorage`: a map from key to the parsed value
  last written under it.
- `Config` holds the weekdays, `formatDay`, the `Date.getDay()` index mapping,
  the storage keys and the two seed users.
- `Seqs` gives `Array.prototype.filter`, `findIndex` and `find` as functions.
  `Text` gives `String.prototype.trim`, using ECMAScript's full whitespace set.
- `Scenarios` is a client. Using only the contracts, it proves a first
  session: seed, add "Clean room", tick it off (1 of 1, 100 percent), reject a
  nameless user, delete down to one user.

The invariants: once loaded, the current user is one of the users
(`State.Valid`). The handlers also keep `State.Consistent`: user ids and task
ids stay unique, and every task belongs to an existing user. The consistency
clause of each handler, and of `DeleteUser`, says so. For the handlers that create an id, it holds
as long as the generated id is unused.

Behaviour the model keeps because the code has it:

- At start-up, a stored current-user id that names no user falls back to
  the first user. That fallback is not written back (js/app.js:101-102), so
  storage and memory disagree until the next selection. `State.Init` states
  exactly when the three entries mirror memory.
- An empty string is falsy in the three guards `if (currentUserId)`,
  `if (taskId)` and `if (state.taskToDelete)`. So an empty stored id, an
  empty task id and an empty pending id behave like absent ones.
- Toggling an unknown task id and selecting an unknown user are silent
  no-ops, not errors. Editing an unknown task id changes no task, but the
  tasks are still written back.
- A new task belongs to the current user (js/app.js:325).
- `deleteUser` checks "at most one user" before "not found". If ids repeat,
  the filter can remove every user. Then `state.users[0]` is undefined, and
  reading its id throws after users and tasks were written but before the
  current-user entry was. `DeleteUser` returns `None` on that path and proves
  the path cannot occur while ids are unique.
- A stored empty user list leaves start-up with no current user, and it
  throws (`Init` returns `threw`). With no stored current-user id the throw
  comes at `state.users[0].id` (js/app.js:105). With a stored id, `find` gives
  `undefined` without throwing (js/app.js:102), and the throw comes when
  `updateCurrentUserDisplay` reads that user's name (js/app.js:108, 138).
  Either way no tasks are loaded.

## Model

| member | source | states |
|---|---|---|
| `Text.IsWhitespace` | js/app.js:304-305 | defined as ECMAScript's WhiteSpace and LineTerminator set, the characters `trim` strips; its contract adds that no ASCII letter or digit is among them |
| `Text.TrimStart` | js/app.js:304-305 | dropping the leading whitespace leaves a suffix that does not start with whitespace, and everything dropped was whitespace |
| `Text.TrimEnd` | js/app.js:304-305 | dropping the trailing whitespace leaves a prefix that does not end with whitespace, and everything dropped was whitespace |
| `Text.InfixBetweenWhitespace` | js/app.js:304-305 | what the two steps leave is the infix of the input between a whitespace prefix and a whitespace suffix |
| `Text.Trim` | js/app.js:304-305 | the result is the input with a leading and a trailing run of whitespace cut off (an infix `s[a..b]` with only whitespace before `a` and after `b`); it neither begins nor ends with whitespace, so those runs are the whole runs; it is empty exactly when the input is all whitespace (the test behind "title/name cannot be empty") |
| `Text.TrimIdempotent` | js/app.js:494-496 | trimming an already trimmed string changes nothing |
| `Text.TrimmedAlready` | js/app.js:304-305 | a string that neither begins nor ends with whitespace is its own trim |
| `Text.UpperAscii` | js/config.js:16 | a lower-case ASCII letter becomes its capital; any other character is unchanged |
| `Seqs.Filter` | js/app.js:147-150 | `filter` keeps exactly the elements satisfying the predicate and never lengthens the sequence |
| `Seqs.FilterAppend` | js/user-manager.js:24-27 | filtering distributes over concatenation, so the kept elements keep their relative order |
| `Seqs.FilterKeepsAll` | js/app.js:539 | filtering returns the sequence unchanged, or one of the same length, exactly when every element passes |
| `Seqs.FilterDistinctKeys` | js/user-manager.js:24 | filtering never makes two elements share a key |
| `Seqs.FilterRemovesOne` | js/user-manager.js:24 | removing the elements with key k from a sequence with distinct keys that contains k shortens it by exactly one |
| `Seqs.FilterFirst` | js/user-manager.js:24-31 | the first element a filter keeps is the first element of the input that passes: every element before it was dropped |
| `Seqs.FindIndex` | js/app.js:232 | `findIndex` returns the first index whose element matches, or -1 exactly when none matches |
| `Seqs.Find` | js/user-manager.js:15 | `find` returns an element exactly when some element matches, and it is the first match: no element before it matches |
| `App.TaskIndex` | js/app.js:315 | the index of the first task with the id, or -1 exactly when no task has it |
| `App.UserWithId` | js/app.js:461 | a user with the id is found exactly when one exists, and the one found is the first user with that id |
| `App.AppendTaskKeepsConsistent` | js/app.js:323-333 | appending a task with an unused id for an existing user keeps task ids unique and every task owned |
| `App.ToggledTasks` | js/app.js:231-234 | only the first task with the id changes, and only its `completed` flag flips; an unknown id changes nothing |
| `App.ToggleTwiceRestores` | js/app.js:234 | toggling the same id twice restores the task list |
| `App.EditedTasks` | js/app.js:313-320 | every task keeps its id, owner, completion and creation time; only the first match takes the new title, description and day; an unknown id changes nothing |
| `App.TasksWithout` | js/app.js:266 | exactly the tasks with another id remain; an absent id changes nothing; unique ids and ownership are kept |
| `App.TasksWithoutAppend` | js/app.js:259 | deleting distributes over concatenation, so the remaining tasks keep their order |
| `App.VisibleTasks` | js/app.js:533-536 | the visible tasks are exactly the tasks of this user on this day |
| `App.VisibleAfterAppend` | js/app.js:147-150 | after an append the tasks shown stay in place, and the new task is shown last exactly when it is this user's and this day's |
| `App.State.RenderedTasks` | js/app.js:147-150 | the tasks listed are exactly the current user's tasks for the current day |
| `App.ProgressOf` | js/app.js:538-539 | total is the number of visible tasks, completed is at most total, and the two are equal exactly when every visible task is done |
| `App.ProgressCountsCompleted` | js/app.js:538-539 | one more visible task adds one to the total, and one to the completed count exactly when it is completed; with the empty list at 0 of 0, completed is the number of completed visible tasks |
| `App.Percentage` | js/app.js:541-544 | 0 when nothing is visible (no division); otherwise percentage times total equals 100 times completed, that is (completed / total) * 100; within 0..100, and 100 exactly when all of at least one task are done |
| `App.StoredUserId` | js/app.js:100-101 | a non-empty result is the text stored under the current-user key; the result is empty exactly when that entry is missing or empty, the cases `if (currentUserId)` treats as false |
| `App.StartupUser` | js/app.js:100-106 | the start-up user is one of the users: the first one with the stored non-empty id if one exists, else the first user |
| `App.State.constructor` | js/app.js:6-13 | the record starts with today's weekday (one of the seven days), no current user, no users, no tasks and nothing pending |
| `App.State.LoadUsersFromStorage` | js/app.js:89-109 | users are the stored ones, or the defaults, which are written; the current user is the start-up user, and the entry is written only when the stored id was missing or empty; an empty stored list throws and leaves no current user |
| `App.State.LoadTasksFromStorage` | js/app.js:117-125 | tasks are the stored ones, or an empty list that is written; nothing else changes |
| `App.State.Init` | js/app.js:70-77 | throws exactly when storage holds an empty user list, and then writes nothing; otherwise the state is Valid, and storage is the old map plus the default users if none were stored, the first user's id if no id was stored, and an empty task list if none was stored, and nothing else; so users and tasks are mirrored, a stale stored id is left as it was, and the current user is mirrored exactly when the stored id was empty or named a user |
| `App.State.ToggleTaskCompletion` | js/app.js:231-248 | tasks become `ToggledTasks`; tasks are written only when the id was found; the other fields are unchanged and consistency is kept |
| `App.State.SaveTask` | js/app.js:300-336 | an all-whitespace title is rejected with the source's message and changes nothing; otherwise an id edits through `EditedTasks`, no id appends exactly one uncompleted task of the current user with the trimmed fields, and the tasks are written |
| `App.State.StoreTask` | js/app.js:313-336 | with an id, tasks become `EditedTasks`; without one, exactly one uncompleted task of the current user is appended; the tasks are written; consistency is kept, given an unused fresh id when appending |
| `App.State.ConfirmDeleteTask` | js/app.js:360-363 | the pending id becomes the task's id and nothing else changes |
| `App.State.DeleteTask` | js/app.js:251-273 | with a non-empty pending id the tasks become `TasksWithout` that id, are written, and the pending id is cleared; otherwise nothing changes |
| `App.State.AddUser` | js/app.js:491-514 | an all-whitespace name is rejected and changes nothing; otherwise exactly one user is appended with the trimmed name and the trimmed reward, or "No reward specified", and the users are written |
| `App.State.StoreUser` | js/app.js:503-511 | exactly the new user is appended and the users are written; Valid is kept, and consistency too when the new id is unused |
| `App.State.SelectUser` | js/app.js:460-469 | a known id becomes the current user and is written; an unknown id changes nothing |
| `App.State.SelectDay` | js/app.js:81-85 | the current day becomes the selected one and nothing is written |
| `Storage.LocalStorage.GetItem` | js/app.js:90 | `getItem` gives nothing exactly when the key was never written, and otherwise the entry under the key |
| `Storage.LocalStorage.SetItem` | js/app.js:113 | the entry under the key becomes the value and reads back as it; no other entry changes |
| `UserManager.UsersWithout` | js/user-manager.js:24 | exactly the users with another id remain; the first remaining user is the first user of the input with another id; unique ids stay unique |
| `UserManager.UsersWithoutAppend` | js/user-manager.js:24 | removing from a concatenation removes from each part, so the remaining users keep their order |
| `UserManager.TasksNotOwnedBy` | js/user-manager.js:27 | exactly the tasks of other users remain, and unique ids stay unique |
| `UserManager.TasksNotOwnedByAppend` | js/user-manager.js:27 | removing from a concatenation removes from each part, so the remaining tasks keep their order |
| `UserManager.DeletedMessage` | js/user-manager.js:41 | the message is "User ", the name and " has been deleted.", in that order |
| `UserManager.DeleteRemovesOneUser` | js/user-manager.js:24 | with unique ids, deleting an existing user removes exactly one user |
| `UserManager.CascadeLeavesNoOrphans` | js/user-manager.js:27 | after the cascade every remaining task still belongs to a remaining user |
| `UserManager.DeleteUser` | js/user-manager.js:5-43 | at most one user: refused and unchanged; unknown id: refused and unchanged; otherwise users and tasks filtered, the current user replaced by the first remaining user (in original order) only if deleted, and all three entries equal the new state; with unique ids it never throws; Valid and consistency are kept |
| `UserManager.RemoveUserAndTasks` | js/user-manager.js:23-38 | past both guards: users and tasks are filtered, the current user falls back to the first remaining one only if deleted, and the three entries are written; it fails, after writing users and tasks, exactly when no user remains, which unique ids rule out |
| `Config.DaysAreTheWeek` | js/config.js:4-12 | seven pairwise distinct day names, monday first and sunday last |
| `Config.FormatDay` | js/config.js:15-17 | same length, first character upper-cased, the rest unchanged |
| `Config.FormatDayIdempotent` | js/config.js:15-17 | formatting a formatted name changes nothing |
| `Config.FormattedDays` | js/config.js:15-17 | the seven day names display as "Monday" … "Sunday" |
| `Config.CurrentDay` | js/config.js:20-24 | the `getDay()` index 0..6 maps to sunday..saturday, always a member of the days list |
| `Config.StorageKeysDistinct` | js/config.js:27-31 | the three storage keys are pairwise distinct |
| `Config.DefaultUsersWellFormed` | js/config.js:34-47 | two seed users with distinct ids "1" and "2" and non-empty names |
| `Scenarios.FirstRun` | js/app.js:89-125 | a first run against empty storage seeds and writes the default pair, selects the first of them, and mirrors all three entries |
| `Scenarios.AddATask` | js/app.js:321-333 | adding "Clean room" for Monday as the first user stores and shows exactly that task: id "t1", owner "1", title "Clean room", empty description, day monday, not yet completed |

## Left out

- The DOM: rendering, modals, kebab menus, the error toast, the colour preview and all event wiring. Error messages are returned as values instead of being shown.
- js/day-manager.js is not part of this model: it only builds the day buttons. Its callback's effect on the state is `State.SelectDay`.
- `generateId` uses the clock and `Math.random`. The id it returns is a parameter (`freshId`), and "unused" is a hypothesis of the consistency clauses.
- `new Date()`: the weekday index and the `createdAt` timestamp are parameters.
- JSON text: an entry holds the value `JSON.parse` would return. Stored text that is malformed, or that some other program wrote, is not modelled, so loading requires each key to hold the kind of value the tracker writes there (`LocalStorage.WellTyped`).
- Failing writes: `localStorage.setItem` can throw when storage is full. Every write here succeeds, so the `catch` of `saveTasksToStorage` (js/app.js:129-133) has no branch in the model.
- The 300 ms `setTimeout` in `deleteTask`: the filter runs at once. A second confirmation that changes the pending id within those 300 ms is not modelled.
- The progress percentage is an exact `real`, not a floating-point number.
- Config.FormatDay: upper-cases ASCII letters only. JavaScript's `toUpperCase` also maps other letters, and some of them to two characters (ß becomes SS). For those inputs the same-length contract is stronger than the source.
- `taskBeingEdited` is never assigned or read, so it is not a field of `State`.
- JavaScript objects are shared by reference: `state.currentUser` is one of the objects in `state.users`, and `config.defaultUsers` becomes the users array itself. The model uses values instead. No user is ever changed in place, and the seed array is never read again, so nothing observable differs.
