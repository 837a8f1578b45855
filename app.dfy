/** The tracker's application state (the `state` record of js/app.js) and the
    event handlers that change it, with the DOM taken away. Each handler is a
    method on `State`; what it does to the task list is given by a function
    on sequences, and the properties the tracker relies on are proved about
    those functions. */
module App {
  import opened Seqs
  import opened Text
  import opened Entities
  import opened Storage
  import Config

  const TitleRequired := "Task title cannot be empty"
  const NameRequired := "User name cannot be empty"
  const NoReward := "No reward specified"

  // ---------------------------------------------------------------------
  // Lookups
  // ---------------------------------------------------------------------

  /** `tasks.findIndex(task => task.id === id)`. */
  function TaskIndex(tasks: seq<Task>, id: string): (i: int)
    ensures -1 <= i < |tasks|
    ensures 0 <= i ==> tasks[i].id == id && forall j :: 0 <= j < i ==> tasks[j].id != id
    ensures i == -1 <==> forall j :: 0 <= j < |tasks| ==> tasks[j].id != id
  {
    FindIndex(tasks, (t: Task) => t.id == id)
  }

  /** `users.find(user => user.id === id)`. */
  function UserWithId(users: seq<User>, id: string): (r: Option<User>)
    ensures r.Some? <==> HasUser(users, id)
    ensures r.Some? ==> r.value in users && r.value.id == id
    ensures r.Some? ==>
      exists k :: 0 <= k < |users| && r.value == users[k] && users[k].id == id &&
        forall j :: 0 <= j < k ==> users[j].id != id
  {
    Find(users, (u: User) => u.id == id)
  }

  /** Two task lists that agree, position by position, on every task's id and
      owner are alike for uniqueness of ids and for ownership. */
  lemma SameIdentities(a: seq<Task>, b: seq<Task>)
    requires |a| == |b|
    requires forall j :: 0 <= j < |a| ==> a[j].id == b[j].id && a[j].userId == b[j].userId
    ensures UniqueTaskIds(a) <==> UniqueTaskIds(b)
    ensures forall users :: TasksOwned(users, a) <==> TasksOwned(users, b)
  {
    assert forall j :: 0 <= j < |a| ==> TaskId(a[j]) == TaskId(b[j]);
  }

  /** Appending a task with an unused id for an existing user keeps task ids
      unique and every task owned. */
  lemma AppendTaskKeepsConsistent(users: seq<User>, tasks: seq<Task>, task: Task)
    ensures UniqueTaskIds(tasks) && (forall i :: 0 <= i < |tasks| ==> tasks[i].id != task.id)
      ==> UniqueTaskIds(tasks + [task])
    ensures TasksOwned(users, tasks) && HasUser(users, task.userId) ==> TasksOwned(users, tasks + [task])
  {
    var all := tasks + [task];
    if UniqueTaskIds(tasks) && (forall i :: 0 <= i < |tasks| ==> tasks[i].id != task.id) {
      forall i, j | 0 <= i < j < |all| ensures TaskId(all[i]) != TaskId(all[j]) {
        if j == |tasks| {
          assert all[i] == tasks[i];
        } else {
          assert TaskId(tasks[i]) != TaskId(tasks[j]);
        }
      }
    }
    if TasksOwned(users, tasks) && HasUser(users, task.userId) {
      forall i | 0 <= i < |all| ensures HasUser(users, all[i].userId) {
        if i < |tasks| {
          assert all[i] == tasks[i];
        }
      }
    }
  }

  // ---------------------------------------------------------------------
  // What the handlers do to the task list
  // ---------------------------------------------------------------------

  /** toggleTaskCompletion: the first task with this id has its `completed`
      flag flipped and nothing else; an unknown id changes nothing. */
  function ToggledTasks(tasks: seq<Task>, id: string): (r: seq<Task>)
    ensures |r| == |tasks|
    ensures forall j :: 0 <= j < |tasks| && j != TaskIndex(tasks, id) ==> r[j] == tasks[j]
    ensures var i := TaskIndex(tasks, id);
      0 <= i ==> r[i].completed == !tasks[i].completed && r[i].(completed := tasks[i].completed) == tasks[i]
  {
    var i := TaskIndex(tasks, id);
    if i == -1 then tasks else tasks[i := tasks[i].(completed := !tasks[i].completed)]
  }

  /** Toggling the same id twice restores the task list. */
  lemma ToggleTwiceRestores(tasks: seq<Task>, id: string)
    ensures ToggledTasks(ToggledTasks(tasks, id), id) == tasks
  {
    var once := ToggledTasks(tasks, id);
    var i := TaskIndex(tasks, id);
    assert forall j :: 0 <= j < |tasks| ==> once[j].id == tasks[j].id;
    assert TaskIndex(once, id) == i;
  }

  /** The edit branch of saveTask: the first task with this id takes the new
      title, description and day and keeps its id, owner, completion and
      creation time; every other task is untouched; an unknown id changes
      nothing. */
  function EditedTasks(tasks: seq<Task>, id: string, title: string, description: string, day: string): (r: seq<Task>)
    ensures |r| == |tasks|
    ensures forall j :: 0 <= j < |tasks| ==>
      r[j].id == tasks[j].id && r[j].userId == tasks[j].userId &&
      r[j].completed == tasks[j].completed && r[j].createdAt == tasks[j].createdAt
    ensures forall j :: 0 <= j < |tasks| && j != TaskIndex(tasks, id) ==> r[j] == tasks[j]
    ensures var i := TaskIndex(tasks, id);
      0 <= i ==> r[i].title == title && r[i].description == description && r[i].day == day
  {
    var i := TaskIndex(tasks, id);
    if i == -1 then tasks
    else tasks[i := tasks[i].(title := title, description := description, day := day)]
  }

  /** deleteTask: every task with this id goes, the others stay in order; an
      absent id changes nothing. */
  function TasksWithout(tasks: seq<Task>, id: string): (r: seq<Task>)
    ensures forall i :: 0 <= i < |r| ==> r[i] in tasks && r[i].id != id
    ensures forall i :: 0 <= i < |tasks| && tasks[i].id != id ==> tasks[i] in r
    ensures (forall i :: 0 <= i < |tasks| ==> tasks[i].id != id) ==> r == tasks
    ensures UniqueTaskIds(tasks) ==> UniqueTaskIds(r)
    ensures forall users :: TasksOwned(users, tasks) ==> TasksOwned(users, r)
  {
    var keep := (t: Task) => t.id != id;
    FilterKeepsAll(tasks, keep);
    FilterDistinctKeys(tasks, keep, TaskId);
    Filter(tasks, keep)
  }

  /** Deleting a task keeps the relative order of the rest: deleting from a
      concatenation deletes from each part. */
  lemma TasksWithoutAppend(a: seq<Task>, b: seq<Task>, id: string)
    ensures TasksWithout(a + b, id) == TasksWithout(a, id) + TasksWithout(b, id)
  {
    FilterAppend(a, b, (t: Task) => t.id != id);
  }

  // ---------------------------------------------------------------------
  // The view: renderTasks and updateProgress
  // ---------------------------------------------------------------------

  /** The tasks shown: those of this user on this day, in stored order. */
  function VisibleTasks(tasks: seq<Task>, userId: string, day: string): (r: seq<Task>)
    ensures |r| <= |tasks|
    ensures forall i :: 0 <= i < |r| ==> r[i] in tasks && r[i].userId == userId && r[i].day == day
    ensures forall i :: 0 <= i < |tasks| && tasks[i].userId == userId && tasks[i].day == day ==> tasks[i] in r
  {
    Filter(tasks, (t: Task) => t.userId == userId && t.day == day)
  }

  /** Appending a task leaves the tasks already shown where they are and shows
      the new one last exactly when it is this user's and this day's. */
  lemma VisibleAfterAppend(tasks: seq<Task>, t: Task, userId: string, day: string)
    ensures VisibleTasks(tasks + [t], userId, day) ==
      VisibleTasks(tasks, userId, day) + (if t.userId == userId && t.day == day then [t] else [])
  {
    var keep := (x: Task) => x.userId == userId && x.day == day;
    FilterAppend(tasks, [t], keep);
    assert Filter([t], keep) == (if keep(t) then [t] else []) + Filter([], keep);
  }

  /** updateProgress's two counts. */
  datatype Progress = Progress(completed: nat, total: nat)

  /** The completed and total counts over the visible tasks. */
  function ProgressOf(visible: seq<Task>): (p: Progress)
    ensures p.total == |visible| && p.completed <= p.total
    ensures p.completed == p.total <==> forall i :: 0 <= i < |visible| ==> visible[i].completed
  {
    var done := (t: Task) => t.completed;
    FilterKeepsAll(visible, done);
    Progress(|Filter(visible, done)|, |visible|)
  }

  /** The completed count counts the completed tasks: one more visible task
      adds one to it exactly when that task is completed. With
      `ProgressOf([]) == Progress(0, 0)` this fixes the count of every list. */
  lemma ProgressCountsCompleted(visible: seq<Task>, t: Task)
    ensures ProgressOf(visible + [t]).completed == ProgressOf(visible).completed + (if t.completed then 1 else 0)
    ensures ProgressOf(visible + [t]).total == ProgressOf(visible).total + 1
  {
    var done := (x: Task) => x.completed;
    FilterAppend(visible, [t], done);
    assert Filter([t], done) == (if done(t) then [t] else []) + Filter([], done);
  }

  /** The progress bar's width in percent, with no division when nothing is
      visible. */
  function Percentage(p: Progress): (r: real)
    ensures p.total == 0 ==> r == 0.0
    ensures p.completed <= p.total ==> 0.0 <= r <= 100.0
    ensures p.completed <= p.total ==> (r == 100.0 <==> 0 < p.total && p.completed == p.total)
    ensures p.total > 0 ==> r * p.total as real == 100.0 * p.completed as real
  {
    if p.total > 0 then (p.completed as real / p.total as real) * 100.0 else 0.0
  }

  // ---------------------------------------------------------------------
  // Start-up
  // ---------------------------------------------------------------------

  /** The current-user id found in storage, "" when there is none. */
  function StoredUserId(entries: map<string, Stored>): (id: string)
    ensures id != "" ==> Config.CurrentUserKey in entries && entries[Config.CurrentUserKey] == Text(id)
    ensures id == "" <==> !(Config.CurrentUserKey in entries && entries[Config.CurrentUserKey].Text? &&
                            entries[Config.CurrentUserKey].text != "")
  {
    if Config.CurrentUserKey in entries && entries[Config.CurrentUserKey].Text?
    then entries[Config.CurrentUserKey].text
    else ""
  }

  /** The user selected at start-up: the one with the stored id, or else the
      first user. */
  function StartupUser(users: seq<User>, storedId: string): (u: User)
    requires |users| > 0
    ensures u in users
    ensures storedId != "" && HasUser(users, storedId) ==> u.id == storedId
    ensures storedId != "" && HasUser(users, storedId) ==>
      exists k :: 0 <= k < |users| && u == users[k] && forall j :: 0 <= j < k ==> users[j].id != storedId
    ensures !(storedId != "" && HasUser(users, storedId)) ==> u == users[0]
  {
    var found := UserWithId(users, storedId);
    if storedId != "" && found.Some? then found.value else users[0]
  }

  // ---------------------------------------------------------------------
  // The state record and its handlers
  // ---------------------------------------------------------------------

  class State {
    var currentDay: string
    var currentUser: Option<User>
    var users: seq<User>
    var tasks: seq<Task>
    var taskToDelete: Option<string>

    /** The record before start-up: today's weekday, no user and no task. */
    constructor (weekday: int)
      requires 0 <= weekday < 7
      ensures currentDay == Config.CurrentDay(weekday) && currentDay in Config.Days
      ensures currentUser == None && users == [] && tasks == [] && taskToDelete == None
    {
      currentDay := Config.CurrentDay(weekday);
      currentUser := None;
      users := [];
      tasks := [];
      taskToDelete := None;
    }

    /** Once loaded, the current user is one of the users (so there is one). */
    ghost predicate Valid()
      reads this
    {
      currentUser.Some? && currentUser.value in users
    }

    /** What every handler keeps besides Valid: ids are unique and every
        task belongs to an existing user. */
    ghost predicate Consistent()
      reads this
    {
      Valid() && UniqueUserIds(users) && UniqueTaskIds(tasks) && TasksOwned(users, tasks)
    }

    /** The three storage entries hold the users, the tasks and the current
        user's id as they are in memory. */
    ghost predicate PersistedIn(ls: LocalStorage)
      reads this, ls
    {
      Config.UsersKey in ls.entries && ls.entries[Config.UsersKey] == UsersJson(users) &&
      Config.TasksKey in ls.entries && ls.entries[Config.TasksKey] == TasksJson(tasks) &&
      currentUser.Some? &&
      Config.CurrentUserKey in ls.entries && ls.entries[Config.CurrentUserKey] == Text(currentUser.value.id)
    }

    /** The tasks renderTasks lists. */
    function RenderedTasks(): (r: seq<Task>)
      reads this
      requires Valid()
      ensures forall i :: 0 <= i < |r| ==> r[i] in tasks && r[i].userId == currentUser.value.id && r[i].day == currentDay
      ensures forall i :: 0 <= i < |tasks| && tasks[i].userId == currentUser.value.id && tasks[i].day == currentDay ==>
        tasks[i] in r
    {
      VisibleTasks(tasks, currentUser.value.id, currentDay)
    }

    /** loadUsersFromStorage: the stored users, or the default pair (then
        written back); then the user with the stored id, or else the first
        user, where only a missing or empty stored id is written back. A
        stored empty user list leaves no current user, and the code throws
        (threw): at `state.users[0].id` when no id is stored, otherwise when
        updateCurrentUserDisplay reads the undefined user's name. */
    method LoadUsersFromStorage(ls: LocalStorage) returns (threw: bool)
      requires ls.WellTyped()
      modifies this, ls
      ensures ls.WellTyped()
      ensures users == if Config.UsersKey in old(ls.entries) then old(ls.entries)[Config.UsersKey].users else Config.DefaultUsers
      ensures threw <==> users == []
      ensures threw ==> currentUser == None
      ensures !threw ==> currentUser == Some(StartupUser(users, StoredUserId(old(ls.entries))))
      ensures !threw ==> Valid()
      ensures var seeded := if Config.UsersKey in old(ls.entries) then old(ls.entries)
                            else old(ls.entries)[Config.UsersKey := UsersJson(Config.DefaultUsers)];
        ls.entries == if !threw && StoredUserId(old(ls.entries)) == "" then seeded[Config.CurrentUserKey := Text(users[0].id)] else seeded
      ensures tasks == old(tasks) && currentDay == old(currentDay) && taskToDelete == old(taskToDelete)
    {
      Config.StorageKeysDistinct();
      var stored := ls.GetItem(Config.UsersKey);
      if stored.Some? {
        users := stored.value.users;
      } else {
        users := Config.DefaultUsers;
        ls.SetItem(Config.UsersKey, UsersJson(users));
      }
      var currentUserId := StoredUserId(ls.entries);
      if users == [] {
        currentUser := None;
        threw := true;
        return;
      }
      threw := false;
      if currentUserId != "" {
        var found := UserWithId(users, currentUserId);
        currentUser := Some(if found.Some? then found.value else users[0]);
      } else {
        currentUser := Some(users[0]);
        ls.SetItem(Config.CurrentUserKey, Text(users[0].id));
      }
    }

    /** loadTasksFromStorage: the stored tasks, or an empty list written back. */
    method LoadTasksFromStorage(ls: LocalStorage)
      requires ls.WellTyped()
      modifies this, ls
      ensures ls.WellTyped()
      ensures tasks == if Config.TasksKey in old(ls.entries) then old(ls.entries)[Config.TasksKey].tasks else []
      ensures ls.entries == if Config.TasksKey in old(ls.entries) then old(ls.entries)
                            else old(ls.entries)[Config.TasksKey := TasksJson([])]
      ensures users == old(users) && currentUser == old(currentUser)
      ensures currentDay == old(currentDay) && taskToDelete == old(taskToDelete)
    {
      var stored := ls.GetItem(Config.TasksKey);
      if stored.Some? {
        tasks := stored.value.tasks;
      } else {
        tasks := [];
        ls.SetItem(Config.TasksKey, TasksJson(tasks));
      }
    }

    /** init: users first, then tasks. It throws exactly when storage holds
        an empty user list; otherwise the state is Valid and the users and
        tasks in storage are those in memory. The current user's id is in
        storage too unless a stored id named no user: that fallback is not
        written back. Only the missing entries are written, and a throw
        writes nothing. */
    method Init(ls: LocalStorage) returns (threw: bool)
      requires ls.WellTyped()
      modifies this, ls
      ensures ls.WellTyped()
      ensures threw <==> Config.UsersKey in old(ls.entries) && old(ls.entries)[Config.UsersKey].users == []
      ensures users == if Config.UsersKey in old(ls.entries) then old(ls.entries)[Config.UsersKey].users else Config.DefaultUsers
      ensures threw ==> currentUser == None && tasks == old(tasks)
      ensures !threw ==> currentUser == Some(StartupUser(users, StoredUserId(old(ls.entries))))
      ensures !threw ==> tasks == if Config.TasksKey in old(ls.entries) then old(ls.entries)[Config.TasksKey].tasks else []
      ensures currentDay == old(currentDay) && taskToDelete == old(taskToDelete)
      ensures !threw ==> Valid()
      ensures !threw ==> Config.UsersKey in ls.entries && Config.TasksKey in ls.entries
      ensures !threw ==> ls.entries[Config.UsersKey] == UsersJson(users) && ls.entries[Config.TasksKey] == TasksJson(tasks)
      ensures !threw ==>
        (PersistedIn(ls) <==> StoredUserId(old(ls.entries)) == "" || HasUser(users, StoredUserId(old(ls.entries))))
      ensures threw ==> ls.entries == old(ls.entries)
      ensures !threw ==>
        var seeded := if Config.UsersKey in old(ls.entries) then old(ls.entries)
                      else old(ls.entries)[Config.UsersKey := UsersJson(Config.DefaultUsers)];
        var selected := if StoredUserId(old(ls.entries)) == "" then seeded[Config.CurrentUserKey := Text(users[0].id)]
                        else seeded;
        ls.entries == if Config.TasksKey in old(ls.entries) then selected
                      else selected[Config.TasksKey := TasksJson([])]
    {
      Config.StorageKeysDistinct();
      threw := LoadUsersFromStorage(ls);
      if !threw {
        LoadTasksFromStorage(ls);
      }
    }

    /** toggleTaskCompletion: flips the first matching task's completion and
        writes the tasks; an unknown id changes and writes nothing. */
    method ToggleTaskCompletion(ls: LocalStorage, taskId: string)
      modifies this, ls
      ensures tasks == ToggledTasks(old(tasks), taskId)
      ensures ls.entries == if TaskIndex(old(tasks), taskId) == -1 then old(ls.entries)
                            else old(ls.entries)[Config.TasksKey := TasksJson(tasks)]
      ensures users == old(users) && currentUser == old(currentUser)
      ensures currentDay == old(currentDay) && taskToDelete == old(taskToDelete)
      ensures old(Consistent()) ==> Consistent()
    {
      var i := TaskIndex(tasks, taskId);
      if i != -1 {
        tasks := tasks[i := tasks[i].(completed := !tasks[i].completed)];
        ls.SetItem(Config.TasksKey, TasksJson(tasks));
      }
      SameIdentities(old(tasks), tasks);
    }

    /** saveTask: the trimmed title must not be empty. With a task id it edits
        that task (an unknown id edits nothing); without one it appends a new,
        uncompleted task of the current user. Either way the tasks are then
        written. `freshId` is what generateId returned and `now` the creation
        time. */
    method SaveTask(ls: LocalStorage, taskIdInput: string, titleInput: string, descriptionInput: string,
                    day: string, freshId: string, now: string)
      returns (error: Option<string>)
      requires Valid()
      modifies this, ls
      ensures Trim(titleInput) == "" ==>
        error == Some(TitleRequired) && tasks == old(tasks) && ls.entries == old(ls.entries)
      ensures Trim(titleInput) != "" ==>
        error == None && ls.entries == old(ls.entries)[Config.TasksKey := TasksJson(tasks)]
      ensures Trim(titleInput) != "" && taskIdInput != "" ==>
        tasks == EditedTasks(old(tasks), taskIdInput, Trim(titleInput), Trim(descriptionInput), day)
      ensures Trim(titleInput) != "" && taskIdInput == "" ==>
        tasks == old(tasks) + [Task(freshId, old(currentUser).value.id, Trim(titleInput), Trim(descriptionInput), day, false, now)]
      ensures users == old(users) && currentUser == old(currentUser)
      ensures currentDay == old(currentDay) && taskToDelete == old(taskToDelete)
      ensures Valid()
      ensures old(Consistent()) && (taskIdInput == "" ==> forall i :: 0 <= i < |old(tasks)| ==> old(tasks)[i].id != freshId)
        ==> Consistent()
    {
      var title := Trim(titleInput);
      var description := Trim(descriptionInput);
      if title == "" {
        error := Some(TitleRequired);
        return;
      }
      error := None;
      StoreTask(ls, taskIdInput, title, description, day, freshId, now);
    }

    /** The part of saveTask after the title check: edit or append, then write
        the tasks. */
    method StoreTask(ls: LocalStorage, taskId: string, title: string, description: string,
                     day: string, freshId: string, now: string)
      requires Valid()
      modifies this, ls
      ensures ls.entries == old(ls.entries)[Config.TasksKey := TasksJson(tasks)]
      ensures taskId != "" ==> tasks == EditedTasks(old(tasks), taskId, title, description, day)
      ensures taskId == "" ==>
        tasks == old(tasks) + [Task(freshId, old(currentUser).value.id, title, description, day, false, now)]
      ensures users == old(users) && currentUser == old(currentUser)
      ensures currentDay == old(currentDay) && taskToDelete == old(taskToDelete)
      ensures old(Consistent()) && (taskId == "" ==> forall i :: 0 <= i < |old(tasks)| ==> old(tasks)[i].id != freshId)
        ==> Consistent()
    {
      if taskId != "" {
        var i := TaskIndex(tasks, taskId);
        if i != -1 {
          tasks := tasks[i := tasks[i].(title := title, description := description, day := day)];
        }
        SameIdentities(old(tasks), tasks);
      } else {
        var task := Task(freshId, currentUser.value.id, title, description, day, false, now);
        tasks := tasks + [task];
        AppendTaskKeepsConsistent(users, old(tasks), task);
      }
      ls.SetItem(Config.TasksKey, TasksJson(tasks));
    }

    /** confirmDeleteTask: remembers which task the confirmation is about. */
    method ConfirmDeleteTask(taskId: string)
      modifies this
      ensures taskToDelete == Some(taskId)
      ensures tasks == old(tasks) && users == old(users) && currentUser == old(currentUser) && currentDay == old(currentDay)
      ensures old(Consistent()) ==> Consistent()
    {
      taskToDelete := Some(taskId);
    }

    /** deleteTask: with a pending, non-empty task id, removes every task with
        that id, writes the tasks and clears the pending id; otherwise does
        nothing. */
    method DeleteTask(ls: LocalStorage)
      modifies this, ls
      ensures var pending := old(taskToDelete);
        if pending.Some? && pending.value != "" then
          tasks == TasksWithout(old(tasks), pending.value) && taskToDelete == None &&
          ls.entries == old(ls.entries)[Config.TasksKey := TasksJson(tasks)]
        else
          tasks == old(tasks) && taskToDelete == old(taskToDelete) && ls.entries == old(ls.entries)
      ensures users == old(users) && currentUser == old(currentUser) && currentDay == old(currentDay)
      ensures old(Consistent()) ==> Consistent()
    {
      if taskToDelete.Some? && taskToDelete.value != "" {
        tasks := TasksWithout(tasks, taskToDelete.value);
        ls.SetItem(Config.TasksKey, TasksJson(tasks));
        taskToDelete := None;
      }
    }

    /** addUser: the trimmed name must not be empty; the new user gets the
        trimmed reward, or a placeholder when that is empty, and is appended
        and the users written. `freshId` is what generateId returned. */
    method AddUser(ls: LocalStorage, nameInput: string, color: string, rewardInput: string, freshId: string)
      returns (error: Option<string>)
      modifies this, ls
      ensures Trim(nameInput) == "" ==>
        error == Some(NameRequired) && users == old(users) && ls.entries == old(ls.entries)
      ensures Trim(nameInput) != "" ==>
        error == None &&
        users == old(users) + [User(freshId, Trim(nameInput), color,
                                    if Trim(rewardInput) == "" then NoReward else Trim(rewardInput))] &&
        ls.entries == old(ls.entries)[Config.UsersKey := UsersJson(users)]
      ensures tasks == old(tasks) && currentUser == old(currentUser)
      ensures currentDay == old(currentDay) && taskToDelete == old(taskToDelete)
      ensures old(Valid()) ==> Valid()
      ensures old(Consistent()) && !HasUser(old(users), freshId) ==> Consistent()
    {
      var name := Trim(nameInput);
      var reward := Trim(rewardInput);
      if name == "" {
        error := Some(NameRequired);
        return;
      }
      error := None;
      StoreUser(ls, User(freshId, name, color, if reward != "" then reward else NoReward));
    }

    /** The part of addUser after the name check: append the user and write
        the users. */
    method StoreUser(ls: LocalStorage, user: User)
      modifies this, ls
      ensures users == old(users) + [user]
      ensures ls.entries == old(ls.entries)[Config.UsersKey := UsersJson(users)]
      ensures tasks == old(tasks) && currentUser == old(currentUser)
      ensures currentDay == old(currentDay) && taskToDelete == old(taskToDelete)
      ensures old(Valid()) ==> Valid()
      ensures old(Consistent()) && !HasUser(old(users), user.id) ==> Consistent()
    {
      users := users + [user];
      ls.SetItem(Config.UsersKey, UsersJson(users));
      if old(Consistent()) && !HasUser(old(users), user.id) {
        forall i | 0 <= i < |tasks| ensures HasUser(users, tasks[i].userId) {
          var k :| 0 <= k < |old(users)| && old(users)[k].id == tasks[i].userId;
          assert users[k] == old(users)[k];
        }
        forall i, j | 0 <= i < j < |users| ensures UserId(users[i]) != UserId(users[j]) {
          if j == |users| - 1 {
            assert users[i] == old(users)[i];
          } else {
            assert UserId(old(users)[i]) != UserId(old(users)[j]);
          }
        }
      }
    }

    /** selectUser: a known id becomes the current user and is written; an
        unknown id changes nothing. */
    method SelectUser(ls: LocalStorage, userId: string)
      modifies this, ls
      ensures HasUser(old(users), userId) ==>
        currentUser == UserWithId(old(users), userId) && currentUser.value.id == userId && Valid() &&
        ls.entries == old(ls.entries)[Config.CurrentUserKey := Text(userId)]
      ensures !HasUser(old(users), userId) ==> currentUser == old(currentUser) && ls.entries == old(ls.entries)
      ensures users == old(users) && tasks == old(tasks)
      ensures currentDay == old(currentDay) && taskToDelete == old(taskToDelete)
      ensures old(Consistent()) ==> Consistent()
    {
      var selected := UserWithId(users, userId);
      if selected.Some? {
        currentUser := selected;
        ls.SetItem(Config.CurrentUserKey, Text(userId));
      }
    }

    /** The day selector's callback: shows another day; nothing is written. */
    method SelectDay(day: string)
      modifies this
      ensures currentDay == day
      ensures users == old(users) && tasks == old(tasks)
      ensures currentUser == old(currentUser) && taskToDelete == old(taskToDelete)
      ensures old(Consistent()) ==> Consistent()
    {
      currentDay := day;
    }
  }
}
