/** A first session as a client of the handlers sees it, proved from their
    contracts alone: seed the default users, add a task, tick it off, try to
    add a nameless user, then delete the first user. */
module Scenarios {
  import opened Seqs
  import opened Text
  import opened Entities
  import opened Storage
  import Config
  import App
  import UserManager

  /** A first run against empty storage seeds the default pair and selects
      the first of them. */
  method FirstRun() returns (state: App.State, ls: LocalStorage)
    ensures fresh(state) && fresh(ls)
    ensures state.Valid() && state.PersistedIn(ls)
    ensures state.users == Config.DefaultUsers && state.tasks == []
    ensures state.currentUser == Some(Config.DefaultUsers[0]) && state.currentDay == "monday"
  {
    Config.StorageKeysDistinct();
    ls := new LocalStorage(map[]);
    state := new App.State(1);
    var threw := state.Init(ls);
  }

  /** Adding "Clean room" for Monday shows exactly that task, not yet done. */
  method AddATask() returns (state: App.State, ls: LocalStorage, task: Task)
    ensures fresh(state) && fresh(ls)
    ensures state.Valid() && state.currentUser.value.id == "1" && state.currentDay == "monday"
    ensures state.tasks == [task] && task.id == "t1" && task.userId == "1" && task.day == "monday"
    ensures task.title == "Clean room" && task.description == "" && !task.completed
    ensures state.RenderedTasks() == [task]
  {
    state, ls := FirstRun();
    TrimmedAlready("Clean room");
    TrimmedAlready("");
    var error := state.SaveTask(ls, "", "Clean room", "", "monday", "t1", "2024-01-01T08:00:00.000Z");
    task := Task("t1", "1", "Clean room", "", "monday", false, "2024-01-01T08:00:00.000Z");
    assert error == None && state.tasks == [task];
    App.VisibleAfterAppend([], task, "1", "monday");
    assert state.RenderedTasks() == [task];
    assert App.ProgressOf(state.RenderedTasks()) == App.Progress(0, 1);
  }

  /** Ticking it off completes the day: one of one, 100 percent. */
  method CompleteATask() {
    var state, ls, task := AddATask();
    state.ToggleTaskCompletion(ls, "t1");
    var done := task.(completed := true);
    assert state.tasks == [done];
    App.VisibleAfterAppend([], done, "1", "monday");
    assert state.RenderedTasks() == [done];
    var progress := App.ProgressOf(state.RenderedTasks());
    assert progress == App.Progress(1, 1) && App.Percentage(progress) == 100.0;
  }

  method NamelessUserIsRejected() {
    var state, ls := FirstRun();
    assert Trim("   ") == "";
    var error := state.AddUser(ls, "   ", "#000", "", "u3");
    assert error == Some(App.NameRequired) && state.users == Config.DefaultUsers;
  }

  method DeleteUntilOneUserIsLeft() {
    var state, ls := FirstRun();
    Config.DefaultUsersWellFormed();
    var result := UserManager.DeleteUser(state, ls, "1");
    assert state.users == [Config.DefaultUsers[1]];
    assert state.currentUser == Some(Config.DefaultUsers[1]);
    assert result == Some(UserManager.DeleteResult(true, UserManager.DeletedMessage("Parent")));
    assert state.PersistedIn(ls);

    result := UserManager.DeleteUser(state, ls, "2");
    assert result == Some(UserManager.DeleteResult(false, UserManager.LastUserMessage));
  }
}
