/** userManager.deleteUser (js/user-manager.js): removes a user and, in
    cascade, that user's tasks, keeping at least one user and a current user
    who exists. */
module UserManager {
  import opened Seqs
  import opened Entities
  import opened Storage
  import Config
  import App

  const LastUserMessage := "Cannot delete the last user. At least one user must remain."
  const NotFoundMessage := "User not found."

  /** The success message, with the deleted user's name in the middle. */
  function DeletedMessage(name: string): (m: string)
    ensures |m| == |name| + 23
    ensures m[..5] == "User " && m[5..5 + |name|] == name && m[5 + |name|..] == " has been deleted."
  {
    "User " + name + " has been deleted."
  }

  /** What deleteUser returns: whether it deleted and the message to show. */
  datatype DeleteResult = DeleteResult(success: bool, message: string)

  /** The users that remain: all but those with this id, in order. */
  function UsersWithout(users: seq<User>, id: string): (r: seq<User>)
    ensures |r| <= |users|
    ensures forall i :: 0 <= i < |r| ==> r[i] in users && r[i].id != id
    ensures forall i :: 0 <= i < |users| && users[i].id != id ==> users[i] in r
    ensures UniqueUserIds(users) ==> UniqueUserIds(r)
    ensures r != [] ==>
      exists k :: 0 <= k < |users| && r[0] == users[k] && users[k].id != id &&
        forall j :: 0 <= j < k ==> users[j].id == id
  {
    var keep := (u: User) => u.id != id;
    FilterDistinctKeys(users, keep, UserId);
    FilterFirst(users, keep);
    Filter(users, keep)
  }

  /** The remaining users keep their order: removing from a concatenation
      removes from each part. */
  lemma UsersWithoutAppend(a: seq<User>, b: seq<User>, id: string)
    ensures UsersWithout(a + b, id) == UsersWithout(a, id) + UsersWithout(b, id)
  {
    FilterAppend(a, b, (u: User) => u.id != id);
  }

  /** The tasks that remain: all but those owned by this id, in order. */
  function TasksNotOwnedBy(tasks: seq<Task>, id: string): (r: seq<Task>)
    ensures |r| <= |tasks|
    ensures forall i :: 0 <= i < |r| ==> r[i] in tasks && r[i].userId != id
    ensures forall i :: 0 <= i < |tasks| && tasks[i].userId != id ==> tasks[i] in r
    ensures UniqueTaskIds(tasks) ==> UniqueTaskIds(r)
  {
    var keep := (t: Task) => t.userId != id;
    FilterDistinctKeys(tasks, keep, TaskId);
    Filter(tasks, keep)
  }

  /** The remaining tasks keep their order: removing from a concatenation
      removes from each part. */
  lemma TasksNotOwnedByAppend(a: seq<Task>, b: seq<Task>, id: string)
    ensures TasksNotOwnedBy(a + b, id) == TasksNotOwnedBy(a, id) + TasksNotOwnedBy(b, id)
  {
    FilterAppend(a, b, (t: Task) => t.userId != id);
  }

  /** With unique ids, deleting an existing user removes exactly one user. */
  lemma DeleteRemovesOneUser(users: seq<User>, id: string)
    requires UniqueUserIds(users) && HasUser(users, id)
    ensures |UsersWithout(users, id)| == |users| - 1
  {
    var i :| 0 <= i < |users| && users[i].id == id;
    assert users[i] in users && UserId(users[i]) == id;
    FilterRemovesOne(users, UserId, id, (u: User) => u.id != id);
  }

  /** The cascade leaves no orphan: if every task had an owner before, every
      remaining task has a remaining owner. */
  lemma CascadeLeavesNoOrphans(users: seq<User>, tasks: seq<Task>, id: string)
    requires TasksOwned(users, tasks)
    ensures TasksOwned(UsersWithout(users, id), TasksNotOwnedBy(tasks, id))
  {
    var remainingUsers := UsersWithout(users, id);
    var remainingTasks := TasksNotOwnedBy(tasks, id);
    forall i | 0 <= i < |remainingTasks| ensures HasUser(remainingUsers, remainingTasks[i].userId) {
      var t := remainingTasks[i];
      var j :| 0 <= j < |tasks| && tasks[j] == t;
      var k :| 0 <= k < |users| && users[k].id == t.userId;
      assert users[k] in remainingUsers;
    }
  }

  /** deleteUser: refuses when at most one user is left, then when no user
      has the id; otherwise removes the user and the user's tasks, moves the
      current user to the first remaining user if it was the one deleted,
      and writes users, tasks and the current user's id. Should the removal
      leave no user at all (possible only when ids repeat), reading the new
      current user's id throws after users and tasks were written (None). */
  method DeleteUser(state: App.State, ls: LocalStorage, userId: string) returns (result: Option<DeleteResult>)
    requires state.Valid()
    modifies state, ls
    ensures |old(state.users)| <= 1 ==>
      result == Some(DeleteResult(false, LastUserMessage)) && unchanged(state, ls)
    ensures |old(state.users)| > 1 && !HasUser(old(state.users), userId) ==>
      result == Some(DeleteResult(false, NotFoundMessage)) && unchanged(state, ls)
    ensures |old(state.users)| > 1 && HasUser(old(state.users), userId) ==>
      state.users == UsersWithout(old(state.users), userId) &&
      state.tasks == TasksNotOwnedBy(old(state.tasks), userId) &&
      state.currentUser == (if old(state.currentUser).value.id != userId then old(state.currentUser)
                            else if state.users == [] then None
                            else Some(state.users[0]))
    ensures |old(state.users)| > 1 && HasUser(old(state.users), userId) && state.users != [] ==>
      result == Some(DeleteResult(true, DeletedMessage(App.UserWithId(old(state.users), userId).value.name))) &&
      ls.entries == old(ls.entries)[Config.UsersKey := UsersJson(state.users)]
                                   [Config.TasksKey := TasksJson(state.tasks)]
                                   [Config.CurrentUserKey := Text(state.currentUser.value.id)] &&
      state.PersistedIn(ls)
    ensures |old(state.users)| > 1 && HasUser(old(state.users), userId) && state.users == [] ==>
      result == None &&
      ls.entries == old(ls.entries)[Config.UsersKey := UsersJson(state.users)]
                                   [Config.TasksKey := TasksJson(state.tasks)]
    ensures state.currentDay == old(state.currentDay) && state.taskToDelete == old(state.taskToDelete)
    ensures UniqueUserIds(old(state.users)) ==> result.Some?
    ensures result.Some? ==> state.Valid()
    ensures old(state.Consistent()) ==> state.Consistent()
  {
    if |state.users| <= 1 {
      return Some(DeleteResult(false, LastUserMessage));
    }
    var userToDelete := App.UserWithId(state.users, userId);
    if userToDelete.None? {
      return Some(DeleteResult(false, NotFoundMessage));
    }
    var deleted := RemoveUserAndTasks(state, ls, userId);
    result := if deleted then Some(DeleteResult(true, DeletedMessage(userToDelete.value.name))) else None;
  }

  /** The part of deleteUser past both guards: filter users and tasks, fall
      back to the first remaining user, and write the three entries. Returns
      false when no user remains, after users and tasks were written. */
  method RemoveUserAndTasks(state: App.State, ls: LocalStorage, userId: string) returns (deleted: bool)
    requires state.Valid() && |state.users| > 1 && HasUser(state.users, userId)
    modifies state, ls
    ensures state.users == UsersWithout(old(state.users), userId)
    ensures state.tasks == TasksNotOwnedBy(old(state.tasks), userId)
    ensures state.currentUser == (if old(state.currentUser).value.id != userId then old(state.currentUser)
                                  else if state.users == [] then None
                                  else Some(state.users[0]))
    ensures deleted <==> state.users != []
    ensures deleted ==>
      ls.entries == old(ls.entries)[Config.UsersKey := UsersJson(state.users)]
                                   [Config.TasksKey := TasksJson(state.tasks)]
                                   [Config.CurrentUserKey := Text(state.currentUser.value.id)] &&
      state.PersistedIn(ls) && state.Valid()
    ensures !deleted ==>
      ls.entries == old(ls.entries)[Config.UsersKey := UsersJson(state.users)]
                                   [Config.TasksKey := TasksJson(state.tasks)]
    ensures state.currentDay == old(state.currentDay) && state.taskToDelete == old(state.taskToDelete)
    ensures UniqueUserIds(old(state.users)) ==> deleted
    ensures old(state.Consistent()) ==> state.Consistent()
  {
    ghost var oldUsers, oldTasks := state.users, state.tasks;
    if UniqueUserIds(oldUsers) {
      DeleteRemovesOneUser(oldUsers, userId);
    }
    if TasksOwned(oldUsers, oldTasks) {
      CascadeLeavesNoOrphans(oldUsers, oldTasks, userId);
    }
    state.users := UsersWithout(state.users, userId);
    state.tasks := TasksNotOwnedBy(state.tasks, userId);
    if state.currentUser.value.id == userId {
      state.currentUser := if state.users == [] then None else Some(state.users[0]);
    }
    Config.StorageKeysDistinct();
    ls.SetItem(Config.UsersKey, UsersJson(state.users));
    ls.SetItem(Config.TasksKey, TasksJson(state.tasks));
    if state.currentUser.None? {
      return false;
    }
    ls.SetItem(Config.CurrentUserKey, Text(state.currentUser.value.id));
    deleted := true;
  }
}
