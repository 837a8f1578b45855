/** The two records the tracker stores: users and their tasks. */
module Entities {
  import opened Seqs

  /** A family member; `color` is a CSS colour, `reward` free text. */
  datatype User = User(id: string, name: string, color: string, reward: string)

  /** A task on one weekday for one user; `createdAt` is an ISO-8601 timestamp. */
  datatype Task = Task(
    id: string,
    userId: string,
    title: string,
    description: string,
    day: string,
    completed: bool,
    createdAt: string)

  function UserId(u: User): string { u.id }
  function TaskId(t: Task): string { t.id }

  /** Some user in `users` has this id. */
  predicate HasUser(users: seq<User>, id: string) {
    exists i :: 0 <= i < |users| && users[i].id == id
  }

  predicate UniqueUserIds(users: seq<User>) {
    DistinctKeys(users, UserId)
  }

  predicate UniqueTaskIds(tasks: seq<Task>) {
    DistinctKeys(tasks, TaskId)
  }

  /** Every task belongs to a user that exists. */
  predicate TasksOwned(users: seq<User>, tasks: seq<Task>) {
    forall i :: 0 <= i < |tasks| ==> HasUser(users, tasks[i].userId)
  }
}
