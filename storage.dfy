/** The browser's localStorage as the tracker uses it: a map from key to the
    value last written under it. An entry is kept as the value that
    JSON.parse gives back for it, so writing then reading a collection
    returns that collection unchanged. */
module Storage {
  import opened Seqs
  import opened Entities
  import Config

  /** What the tracker keeps under a key: a users array, a tasks array
      (both JSON text in the browser) or a plain string (the current user id). */
  datatype Stored = UsersJson(users: seq<User>) | TasksJson(tasks: seq<Task>) | Text(text: string)

  class LocalStorage {
    var entries: map<string, Stored>

    constructor (initial: map<string, Stored>)
      ensures entries == initial
    {
      entries := initial;
    }

    /** Each of the tracker's three keys holds the kind of value the tracker
        writes under it. */
    predicate WellTyped()
      reads this
    {
      (Config.UsersKey in entries ==> entries[Config.UsersKey].UsersJson?) &&
      (Config.TasksKey in entries ==> entries[Config.TasksKey].TasksJson?) &&
      (Config.CurrentUserKey in entries ==> entries[Config.CurrentUserKey].Text?)
    }

    /** localStorage.getItem: the entry, or null when the key was never written. */
    function GetItem(key: string): (r: Option<Stored>)
      reads this
      ensures r.None? <==> key !in entries
      ensures r.Some? ==> r.value == entries[key]
    {
      if key in entries then Some(entries[key]) else None
    }

    /** localStorage.setItem: replaces the entry under key and no other. */
    method SetItem(key: string, value: Stored)
      modifies this
      ensures entries == old(entries)[key := value]
      ensures GetItem(key) == Some(value)
      ensures forall k :: k != key ==> GetItem(k) == old(GetItem(k))
    {
      entries := entries[key := value];
    }
  }
}
