/** The tracker's constant configuration: the weekdays, how a day name is
    shown, today's weekday, the storage keys and the users seeded on first run. */
module Config {
  import opened Text
  import opened Entities

  /** The weekdays in the order the day selector shows them. */
  const Days: seq<string> :=
    ["monday", "tuesday", "wednesday", "thursday", "friday", "saturday", "sunday"]

  /** Days holds seven distinct names, Monday first. */
  lemma DaysAreTheWeek()
    ensures |Days| == 7 && Days[0] == "monday" && Days[6] == "sunday"
    ensures forall i, j :: 0 <= i < j < |Days| ==> Days[i] != Days[j]
  {
    forall i, j | 0 <= i < j < |Days| ensures Days[i] != Days[j] {
      assert Days[i][0] != Days[j][0] || Days[i][1] != Days[j][1];
    }
  }

  /** A day name for display: the first character upper-cased, the rest kept. */
  function FormatDay(day: string): (r: string)
    ensures |r| == |day|
    ensures day != [] ==> r[0] == UpperAscii(day[0]) && r[1..] == day[1..]
  {
    if day == [] then [] else [UpperAscii(day[0])] + day[1..]
  }

  /** Formatting an already formatted name changes nothing. */
  lemma FormatDayIdempotent(day: string)
    ensures FormatDay(FormatDay(day)) == FormatDay(day)
  {
    if day != [] {
      var f := FormatDay(day);
      assert UpperAscii(f[0]) == f[0];
      assert f == [f[0]] + f[1..];
    }
  }

  /** Every weekday name is displayed with its initial in capitals. */
  lemma FormattedDays()
    ensures FormatDay(Days[0]) == "Monday" && FormatDay(Days[1]) == "Tuesday"
    ensures FormatDay(Days[2]) == "Wednesday" && FormatDay(Days[3]) == "Thursday"
    ensures FormatDay(Days[4]) == "Friday" && FormatDay(Days[5]) == "Saturday"
    ensures FormatDay(Days[6]) == "Sunday"
  {
    assert FormatDay("monday") == ['M'] + "onday";
    assert FormatDay("tuesday") == ['T'] + "uesday";
    assert FormatDay("wednesday") == ['W'] + "ednesday";
    assert FormatDay("thursday") == ['T'] + "hursday";
    assert FormatDay("friday") == ['F'] + "riday";
    assert FormatDay("saturday") == ['S'] + "aturday";
    assert FormatDay("sunday") == ['S'] + "unday";
  }

  /** The weekday of a `Date.getDay()` index: 0 is Sunday, 6 is Saturday. It
      is always one of Days, namely the one `weekday` places after Sunday. */
  function CurrentDay(weekday: int): (r: string)
    requires 0 <= weekday < 7
    ensures r in Days
    ensures r == Days[(weekday + 6) % 7]
  {
    ["sunday", "monday", "tuesday", "wednesday", "thursday", "friday", "saturday"][weekday]
  }

  /** The three localStorage keys. */
  const UsersKey: string := "family_task_manager_users"
  const CurrentUserKey: string := "family_task_manager_current_user"
  const TasksKey: string := "family_task_manager_tasks"

  /** No two of the three entries share a key. */
  lemma StorageKeysDistinct()
    ensures UsersKey != CurrentUserKey && UsersKey != TasksKey && CurrentUserKey != TasksKey
  {
    assert UsersKey[20] != CurrentUserKey[20];
    assert UsersKey[20] != TasksKey[20];
    assert CurrentUserKey[20] != TasksKey[20];
  }

  /** The users seeded on first run. */
  const DefaultUsers: seq<User> := [
    User("1", "Parent", "#03A9F4", "Cup of coffee"),
    User("2", "Child", "#FF4081", "30 minutes of video games")
  ]

  /** The seed holds two users with distinct ids "1" and "2" and non-empty names. */
  lemma DefaultUsersWellFormed()
    ensures |DefaultUsers| == 2
    ensures DefaultUsers[0].id == "1" && DefaultUsers[1].id == "2"
    ensures UniqueUserIds(DefaultUsers)
    ensures forall i :: 0 <= i < |DefaultUsers| ==> DefaultUsers[i].name != ""
  {
    assert DefaultUsers[0].id[0] != DefaultUsers[1].id[0];
  }
}
