/** The user list page: `getInitials` for the avatars, the three role counts on the
    summary cards, and the rows of the student table. */
module UserList {
  import opened Wrappers
  import opened Js
  import opened Lists

  /** The fields of a user that the page reads. `name` may be null or undefined. */
  datatype User = User(name: Option<string>, email: string, role: string, userType: string)

  // ---------------------------------------------------------------------------
  // getInitials

  /** `s.split(" ")`, read left to right with the word collected so far in `current`. */
  function SplitFrom(s: string, current: string): (words: seq<string>)
    ensures |words| >= 1
    decreases |s|
  {
    if s == [] then [current]
    else if s[0] == ' ' then [current] + SplitFrom(s[1..], "")
    else SplitFrom(s[1..], current + [s[0]])
  }

  function Split(s: string): seq<string> {
    SplitFrom(s, "")
  }

  /** `words.join(" ")` */
  function Join(words: seq<string>): string
    requires |words| >= 1
  {
    if |words| == 1 then words[0] else words[0] + " " + Join(words[1..])
  }

  /** `words.map((n) => n[0]).join("")`: `n[0]` of an empty word is `undefined`, which
      `join` writes as nothing. */
  function Heads(words: seq<string>): string {
    if words == [] then ""
    else (if words[0] == "" then "" else [words[0][0]]) + Heads(words[1..])
  }

  /** `getInitials(name)` */
  function GetInitials(name: Option<string>): string {
    match name
    case None => ""
    case Some(s) => if s == "" then "" else ToUpper(Heads(Split(s)))
  }

  /** Reference definition: the characters that begin a word, i.e. a non-space that is
      first in `s` (when `atStart`) or follows a space. */
  function WordStarts(s: string, atStart: bool): (r: string)
    ensures ' ' !in r
    ensures |r| <= |s|
  {
    if s == [] then ""
    else if s[0] == ' ' then WordStarts(s[1..], true)
    else (if atStart then [s[0]] else "") + WordStarts(s[1..], false)
  }

  lemma {:induction false} HeadsConcat(a: seq<string>, b: seq<string>)
    ensures Heads(a + b) == Heads(a) + Heads(b)
  {
    if a == [] {
      assert a + b == b;
    } else {
      assert (a + b)[0] == a[0];
      assert (a + b)[1..] == a[1..] + b;
      HeadsConcat(a[1..], b);
    }
  }

  lemma {:induction false} HeadsOfSplitFrom(s: string, current: string)
    ensures Heads(SplitFrom(s, current)) ==
            if current == "" then WordStarts(s, true) else [current[0]] + WordStarts(s, false)
    decreases |s|
  {
    if s == [] {
    } else if s[0] == ' ' {
      HeadsOfSplitFrom(s[1..], "");
      HeadsConcat([current], SplitFrom(s[1..], ""));
    } else {
      HeadsOfSplitFrom(s[1..], current + [s[0]]);
    }
  }

  /** `getInitials` gives the first character of every non-empty space-separated word, in
      order and upper-cased; runs of spaces, and leading or trailing spaces, add nothing. */
  lemma InitialsAreWordStarts(s: string)
    ensures GetInitials(Some(s)) == ToUpper(WordStarts(s, true))
  {
    HeadsOfSplitFrom(s, "");
  }

  /** A null, undefined or empty name has no initials. */
  lemma NoNameNoInitials()
    ensures GetInitials(None) == "" && GetInitials(Some("")) == ""
  {
  }

  /** Splitting and joining on spaces gives the name back, so no character is lost by the
      split that `getInitials` starts with. */
  lemma {:induction false} JoinSplitFrom(s: string, current: string)
    ensures Join(SplitFrom(s, current)) == current + s
    decreases |s|
  {
    if s == [] {
    } else if s[0] == ' ' {
      JoinSplitFrom(s[1..], "");
      var rest := SplitFrom(s[1..], "");
      assert ([current] + rest)[1..] == rest;
      assert current + s == current + " " + s[1..];
    } else {
      JoinSplitFrom(s[1..], current + [s[0]]);
      assert current + s == current + [s[0]] + s[1..];
    }
  }

  lemma JoinSplit(s: string)
    ensures Join(Split(s)) == s
  {
    JoinSplitFrom(s, "");
  }

  // ---------------------------------------------------------------------------
  // Summary cards and the student table

  function UsersWithRole(users: seq<User>, role: string): seq<User> {
    Filter(users, (u: User) => u.role == role)
  }

  /** `users.filter((user) => user.role === role).length` */
  function RoleCount(users: seq<User>, role: string): nat {
    |UsersWithRole(users, role)|
  }

  function AdminCount(users: seq<User>): (n: nat)
    ensures n <= |users|
  {
    RoleCount(users, "admin")
  }

  function StudentCount(users: seq<User>): (n: nat)
    ensures n <= |users|
  {
    RoleCount(users, "student")
  }

  function RegularUserCount(users: seq<User>): (n: nat)
    ensures n <= |users|
  {
    RoleCount(users, "user")
  }

  /** Each count is the number of users whose role is exactly that string. */
  lemma RoleCountIsExact(users: seq<User>, role: string)
    ensures RoleCount(users, role) == |set i: nat | i < |users| && users[i].role == role|
  {
    var p := (u: User) => u.role == role;
    FilterLengthCountsPositions(users, p);
    assert Positions(users, p) == set i: nat | i < |users| && users[i].role == role;
  }

  /** The three roles exclude each other, so the three cards never add up to more than the
      "Total Users" card. */
  lemma RoleCountsBounded(users: seq<User>)
    ensures AdminCount(users) + StudentCount(users) + RegularUserCount(users) <= |users|
  {
    ExclusiveFiltersBounded(users, (u: User) => u.role == "admin", (u: User) => u.role == "student",
                            (u: User) => u.role == "user");
  }

  /** The rows of the student table: `users.filter((user) => user.userType === "student")`. */
  function StudentRows(users: seq<User>): (rows: seq<User>)
    ensures forall u :: u in rows ==> u in users && u.userType == "student"
    ensures forall u :: u in users && u.userType == "student" ==> u in rows
  {
    StudentRowsComplete(users);
    Filter(users, (u: User) => u.userType == "student")
  }

  lemma {:induction false} StudentRowsComplete(users: seq<User>)
    ensures forall u :: u in users && u.userType == "student" ==>
              u in Filter(users, (u: User) => u.userType == "student")
    decreases |users|
  {
    if users != [] {
      var init := users[..|users| - 1];
      StudentRowsComplete(init);
      assert users == init + [users[|users| - 1]];
    }
  }

  /** Changing one user's role never changes how many rows the student table has. */
  lemma StudentTableIgnoresRole(users: seq<User>, i: nat, role: string)
    requires i < |users|
    ensures |StudentRows(users[i := users[i].(role := role)])| == |StudentRows(users)|
  {
    var changed := users[i := users[i].(role := role)];
    var p := (u: User) => u.userType == "student";
    FilterLengthCountsPositions(users, p);
    FilterLengthCountsPositions(changed, p);
    assert Positions(changed, p) == Positions(users, p);
  }

  /** Changing one user's userType never changes the "Students" count. */
  lemma StudentCountIgnoresUserType(users: seq<User>, i: nat, userType: string)
    requires i < |users|
    ensures StudentCount(users[i := users[i].(userType := userType)]) == StudentCount(users)
  {
    var changed := users[i := users[i].(userType := userType)];
    RoleCountIsExact(users, "student");
    RoleCountIsExact(changed, "student");
    assert (set j: nat | j < |changed| && changed[j].role == "student")
        == (set j: nat | j < |users| && users[j].role == "student");
  }

  /** The student table selects by `userType` while the "Students" card counts by `role`:
      the two can disagree. */
  lemma StudentTableIndependentOfStudentCount()
    ensures var users := [User(Some("Ana Lima"), "ana@example.com", "user", "student")];
            |StudentRows(users)| == 1 && StudentCount(users) == 0
  {
    var users := [User(Some("Ana Lima"), "ana@example.com", "user", "student")];
    assert users[..0] == [];
  }
}
