/**
 * The user record of data/users.json, shared by main.py, middleware.py,
 * scripts/user_utils.py, admin_tools.py and scripts/create_user.py.
 */
module Users {
  import opened Wrappers

  /**
   * One element of the users list. A key missing from the JSON object reads as
   * `None` (or, for `approved`, as `false`, which is what `u.get("approved", False)`
   * gives); `approved` stands for the truth value of whatever the file holds.
   * A JSON `null` reads as `None` too, so a missing key and a `null` one are
   * the same record here.
   */
  datatype User = User(
    username: string,
    email: Option<string>,
    apiKey: Option<string>,
    approved: bool,
    passwordHash: Option<string>,
    createdAt: Option<string>)

  /** What reading data/users.json gives: no file, text `json.load` rejects, or the list. */
  datatype UsersFile = Missing | Malformed | Parsed(users: seq<User>)

  /** Whether the user's `api_key` equals `token` (a missing key equals no string). */
  predicate HasKey(u: User, token: string) {
    u.apiKey == Some(token)
  }

  /** The position of the first user that satisfies `p`: the `for user in users: if …: return` loops. */
  function FirstWhere(users: seq<User>, p: User -> bool): (r: Option<nat>)
    ensures r.Some? ==> r.value < |users|
    decreases |users|
  {
    if users == [] then None
    else if p(users[0]) then Some(0)
    else match FirstWhere(users[1..], p)
      case None => None
      case Some(i) => Some(i + 1)
  }

  /**
   * `FirstWhere` finds a user that satisfies `p` with none before it, and `None`
   * means that no user does.
   */
  lemma {:induction false} FirstWhereSpec(users: seq<User>, p: User -> bool)
    ensures var r := FirstWhere(users, p);
      && (r.Some? ==> p(users[r.value]) && forall j :: 0 <= j < r.value ==> !p(users[j]))
      && (r.None? <==> forall j :: 0 <= j < |users| ==> !p(users[j]))
    decreases |users|
  {
    if users != [] && !p(users[0]) {
      FirstWhereSpec(users[1..], p);
      assert forall j :: 1 <= j < |users| ==> users[j] == users[1..][j - 1];
    }
  }

  /** The users file as a mutable list of records that the admin scripts rewrite. */
  class UsersDb {
    var users: seq<User>
    /** How many times the list has been written back to disk. */
    var saves: nat

    constructor (initial: seq<User>)
      ensures users == initial && saves == 0
    {
      users := initial;
      saves := 0;
    }
  }
}
