/**
 * admin_tools.py: approving a user and showing a user's API key in the users
 * file, and the command line that chooses between them.
 */
module AdminTools {
  import opened Wrappers
  import opened Users

  /** Whether a record is the one named `username`. */
  predicate Named(u: User, username: string) {
    u.username == username
  }

  /** The users list after `approve_user`: the first record with that name is approved. */
  function Approve(users: seq<User>, username: string): (r: seq<User>)
    ensures |r| == |users|
  {
    match FirstWhere(users, u => Named(u, username))
    case None => users
    case Some(i) => users[i := users[i].(approved := true)]
  }

  /**
   * Approving touches only the first record with the name, and only its
   * `approved` field; an unknown name leaves the list as it is.
   */
  lemma ApproveSpec(users: seq<User>, username: string)
    ensures var r := Approve(users, username);
      && (forall j :: 0 <= j < |users| && users[j].username != username ==> r[j] == users[j])
      && (forall j :: 0 <= j < |users| && users[j].username == username ==>
            (exists i :: 0 <= i <= j && r[i] == users[i].(approved := true)
              && users[i].username == username && (forall k :: 0 <= k < |users| && k != i ==> r[k] == users[k])))
      && ((forall u <- users :: u.username != username) ==> r == users)
  {
    var p := u => Named(u, username);
    FirstWhereSpec(users, p);
    if FirstWhere(users, p).None? {
      assert forall u <- users :: !p(u);
    }
  }

  /** Approving the same name twice is the same as approving it once. */
  lemma ApproveIdempotent(users: seq<User>, username: string)
    ensures Approve(Approve(users, username), username) == Approve(users, username)
  {
    var p := u => Named(u, username);
    var once := Approve(users, username);
    FirstWhereSpec(users, p);
    FirstWhereSpec(once, p);
    match FirstWhere(users, p)
    case None =>
    case Some(i) =>
      assert forall k :: 0 <= k < |users| ==> once[k].username == users[k].username;
      assert FirstWhere(once, p) == Some(i) by {
        assert p(once[i]);
        assert forall k :: 0 <= k < i ==> !p(once[k]);
      }
  }

  function Approved(username: string): string {
    "\U{2705} Uživatel '" + username + "' byl schválen."
  }

  function NotFound(username: string): string {
    "\U{274C} Uživatel '" + username + "' nenalezen."
  }

  /**
   * `approve_user`: the first record with the name is marked approved and the
   * list saved; an unknown name saves nothing. The answer is the printed line.
   */
  method ApproveUser(db: UsersDb, username: string) returns (message: string)
    modifies db
    ensures db.users == Approve(old(db.users), username)
    ensures (exists u <- old(db.users) :: u.username == username) ==>
      db.saves == old(db.saves) + 1 && message == Approved(username)
    ensures (forall u <- old(db.users) :: u.username != username) ==>
      db.saves == old(db.saves) && message == NotFound(username)
  {
    var users := db.users;
    ghost var p := u => Named(u, username);
    FirstWhereSpec(users, p);
    for i := 0 to |users|
      invariant forall k :: 0 <= k < i ==> users[k].username != username
      invariant db.users == users && db.saves == old(db.saves)
    {
      if users[i].username == username {
        assert FirstWhere(users, p) == Some(i);
        users := users[i := users[i].(approved := true)];
        db.users := users;
        db.saves := db.saves + 1;
        return Approved(username);
      }
    }
    assert forall u <- users :: u.username != username;
    return NotFound(username);
  }

  /** `user['api_key']` of a record that has no key raises `KeyError`. */
  const MissingKeyError: string := "KeyError: 'api_key'"

  function KeyLine(username: string, key: string): string {
    "\U{1F511} API klíč pro " + username + ": " + key
  }

  /** What `show_apikey` prints, or the error it raises. */
  function ShowOutcome(users: seq<User>, username: string): Result<string, string> {
    match FirstWhere(users, u => Named(u, username))
    case None => Ok(NotFound(username))
    case Some(i) =>
      match users[i].apiKey
      case None => Err(MissingKeyError)
      case Some(k) => Ok(KeyLine(username, k))
  }

  /**
   * The key shown is that of the first record with the name; a first record
   * without a key raises; nobody with the name prints "not found".
   */
  lemma ShowOutcomeSpec(users: seq<User>, username: string)
    ensures var r := ShowOutcome(users, username);
      && ((forall u <- users :: u.username != username) <==> r == Ok(NotFound(username)))
      && (forall i :: (0 <= i < |users| && users[i].username == username
            && (forall k :: 0 <= k < i ==> users[k].username != username)) ==>
              r == (if users[i].apiKey.Some? then Ok(KeyLine(username, users[i].apiKey.value)) else Err(MissingKeyError)))
  {
    var p := u => Named(u, username);
    FirstWhereSpec(users, p);
    if FirstWhere(users, p).None? {
      assert forall u <- users :: !p(u);
    } else {
      var i := FirstWhere(users, p).value;
      assert users[i] in users;
      assert ShowOutcome(users, username) != Ok(NotFound(username)) by {
        if users[i].apiKey.Some? {
          assert KeyLine(username, users[i].apiKey.value)[0] != NotFound(username)[0];
        }
      }
      forall j | 0 <= j < |users| && users[j].username == username
          && (forall k :: 0 <= k < j ==> users[k].username != username)
        ensures j == i
      {
      }
    }
  }

  /** `show_apikey`: the loop over the records, stopping at the first with the name. */
  method ShowApiKey(db: UsersDb, username: string) returns (r: Result<string, string>)
    ensures r == ShowOutcome(db.users, username)
  {
    var users := db.users;
    ghost var p := u => Named(u, username);
    FirstWhereSpec(users, p);
    for i := 0 to |users|
      invariant forall k :: 0 <= k < i ==> users[k].username != username
    {
      if users[i].username == username {
        assert FirstWhere(users, p) == Some(i);
        match users[i].apiKey
        case None =>
          return Err(MissingKeyError);
        case Some(k) =>
          return Ok(KeyLine(username, k));
      }
    }
    assert FirstWhere(users, p).None?;
    return Ok(NotFound(username));
  }

  /** What the command line asks for. */
  datatype Command = Usage | List | ApproveCmd(name: string) | ShowCmd(name: string) | Invalid

  /**
   * The `__main__` dispatch on `sys.argv`: fewer than two words is the usage
   * message, `list` lists whatever follows, `approve` and `show` need exactly
   * one name, and anything else is an invalid command.
   */
  function ParseCommand(argv: seq<string>): (c: Command)
    ensures |argv| < 2 <==> c == Usage
  {
    if |argv| < 2 then Usage
    else if argv[1] == "list" then List
    else if argv[1] == "approve" && |argv| == 3 then ApproveCmd(argv[2])
    else if argv[1] == "show" && |argv| == 3 then ShowCmd(argv[2])
    else Invalid
  }

  /** `approve` and `show` run exactly when given one name; other shapes are invalid. */
  lemma ParseCommandSpec(argv: seq<string>)
    requires |argv| >= 2
    ensures var c := ParseCommand(argv);
      && (c.ApproveCmd? <==> argv[1] == "approve" && |argv| == 3)
      && (c.ShowCmd? <==> argv[1] == "show" && |argv| == 3)
      && (c.ApproveCmd? || c.ShowCmd? ==> c.name == argv[2])
      && (c == List <==> argv[1] == "list")
      && (c == Invalid <==> argv[1] != "list" && (|argv| != 3 || (argv[1] != "approve" && argv[1] != "show")))
  {
  }
}
