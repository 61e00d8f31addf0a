/**
 * scripts/create_user.py: adding one account to the users file after checking
 * the password confirmation and that the name is free.
 */
module CreateUser {
  import opened Wrappers
  import opened Strings
  import opened Users

  /** The command-line options: `--username`, `--email` and `--approve`. */
  datatype CreateArgs = CreateArgs(username: Option<string>, email: Option<string>, approve: bool)

  /** What was typed at the prompts (each prompt is used only when its option is missing or empty). */
  datatype Typed = Typed(username: string, email: string, password: string, confirm: string)

  const Mismatch: string := "Passwords do not match"
  const Exists: string := "User already exists"

  /** `args.x or input(...).strip()`: the option when it is non-empty, else the stripped answer. */
  function OrTyped(option: Option<string>, typed: string): (r: string)
    ensures option.Some? && option.value != [] ==> r == option.value
    ensures (option.None? || option.value == []) ==> r == Strip(typed)
  {
    if option.Some? && option.value != [] then option.value else Strip(typed)
  }

  /** Whether some record already carries `username`. */
  predicate Taken(users: seq<User>, username: string) {
    exists u <- users :: u.username == username
  }

  /** The record the script writes. */
  function NewRecord(args: CreateArgs, typed: Typed, hash: string -> string, apiKey: string, createdAt: string): User {
    User(OrTyped(args.username, typed.username), Some(OrTyped(args.email, typed.email)), Some(apiKey),
      args.approve, Some(hash(typed.password)), Some(createdAt))
  }

  /**
   * The users list `main` leaves behind, or the message it exits with: a
   * confirmation that differs, then a name already in use, abort; otherwise the
   * new record is appended.
   */
  function CreateOutcome(users: seq<User>, args: CreateArgs, typed: Typed, hash: string -> string,
    apiKey: string, createdAt: string): (r: Result<seq<User>, string>)
    ensures r.Err? ==> r.error in {Mismatch, Exists}
  {
    if typed.password != typed.confirm then Err(Mismatch)
    else if Taken(users, OrTyped(args.username, typed.username)) then Err(Exists)
    else Ok(users + [NewRecord(args, typed, hash, apiKey, createdAt)])
  }

  /** Whether no two records share a username. */
  predicate UniqueNames(users: seq<User>) {
    forall i, j :: 0 <= i < j < |users| ==> users[i].username != users[j].username
  }

  /**
   * A mismatched confirmation aborts whatever the list holds; otherwise a taken
   * name aborts; otherwise exactly one record is added at the end, carrying the
   * name, email, approval flag and password hash asked for, and the earlier
   * records are kept. Usernames that were distinct stay distinct.
   */
  lemma CreateOutcomeSpec(users: seq<User>, args: CreateArgs, typed: Typed, hash: string -> string,
    apiKey: string, createdAt: string)
    ensures var r := CreateOutcome(users, args, typed, hash, apiKey, createdAt);
      var name := OrTyped(args.username, typed.username);
      && (r == Err(Mismatch) <==> typed.password != typed.confirm)
      && (r == Err(Exists) <==> typed.password == typed.confirm && Taken(users, name))
      && (r.Ok? ==>
            (|r.value| == |users| + 1 && r.value[..|users|] == users
              && r.value[|users|].username == name
              && r.value[|users|].email == Some(OrTyped(args.email, typed.email))
              && r.value[|users|].approved == args.approve
              && r.value[|users|].passwordHash == Some(hash(typed.password))))
      && (r.Ok? && UniqueNames(users) ==> UniqueNames(r.value))
  {
    var r := CreateOutcome(users, args, typed, hash, apiKey, createdAt);
    if r.Ok? {
      assert r.value[..|users|] == users;
      if UniqueNames(users) {
        forall i, j | 0 <= i < j < |r.value|
          ensures r.value[i].username != r.value[j].username
        {
          if j == |users| {
            assert users[i] in users;
          }
        }
      }
    }
  }

  /**
   * `main` after argument parsing: the users are loaded only once the
   * confirmation matches; a new record is appended and saved once; an abort
   * leaves the file untouched. The answer is the first printed line, or the
   * exit message.
   */
  method Create(db: UsersDb, args: CreateArgs, typed: Typed, hash: string -> string, apiKey: string, createdAt: string)
    returns (r: Result<string, string>)
    modifies db
    ensures var outcome := CreateOutcome(old(db.users), args, typed, hash, apiKey, createdAt);
      && (outcome.Ok? ==> db.users == outcome.value && db.saves == old(db.saves) + 1)
      && (outcome.Err? ==> db.users == old(db.users) && db.saves == old(db.saves) && r == Err(outcome.error))
      && (r.Ok? <==> outcome.Ok?)
      && (r.Ok? ==> r.value == "User '" + OrTyped(args.username, typed.username) + "' created. API key: " + apiKey)
  {
    var username := OrTyped(args.username, typed.username);
    var email := OrTyped(args.email, typed.email);
    if typed.password != typed.confirm {
      return Err(Mismatch);
    }
    var users := db.users;
    if exists u <- users :: u.username == username {
      return Err(Exists);
    }
    var user := User(username, Some(email), Some(apiKey), args.approve, Some(hash(typed.password)), Some(createdAt));
    users := users + [user];
    db.users := users;
    db.saves := db.saves + 1;
    r := Ok("User '" + username + "' created. API key: " + apiKey);
  }
}
