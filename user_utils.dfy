/** `get_user_from_token` of scripts/user_utils.py. */
module UserUtils {
  import opened Wrappers
  import opened Strings
  import opened Users

  const BearerWord: string := "Bearer "
  const MissingKey: string := "Chybí API klíč"
  const NotApproved: string := "Účet nebyl schválen"
  const UnknownKey: string := "Neplatný API klíč"

  /** `auth.split(" ")[1]`: the field after the first space. */
  function SecondField(auth: string): (r: string)
    requires StartsWith(auth, BearerWord)
  {
    var fields := SplitOn(auth, ' ');
    if |fields| < 2 then [] else fields[1]
  }

  /**
   * The token of a "Bearer " header is what follows the seventh character up to
   * the next space: it holds no space and is followed by a space or the end.
   */
  lemma SecondFieldSpec(auth: string)
    requires StartsWith(auth, BearerWord)
    ensures var t := SecondField(auth);
      && 7 + |t| <= |auth| && auth[7..7 + |t|] == t
      && (forall k :: 0 <= k < |t| ==> t[k] != ' ')
      && (7 + |t| < |auth| ==> auth[7 + |t|] == ' ')
  {
    assert auth[..7] == BearerWord;
    forall k | 0 <= k < 6
      ensures auth[k] != ' '
    {
      assert auth[k] == BearerWord[k];
    }
    assert auth[6] == BearerWord[6];
    IndexOfFirst(auth, ' ', 6);
    var rest := auth[7..];
    assert SplitOn(auth, ' ') == [auth[..6]] + SplitOn(rest, ' ');
    match IndexOf(rest, ' ')
    case None =>
      assert SplitOn(rest, ' ') == [rest];
    case Some(p) =>
      assert SplitOn(rest, ' ')[0] == rest[..p];
  }

  /**
   * `get_user_from_token`: a header that does not start with "Bearer " is a 401;
   * the first user holding the token decides: not approved is a 403, approved is
   * the answer; nobody holding it is a 403.
   */
  function GetUserFromToken(authorization: Option<string>, users: seq<User>): (r: Result<User, HttpError>)
    ensures r.Err? ==> r.error.status in {401, 403}
  {
    var auth := authorization.GetOr([]);
    if !StartsWith(auth, BearerWord) then Err(HttpError(401, MissingKey))
    else
      var token := SecondField(auth);
      match FirstWhere(users, u => HasKey(u, token))
      case None => Err(HttpError(403, UnknownKey))
      case Some(i) =>
        if !users[i].approved then Err(HttpError(403, NotApproved)) else Ok(users[i])
  }

  /**
   * The answer is an approved user holding the header's token with nobody before
   * it holding the same token; a 403 "not approved" means the first holder is
   * unapproved, and an unknown-key 403 means nobody holds it.
   */
  lemma GetUserFromTokenSpec(authorization: Option<string>, users: seq<User>)
    ensures var r := GetUserFromToken(authorization, users);
      var auth := authorization.GetOr([]);
      && (r == Err(HttpError(401, MissingKey)) <==> !StartsWith(auth, BearerWord))
      && (r.Ok? ==> r.value.approved && exists i :: (0 <= i < |users| && users[i] == r.value
            && HasKey(r.value, SecondField(auth)) && forall j :: 0 <= j < i ==> !HasKey(users[j], SecondField(auth))))
      && (r == Err(HttpError(403, NotApproved)) <==>
            (StartsWith(auth, BearerWord) &&
              exists i :: (0 <= i < |users| && HasKey(users[i], SecondField(auth)) && !users[i].approved
                && forall j :: 0 <= j < i ==> !HasKey(users[j], SecondField(auth)))))
      && (r == Err(HttpError(403, UnknownKey)) <==>
            StartsWith(auth, BearerWord) && forall u <- users :: !HasKey(u, SecondField(auth)))
  {
    var auth := authorization.GetOr([]);
    if StartsWith(auth, BearerWord) {
      var token := SecondField(auth);
      var p := u => HasKey(u, token);
      FirstWhereSpec(users, p);
      if FirstWhere(users, p).None? {
        forall u <- users
          ensures !HasKey(u, token)
        {
          var j :| 0 <= j < |users| && users[j] == u;
          assert !p(users[j]);
        }
      } else {
        var i := FirstWhere(users, p).value;
        assert HasKey(users[i], token);
      }
    }
  }
}
