/**
 * The request-handling decisions of main.py: reading the users file, turning an
 * `Authorization` header into a token, finding the approved user that owns it,
 * the `top_k` clamps of the search endpoints and the branching of `/crawl`.
 */
module Api {
  import opened Wrappers
  import opened Strings
  import opened Users

  /** `_load_users`: any failure to read or parse the file gives no users. */
  function LoadUsers(file: UsersFile): (r: seq<User>)
    ensures file.Parsed? ==> r == file.users
    ensures !file.Parsed? ==> r == []
  {
    match file
    case Parsed(us) => us
    case _ => []
  }

  /** Whether `u` may use `token`: it is the user's key and the user is approved. */
  predicate OwnsApproved(u: User, token: string) {
    HasKey(u, token) && u.approved
  }

  /**
   * `_find_user_by_token`: the token is stripped; a blank token finds nobody,
   * otherwise the first approved user holding it.
   */
  function FindUserByToken(users: seq<User>, token: string): (r: Option<User>)
    ensures Strip(token) == [] ==> r == None
  {
    var t := Strip(token);
    if t == [] then None
    else match FirstWhere(users, u => OwnsApproved(u, t))
      case None => None
      case Some(i) => Some(users[i])
  }

  /**
   * The user found is approved and holds the stripped token; nobody is found
   * exactly when the token is blank or no approved user holds it.
   */
  lemma FindUserByTokenSpec(users: seq<User>, token: string)
    ensures var r := FindUserByToken(users, token); var t := Strip(token);
      && (r.Some? ==> OwnsApproved(r.value, t) && r.value in users)
      && (r.Some? ==> exists i :: 0 <= i < |users| && users[i] == r.value && forall j :: 0 <= j < i ==> !OwnsApproved(users[j], t))
      && (r.None? <==> t == [] || forall u <- users :: !OwnsApproved(u, t))
  {
    var t := Strip(token);
    var p := u => OwnsApproved(u, t);
    FirstWhereSpec(users, p);
    if t != [] && FirstWhere(users, p).None? {
      forall u <- users
        ensures !OwnsApproved(u, t)
      {
        var j :| 0 <= j < |users| && users[j] == u;
        assert !p(users[j]);
      }
    }
  }

  const BearerPrefix: string := "bearer "

  /**
   * `_auth_headers_to_token`: no header or an empty one gives no token; a
   * stripped header that starts with "bearer " in any letter case gives what
   * follows its first space, stripped; any other header is the token as it stands.
   */
  function AuthHeaderToToken(auth: Option<string>): (r: Option<string>)
    ensures auth.None? || auth.value == [] ==> r.None?
    ensures auth.Some? && auth.value != [] ==> r.Some?
  {
    if auth.None? || auth.value == [] then None
    else
      var a := Strip(auth.value);
      if StartsWith(Lower(a), BearerPrefix) then
        var parts := SplitFirst(a, ' ');
        Some(if |parts| == 2 then Strip(parts[1]) else [])
      else Some(a)
  }

  /**
   * The first space of a stripped header that starts with "bearer " is the one
   * after the word, so the token is everything after the seventh character,
   * stripped.
   */
  lemma BearerToken(auth: string)
    requires auth != [] && StartsWith(Lower(Strip(auth)), BearerPrefix)
    ensures AuthHeaderToToken(Some(auth)) == Some(Strip(Strip(auth)[7..]))
  {
    var a := Strip(auth);
    var l := Lower(a);
    assert l[..7] == BearerPrefix;
    forall k | 0 <= k < 6
      ensures a[k] != ' '
    {
      assert l[k] == BearerPrefix[k];
      LowerCharSpace(a[k]);
    }
    assert l[6] == ' ';
    LowerCharSpace(a[6]);
    assert IndexOf(a, ' ') == Some(6);
  }

  /** A header that does not start with the bearer word is taken whole, stripped. */
  lemma PlainToken(auth: string)
    requires auth != [] && !StartsWith(Lower(Strip(auth)), BearerPrefix)
    ensures AuthHeaderToToken(Some(auth)) == Some(Strip(auth))
  {
  }

  const InvalidToken: string := "Neplatný token"

  /** `current_user`: the user the header's token finds, or a 401. */
  function CurrentUser(users: UsersFile, authorization: Option<string>): (r: Result<User, HttpError>)
    ensures r.Err? ==> r.error == HttpError(401, InvalidToken)
  {
    var token := AuthHeaderToToken(authorization);
    match FindUserByToken(LoadUsers(users), token.GetOr([]))
    case None => Err(HttpError(401, InvalidToken))
    case Some(u) => Ok(u)
  }

  /**
   * A request is let through exactly when the file lists an approved user that
   * holds the header's token, and then as such a user.
   */
  lemma CurrentUserSpec(users: UsersFile, authorization: Option<string>)
    ensures var r := CurrentUser(users, authorization);
      var t := Strip(AuthHeaderToToken(authorization).GetOr([]));
      && (r.Ok? ==> OwnsApproved(r.value, t) && r.value in LoadUsers(users))
      && (r.Err? <==> t == [] || forall u <- LoadUsers(users) :: !OwnsApproved(u, t))
  {
    FindUserByTokenSpec(LoadUsers(users), AuthHeaderToToken(authorization).GetOr([]));
  }

  /** `max(1, min(hi, k))`. */
  function ClampTopK(k: int, hi: int): (r: int)
    requires 1 <= hi
    ensures 1 <= r <= hi
    ensures 1 <= k <= hi ==> r == k
    ensures k < 1 ==> r == 1
    ensures hi < k ==> r == hi
  {
    var m := if hi < k then hi else k;
    if 1 < m then m else 1
  }

  /** The `top_k` `/knowledge/search` passes to the store. */
  function SearchTopK(k: int): (r: int)
    ensures 1 <= r <= 20 && (1 <= k <= 20 ==> r == k)
  {
    ClampTopK(k, 20)
  }

  /** The `top_k` `/get_context` passes to the store. */
  function ContextTopK(k: int): (r: int)
    ensures 1 <= r <= 10 && (1 <= k <= 10 ==> r == k)
  {
    ClampTopK(k, 10)
  }

  /** The body of a `/crawl` request. */
  datatype CrawlReq = CrawlReq(url: Option<string>, rawText: Option<string>, title: Option<string>, tags: Option<seq<string>>)

  /** What `/crawl` asks of the store. */
  datatype CrawlAction = AddNote(title: string, text: string, tags: seq<string>) | AddUrl(url: string)

  const NoteTitle: string := "Interní poznámka"
  /** Tags a note gets when the request names none. */
  const NoteTags: seq<string> := ["note"]
  const MissingInput: string := "Missing URL or raw_text"
  const CrawlFailed: string := "Failed to crawl"

  /** Python truth value of an optional string: present and non-empty. */
  predicate Given(s: Option<string>) {
    s.Some? && s.value != []
  }

  /**
   * `crawl`'s branching: a non-empty raw text is added as a note (default title
   * and tags when missing or empty), else a non-empty URL is fetched, else 400.
   */
  function CrawlDecision(req: CrawlReq): (r: Result<CrawlAction, HttpError>)
    ensures r.Err? <==> !Given(req.rawText) && !Given(req.url)
  {
    if Given(req.rawText) then
      var title := if Given(req.title) then req.title.value else NoteTitle;
      var tags := if req.tags.Some? && req.tags.value != [] then req.tags.value else NoteTags;
      Ok(AddNote(title, req.rawText.value, tags))
    else if Given(req.url) then Ok(AddUrl(req.url.value))
    else Err(HttpError(400, MissingInput))
  }

  /**
   * Raw text wins over a URL; a note keeps a given title and given tags and
   * otherwise gets the defaults, so it always has a non-empty title and at
   * least one tag; a URL request fetches the given URL; nothing given is a 400.
   */
  lemma CrawlDecisionSpec(req: CrawlReq)
    ensures var r := CrawlDecision(req);
      && (Given(req.rawText) ==>
            (r.Ok? && r.value.AddNote? && r.value.text == req.rawText.value && r.value.title != [] && r.value.tags != []))
      && (Given(req.rawText) && Given(req.title) ==> r.value.title == req.title.value)
      && (Given(req.rawText) && !Given(req.title) ==> r.value.title == NoteTitle)
      && (Given(req.rawText) && req.tags.Some? && req.tags.value != [] ==> r.value.tags == req.tags.value)
      && (Given(req.rawText) && (req.tags.None? || req.tags.value == []) ==> r.value.tags == NoteTags)
      && (!Given(req.rawText) && Given(req.url) ==> r == Ok(AddUrl(req.url.value)))
      && (r.Err? ==> r.error == HttpError(400, MissingInput))
  {
  }

  /** The answer of `/crawl` once the store has been asked: a failed URL ingest is a 400. */
  function CrawlOutcome(ingest: Result<(string, nat), string>): (r: Result<(string, nat), HttpError>)
    ensures r.Err? <==> ingest.Err?
    ensures r.Err? ==> r.error.status == 400
  {
    match ingest
    case Ok(v) => Ok(v)
    case Err(_) => Err(HttpError(400, CrawlFailed))
  }
}
