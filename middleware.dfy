/**
 * middleware.py: the API key is read from the `Authorization` header or the
 * `api_key` query parameter, looked up in a lazily built index from keys to user
 * records, and the request is let through, or refused with 401 or 403.
 */
module Middleware {
  import opened Wrappers
  import opened Strings
  import opened Users

  /** The `api_key` of a record, when it is truthy (present and non-empty). */
  function KeyOf(u: User): Option<string> {
    if u.apiKey.Some? && u.apiKey.value != [] then u.apiKey else None
  }

  /** The index the loop of `_load_users_index` builds: each key to the last record holding it. */
  function KeyIndex(items: seq<User>): (idx: map<string, User>)
    decreases |items|
  {
    if items == [] then map[]
    else
      var idx := KeyIndex(items[..|items| - 1]);
      var u := items[|items| - 1];
      match KeyOf(u)
      case None => idx
      case Some(k) => idx[k := u]
  }

  /**
   * A key is in the index exactly when some record holds it, and it maps to the
   * last such record: later duplicates overwrite earlier ones.
   */
  lemma {:induction false} KeyIndexSpec(items: seq<User>, k: string)
    ensures var idx := KeyIndex(items);
      && (k in idx <==> exists i :: 0 <= i < |items| && KeyOf(items[i]) == Some(k))
      && (k in idx ==> exists i :: (0 <= i < |items| && items[i] == idx[k] && KeyOf(items[i]) == Some(k)
            && forall j :: i < j < |items| ==> KeyOf(items[j]) != Some(k)))
    decreases |items|
  {
    if items != [] {
      var init := items[..|items| - 1];
      var last := |items| - 1;
      KeyIndexSpec(init, k);
      assert forall i :: 0 <= i < last ==> items[i] == init[i];
      if KeyOf(items[last]) != Some(k) && k in KeyIndex(items) {
        var i :| 0 <= i < |init| && init[i] == KeyIndex(init)[k] && KeyOf(init[i]) == Some(k)
          && forall j :: i < j < |init| ==> KeyOf(init[j]) != Some(k);
        assert items[i] == init[i];
      }
    }
  }

  /** The index a users file gives: a missing file or malformed JSON gives an empty one. */
  function FileIndex(file: UsersFile): (idx: map<string, User>)
    ensures !file.Parsed? ==> idx == map[]
  {
    match file
    case Parsed(items) => KeyIndex(items)
    case _ => map[]
  }

  /** The loop of `_load_users_index` over the parsed list. */
  method BuildIndex(items: seq<User>) returns (idx: map<string, User>)
    ensures idx == KeyIndex(items)
  {
    idx := map[];
    var i := 0;
    while i < |items|
      invariant 0 <= i <= |items|
      invariant idx == KeyIndex(items[..i])
    {
      assert items[..i + 1][..i] == items[..i];
      var item := items[i];
      if item.apiKey.Some? && item.apiKey.value != [] {
        idx := idx[item.apiKey.value := item];
      }
      i := i + 1;
    }
    assert items[..|items|] == items;
  }

  /** The whitespace-separated parts of a header: maximal runs of non-space characters. */
  function HeaderParts(authorization: Option<string>): seq<string> {
    if authorization.Some? && authorization.value != [] then Runs(authorization.value, c => !IsSpace(c)) else []
  }

  /**
   * `_extract_api_key`: a truthy `Authorization` header split on whitespace gives
   * the second part of `bearer <key>` (the word in any case) or its only part;
   * otherwise a truthy `api_key` query parameter; otherwise nothing.
   */
  function ExtractApiKey(authorization: Option<string>, queryKey: Option<string>): (r: Option<string>)
    ensures r.Some? ==> r.value != []
  {
    var parts := HeaderParts(authorization);
    if |parts| == 2 && Lower(parts[0]) == "bearer" then Some(parts[1])
    else if |parts| == 1 then Some(parts[0])
    else if queryKey.Some? && queryKey.value != [] then queryKey
    else None
  }

  /**
   * The header decides when it is `bearer <key>` or a single word; any other shape
   * (no header, blank, three words, two words not led by "bearer") leaves the
   * decision to the query parameter.
   */
  lemma ExtractApiKeySpec(authorization: Option<string>, queryKey: Option<string>)
    ensures var parts := HeaderParts(authorization); var r := ExtractApiKey(authorization, queryKey);
      && (|parts| == 2 && Lower(parts[0]) == "bearer" ==> r == Some(parts[1]))
      && (|parts| == 1 ==> r == Some(parts[0]))
      && (!(|parts| == 2 && Lower(parts[0]) == "bearer") && |parts| != 1 ==>
            r == (if queryKey.Some? && queryKey.value != [] then queryKey else None))
      && (forall k :: 0 <= k < |parts| ==> parts[k] != [] && forall c <- parts[k] :: !IsSpace(c))
  {
    var parts := HeaderParts(authorization);
    forall k | 0 <= k < |parts|
      ensures parts[k] != [] && forall c <- parts[k] :: !IsSpace(c)
    {
      forall c <- parts[k]
        ensures !IsSpace(c)
      {
        var m :| 0 <= m < |parts[k]| && parts[k][m] == c;
      }
    }
  }

  /** A header of one word is that word, whatever the query parameter says. */
  lemma SingleWordHeader(w: string, queryKey: Option<string>)
    requires w != [] && forall c <- w :: !IsSpace(c)
    ensures ExtractApiKey(Some(w), queryKey) == Some(w)
  {
    RunsOfRun(w, c => !IsSpace(c));
  }

  /** Paths let through without a key. */
  const Allowlist: set<string> := {"/docs", "/redoc", "/openapi.json", "/favicon.ico"}

  const NoKey: string := "Chybí API klíč"
  const BadKey: string := "Neplatný API klíč"

  /** What `dispatch` does with a request. */
  datatype Decision = Forward(user: Option<User>) | Refuse(error: HttpError)

  /** The decision for a request on `path` carrying `token`, against the key index. */
  function Decide(path: string, token: Option<string>, index: map<string, User>): (d: Decision)
    ensures path in Allowlist ==> d == Forward(None)
    ensures path !in Allowlist && token.None? ==> d == Refuse(HttpError(401, NoKey))
  {
    if path in Allowlist then Forward(None)
    else if token.None? || token.value == [] then Refuse(HttpError(401, NoKey))
    else if token.value !in index || !index[token.value].approved then Refuse(HttpError(403, BadKey))
    else Forward(Some(index[token.value]))
  }

  /**
   * Outside the allowlist a request goes through only as an approved user whose
   * record holds the key; a key nobody holds or an unapproved holder is a 403.
   */
  lemma DecideSpec(path: string, token: Option<string>, items: seq<User>)
    requires path !in Allowlist && token.Some? && token.value != []
    ensures var d := Decide(path, token, KeyIndex(items));
      && (d.Forward? ==> d.user.Some? && d.user.value.approved && KeyOf(d.user.value) == token && d.user.value in items)
      && (d == Refuse(HttpError(403, BadKey)) <==>
            (forall u <- items :: KeyOf(u) != token)
              || (token.value in KeyIndex(items) && !KeyIndex(items)[token.value].approved))
  {
    KeyIndexSpec(items, token.value);
    var idx := KeyIndex(items);
    if token.value !in idx {
      forall u <- items
        ensures KeyOf(u) != token
      {
        var i :| 0 <= i < |items| && items[i] == u;
      }
    }
  }

  /** The module state of middleware.py: the `_api_key_index` cache. */
  class KeyCache {
    var cache: Option<map<string, User>>

    constructor ()
      ensures cache == None
    {
      cache := None;
    }

    /**
     * `_load_users_index`: the cached index when there is one; otherwise the
     * index of `file` (what the users file holds at this call), which is cached.
     */
    method LoadUsersIndex(file: UsersFile) returns (idx: map<string, User>)
      modifies this
      ensures old(cache).Some? ==> idx == old(cache).value && cache == old(cache)
      ensures old(cache).None? ==> idx == FileIndex(file) && cache == Some(idx)
    {
      if cache.Some? {
        return cache.value;
      }
      if file.Parsed? {
        idx := BuildIndex(file.users);
      } else {
        idx := map[];
      }
      cache := Some(idx);
    }

    /**
     * `APIKeyMiddleware.dispatch`: allowlisted paths and requests without a key
     * are decided before the index is loaded; the others against the index.
     */
    method Dispatch(path: string, authorization: Option<string>, queryKey: Option<string>, file: UsersFile)
      returns (d: Decision)
      modifies this
      ensures var token := ExtractApiKey(authorization, queryKey);
        var loads := path !in Allowlist && token.Some?;
        && cache == (if loads && old(cache).None? then Some(FileIndex(file)) else old(cache))
        && d == Decide(path, token, if loads then cache.value else map[])
    {
      if path in Allowlist {
        return Forward(None);
      }
      var token := ExtractApiKey(authorization, queryKey);
      if token.None? || token.value == [] {
        return Refuse(HttpError(401, NoKey));
      }
      var users := LoadUsersIndex(file);
      if token.value !in users || !users[token.value].approved {
        return Refuse(HttpError(403, BadKey));
      }
      d := Forward(Some(users[token.value]));
    }
  }
}
