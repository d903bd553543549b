/** The HTTP side of sessions (src/api.rs): reading the `session_token` cookie, the shared cache of
    valid tokens, and the login, register, me, logout and chat-history handlers.

    A handler's reply is reduced to its status code, its body and its `Set-Cookie` header. The
    database is `UserDb.Database`; whether each statement reaches it is an `up` flag, Argon2
    verification is the oracle `verify(password, hash)`, and the hash stored on registration is
    given, since its salt is random. */
module Api {
  import opened Wrappers
  import opened RustStr
  import opened Db
  import opened JsonValue
  import opened UserDb

  // ---------------------------------------------------------------------------
  // extract_session_token

  const SessionTokenPrefix: string := "session_token="

  /** One `;`-separated piece of a `Cookie` header: trimmed, cut at its first `=`, and its value
      kept when the name is exactly `session_token`. */
  function SessionValue(piece: string): Option<string> {
    match SplitOnce(Trim(piece), '=')
    case None => None
    case Some((name, value)) => if name == "session_token" then Some(value) else None
  }

  /** The value of the first piece that names the session. */
  function FirstSessionValue(pieces: seq<string>): Option<string> {
    if |pieces| == 0 then None
    else if SessionValue(pieces[0]).Some? then SessionValue(pieces[0])
    else FirstSessionValue(pieces[1..])
  }

  /** The session token a `Cookie` header carries, if any. */
  function SessionToken(cookie: string): Option<string> {
    FirstSessionValue(Split(cookie, ';'))
  }

  /** `extract_session_token(cookie_str)`: the loop over `cookie_str.split(';')` that returns at the
      first piece named `session_token`. */
  method ExtractSessionToken(cookie: string) returns (token: Option<string>)
    ensures token == SessionToken(cookie)
  {
    var pieces := Split(cookie, ';');
    var i := 0;
    while i < |pieces|
      invariant 0 <= i <= |pieces|
      invariant FirstSessionValue(pieces) == FirstSessionValue(pieces[i..])
    {
      assert pieces[i..][0] == pieces[i] && pieces[i..][1..] == pieces[i + 1..];
      var parts := SplitOnce(Trim(pieces[i]), '=');
      if parts.Some? && parts.value.0 == "session_token" {
        return Some(parts.value.1);
      }
      i := i + 1;
    }
    token := None;
  }

  /** Whether a piece, once trimmed, starts with `session_token=`. */
  predicate NamesSession(piece: string) {
    SessionTokenPrefix <= Trim(piece)
  }

  /** Whether `pieces[i]` is the first piece that names the session. */
  predicate FirstNaming(pieces: seq<string>, i: int) {
    0 <= i < |pieces| && NamesSession(pieces[i]) && forall k :: 0 <= k < i ==> !NamesSession(pieces[k])
  }

  /** A piece names the session exactly when, once trimmed, it starts with `session_token=`; the
      value is all the rest, further `=` included, and may be empty. A space before the `=` is not
      trimmed away, so `session_token =x` names nothing. */
  lemma SessionValueExactly(piece: string)
    ensures SessionValue(piece) ==
      if NamesSession(piece) then Some(Trim(piece)[|SessionTokenPrefix|..]) else None
  {
    var t := Trim(piece);
    assert '=' !in "session_token";
    if SessionTokenPrefix <= t {
      assert t == "session_token" + ['='] + t[|SessionTokenPrefix|..];
      SplitOnceAt("session_token", '=', t[|SessionTokenPrefix|..]);
    }
  }

  /** Unrolling the search by one piece, in terms of `NamesSession`. */
  lemma FirstSessionValueStep(pieces: seq<string>)
    requires |pieces| > 0
    ensures FirstSessionValue(pieces) ==
      if NamesSession(pieces[0]) then Some(Trim(pieces[0])[|SessionTokenPrefix|..]) else FirstSessionValue(pieces[1..])
  {
    SessionValueExactly(pieces[0]);
  }

  /** The search finds nothing exactly when no piece names the session. */
  lemma {:induction false} FirstSessionValueNone(pieces: seq<string>)
    ensures FirstSessionValue(pieces).None? <==> forall k :: 0 <= k < |pieces| ==> !NamesSession(pieces[k])
    decreases |pieces|
  {
    if |pieces| > 0 {
      var rest := pieces[1..];
      FirstSessionValueStep(pieces);
      FirstSessionValueNone(rest);
      if !NamesSession(pieces[0]) {
        assert forall k :: 0 <= k < |rest| ==> rest[k] == pieces[k + 1];
        assert forall k :: 1 <= k < |pieces| ==> pieces[k] == rest[k - 1];
      }
    }
  }

  /** Otherwise it answers the rest of the FIRST piece that names the session, whatever later
      pieces say. */
  lemma {:induction false} FirstSessionValueFirst(pieces: seq<string>, i: int)
    requires FirstNaming(pieces, i)
    ensures FirstSessionValue(pieces) == Some(Trim(pieces[i])[|SessionTokenPrefix|..])
    decreases i
  {
    FirstSessionValueStep(pieces);
    if i > 0 {
      var rest := pieces[1..];
      assert !NamesSession(pieces[0]);
      assert pieces[i] == rest[i - 1];
      forall k | 0 <= k < i - 1
        ensures !NamesSession(rest[k])
      {
        assert rest[k] == pieces[k + 1];
      }
      assert FirstNaming(rest, i - 1);
      FirstSessionValueFirst(rest, i - 1);
    }
  }

  /** A piece starting with `session_token=` and not ending in whitespace is its own trim. */
  lemma NamedPieceTrimmed(v: string)
    requires v == [] || !IsWhitespace(v[|v| - 1])
    ensures Trim(SessionTokenPrefix + v) == SessionTokenPrefix + v
  {
    var p := SessionTokenPrefix + v;
    assert p[0] == 's';
    assert p[|p| - 1] == (if v == [] then '=' else v[|v| - 1]);
    TrimKeeps(p);
  }

  /** A piece that is `session_token=` followed by a value with no trailing whitespace yields that
      value, whatever it holds: any further `=` stay in it (`splitn(2, '=')`), and it may be empty. */
  lemma NamedPieceValue(v: string)
    requires v == [] || !IsWhitespace(v[|v| - 1])
    ensures SessionValue(SessionTokenPrefix + v) == Some(v)
  {
    NamedPieceTrimmed(v);
    SessionValueExactly(SessionTokenPrefix + v);
    assert (SessionTokenPrefix + v)[|SessionTokenPrefix|..] == v;
  }

  /** Trimming covers the whole piece, but not the inside: with a space before the `=` the name is
      `session_token ` and the piece names nothing. */
  lemma SpaceBeforeEqualsNamesNothing(v: string)
    ensures SessionValue("session_token =" + v).None?
  {
    var c := "session_token =" + v;
    assert c[0] == 's';
    assert TrimStart(c) == c;
    var t := Trim(c);
    assert t == c[..|t|];
    assert |t| >= 15 by {
      assert !IsWhitespace(c[14]);
    }
    assert t[13] == c[13] == ' ';
    SessionValueExactly(c);
  }

  /** The characters of a UUID's text are neither `;` nor whitespace. */
  lemma UuidTextIsWord(t: string)
    requires UuidText(t)
    ensures ';' !in t
    ensures forall k :: 0 <= k < |t| ==> !IsWhitespace(t[k])
  {
    forall k | 0 <= k < |t|
      ensures t[k] != ';' && !IsWhitespace(t[k])
    {
      assert t[k] in "0123456789abcdef-";
    }
  }

  // ---------------------------------------------------------------------------
  // Cookies the handlers set

  /** What follows the token in the cookie a login or registration sets. */
  const SessionCookieAttributes: string := " Path=/; HttpOnly; SameSite=Lax; Max-Age=604800"

  /** The `Set-Cookie` value of a successful login or registration. */
  function SessionCookie(token: string): string {
    SessionTokenPrefix + token + ";" + SessionCookieAttributes
  }

  /** The `Set-Cookie` value of a logout: the same cookie, empty, expiring at once. */
  const ClearedCookie: string := "session_token=; Path=/; HttpOnly; SameSite=Lax; Max-Age=0"

  /** A header that starts with `session_token=` and a UUID's text, then `;`, yields that text,
      whatever comes after. */
  lemma LeadingTokenExtracted(token: string, rest: string)
    requires UuidText(token)
    ensures SessionToken(SessionTokenPrefix + token + ";" + rest) == Some(token)
  {
    var first := SessionTokenPrefix + token;
    UuidTextIsWord(token);
    assert ';' !in SessionTokenPrefix;
    assert ';' !in first;
    assert SessionTokenPrefix + token + ";" + rest == first + [';'] + rest;
    SplitLeading(first, ';', rest);
    assert first[0] == 's' && first[|first| - 1] == token[|token| - 1];
    TrimKeeps(first);
    assert Trim(first) == first;
    SessionValueExactly(first);
    assert first[|SessionTokenPrefix|..] == token;
  }

  /** The cookie the server sets carries its token back (section 4.2 of RFC 6265: the browser
      returns the `name=value` pair without the attributes). */
  lemma SessionCookieRoundTrip(token: string)
    requires UuidText(token)
    ensures SessionToken(SessionCookie(token)) == Some(token)
    ensures SessionToken(SessionTokenPrefix + token) == Some(token)
  {
    LeadingTokenExtracted(token, SessionCookieAttributes);
    var first := SessionTokenPrefix + token;
    UuidTextIsWord(token);
    assert ';' !in SessionTokenPrefix;
    assert ';' !in first;
    SplitWithoutSeparator(first, ';');
    assert first[0] == 's' && first[|first| - 1] == token[|token| - 1];
    TrimKeeps(first);
    SessionValueExactly(first);
    assert first[|SessionTokenPrefix|..] == token;
  }

  // ---------------------------------------------------------------------------
  // The session cache and the replies

  /** The shared `HashSet<String>` of tokens behind the `RwLock`; each handler's change to it is one
      atomic step. */
  class SessionCache {
    var tokens: set<string>

    constructor (initial: set<string>)
      ensures tokens == initial
    {
      tokens := initial;
    }

    method Insert(token: string)
      modifies this
      ensures tokens == old(tokens) + {token}
    {
      tokens := tokens + {token};
    }

    method Remove(token: string)
      modifies this
      ensures tokens == old(tokens) - {token}
    {
      tokens := tokens - {token};
    }
  }

  /** The JSON bodies the handlers answer with. */
  datatype Body =
    | Message(text: string)                              // a bare JSON string
    | Auth(message: string, sessionToken: string)        // `AuthResponse`
    | Me(valid: bool, presented: Option<string>)         // `MeResponse`
    | History(items: seq<Json>)                          // an array of serialized `ChatMessage`s

  /** A reply: status code, body and the `Set-Cookie` header when there is one. */
  datatype Response = Response(status: int, body: Body, setCookie: Option<string>)

  const Ok: int := 200
  const Unauthorized: int := 401
  const Conflict: int := 409
  const InternalServerError: int := 500

  /** The token the request presents: the optional `Cookie` header, parsed. */
  function PresentedToken(cookieHeader: Option<string>): Option<string> {
    if cookieHeader.Some? then SessionToken(cookieHeader.value) else None
  }

  /** The user whose credentials check out: the lookup by name reaches the database and finds a row,
      and the password verifies against that row's hash. */
  function Authenticated(users: seq<UserRow>, username: string, password: string,
                         verify: (string, string) -> bool, lookupUp: bool): Option<UserRow>
  {
    var found := if lookupUp then FindUserByUsername(users, username) else Failure(Unavailable);
    if found.Success? && verify(password, found.value.passwordHash) then Some(found.value) else None
  }

  // ---------------------------------------------------------------------------
  // The handlers

  /** `handle_login`. */
  method HandleLogin(db: Database, cache: SessionCache, username: string, password: string, now: int,
                     verify: (string, string) -> bool, lookupUp: bool, sessionUp: bool)
    returns (resp: Response)
    modifies db`sessions, cache
    ensures var user := Authenticated(old(db.users), username, password, verify, lookupUp);
      && (resp.status == Ok <==> user.Some? && sessionUp)
      && (resp.status == Ok ==>
            && resp.body.Auth?
            && var token := resp.body.sessionToken;
            && UuidText(token) && token !in Tokens(old(db.sessions))
            && db.sessions == old(db.sessions) + [SessionRow(token, user.value.id, now + SessionLifetime)]
            && cache.tokens == old(cache.tokens) + {token}
            && resp == Response(Ok, Auth("Login successful!", token), Some(SessionCookie(token)))
            && SessionToken(resp.setCookie.value) == Some(token))
      && (user.Some? && !sessionUp ==>
            resp == Response(InternalServerError, Message("Failed to create session"), Some("")))
      && (user.None? ==> resp == Response(Unauthorized, Message("Invalid username or password"), Some("")))
      && (resp.status != Ok ==> db.sessions == old(db.sessions) && cache.tokens == old(cache.tokens))
  {
    var found := if lookupUp then FindUserByUsername(db.users, username) else Failure(Unavailable);
    if found.Success? && verify(password, found.value.passwordHash) {
      var created := db.CreateSession(found.value.id, now, sessionUp);
      if created.Success? {
        var token := created.value;
        cache.Insert(token);
        SessionCookieRoundTrip(token);
        return Response(Ok, Auth("Login successful!", token), Some(SessionCookie(token)));
      }
      return Response(InternalServerError, Message("Failed to create session"), Some(""));
    }
    resp := Response(Unauthorized, Message("Invalid username or password"), Some(""));
  }

  /** `handle_register`. A failed first lookup, whatever its cause, counts as "no such user". */
  method HandleRegister(db: Database, cache: SessionCache, username: string, passwordHash: string, now: int,
                        lookupUp: bool, insertUp: bool, refetchUp: bool, sessionUp: bool)
    returns (resp: Response)
    requires db.Valid()
    modifies db`users, db`nextUserId, db`sessions, cache
    ensures db.Valid()
    ensures var taken := lookupUp && FindUserByUsername(old(db.users), username).Success?;
      var added := old(db.users) + [UserRow(old(db.nextUserId), username, passwordHash)];
      && (resp.status == Conflict <==> taken)
      && (taken ==> resp == Response(Conflict, Message("User already exists"), Some("")))
      && (!taken && !insertUp ==>
            resp == Response(InternalServerError, Message("Database is not online, please try again later"), Some("")))
      && (taken || !insertUp ==> db.users == old(db.users) && db.nextUserId == old(db.nextUserId))
      && (!taken && insertUp ==> db.users == added)
      && (!taken && insertUp && !refetchUp ==>
            resp == Response(InternalServerError, Message("Registered but failed to fetch ID"), Some("")))
      && (!taken && insertUp && refetchUp && !sessionUp ==>
            resp == Response(InternalServerError, Message("Registered but failed to create session"), Some("")))
      && (resp.status == Ok <==> !taken && insertUp && refetchUp && sessionUp)
      && (resp.status == Ok ==>
            && resp.body.Auth?
            && var token := resp.body.sessionToken;
            && var owner := FindUserByUsername(added, username).value;
            && (lookupUp ==> owner.id == old(db.nextUserId))
            && UuidText(token) && token !in Tokens(old(db.sessions))
            && db.sessions == old(db.sessions) + [SessionRow(token, owner.id, now + SessionLifetime)]
            && cache.tokens == old(cache.tokens) + {token}
            && resp == Response(Ok, Auth("Registered successfully", token), Some(SessionCookie(token)))
            && SessionToken(resp.setCookie.value) == Some(token))
      && (resp.status != Ok ==> db.sessions == old(db.sessions) && cache.tokens == old(cache.tokens))
  {
    var found := if lookupUp then FindUserByUsername(db.users, username) else Failure(Unavailable);
    if found.Success? {
      return Response(Conflict, Message("User already exists"), Some(""));
    }
    var inserted := db.CreateUser(username, passwordHash, insertUp);
    if inserted.Failure? {
      return Response(InternalServerError, Message("Database is not online, please try again later"), Some(""));
    }
    var refetched := if refetchUp then FindUserByUsername(db.users, username) else Failure(Unavailable);
    if refetched.Failure? {
      return Response(InternalServerError, Message("Registered but failed to fetch ID"), Some(""));
    }
    if lookupUp {
      FirstNameMatchIsNew(old(db.users), username, passwordHash, old(db.nextUserId));
    }
    var created := db.CreateSession(refetched.value.id, now, sessionUp);
    if created.Failure? {
      return Response(InternalServerError, Message("Registered but failed to create session"), Some(""));
    }
    var token := created.value;
    cache.Insert(token);
    SessionCookieRoundTrip(token);
    resp := Response(Ok, Auth("Registered successfully", token), Some(SessionCookie(token)));
  }

  /** When no row had the name before, the lookup after the insert finds the new row. */
  lemma {:induction false} FirstNameMatchIsNew(users: seq<UserRow>, username: string, passwordHash: string, id: int)
    requires FindUserByUsername(users, username).Failure?
    ensures FindUserByUsername(users + [UserRow(id, username, passwordHash)], username)
         == Success(UserRow(id, username, passwordHash))
    decreases |users|
  {
    var row := UserRow(id, username, passwordHash);
    if |users| == 0 {
      assert users + [row] == [row];
    } else {
      assert (users + [row])[0] == users[0];
      assert (users + [row])[1..] == users[1..] + [row];
      FirstNameMatchIsNew(users[1..], username, passwordHash, id);
    }
  }

  /** When a row already has the name, the lookup after inserting a namesake still finds the older
      row, which is not the new one: `handle_register`, having taken a failed first lookup for "no
      such user", then opens the session for the existing account. */
  lemma {:induction false} RefetchFindsOlderNamesake(users: seq<UserRow>, username: string, passwordHash: string,
                                                     id: int)
    requires FindUserByUsername(users, username).Success?
    requires forall u :: u in users ==> u.id < id
    ensures var found := FindUserByUsername(users + [UserRow(id, username, passwordHash)], username);
      found == FindUserByUsername(users, username) && found.value.id != id
    decreases |users|
  {
    var row := UserRow(id, username, passwordHash);
    assert (users + [row])[0] == users[0];
    assert users[0] in users;
    if users[0].username != username {
      assert (users + [row])[1..] == users[1..] + [row];
      assert forall u :: u in users[1..] ==> u in users;
      RefetchFindsOlderNamesake(users[1..], username, passwordHash, id);
    }
  }

  /** `handle_register` with its first lookup told apart: only `RowNotFound` leads on to the
      insert, and a lookup that does not reach the database answers 500 with nothing changed. With
      that, a successful registration always opens its session for the user row it inserted. */
  method HandleRegisterChecked(db: Database, cache: SessionCache, username: string, passwordHash: string, now: int,
                               lookupUp: bool, insertUp: bool, refetchUp: bool, sessionUp: bool)
    returns (resp: Response)
    requires db.Valid()
    modifies db`users, db`nextUserId, db`sessions, cache
    ensures db.Valid()
    ensures !lookupUp ==>
      && resp == Response(InternalServerError, Message("Database is not online, please try again later"), Some(""))
      && db.users == old(db.users) && db.nextUserId == old(db.nextUserId)
      && db.sessions == old(db.sessions) && cache.tokens == old(cache.tokens)
    ensures resp.status == Ok <==>
      lookupUp && FindUserByUsername(old(db.users), username).Failure? && insertUp && refetchUp && sessionUp
    ensures resp.status == Ok ==>
      && resp.body.Auth?
      && db.users == old(db.users) + [UserRow(old(db.nextUserId), username, passwordHash)]
      && db.sessions == old(db.sessions) + [SessionRow(resp.body.sessionToken, old(db.nextUserId), now + SessionLifetime)]
      && cache.tokens == old(cache.tokens) + {resp.body.sessionToken}
  {
    if !lookupUp {
      return Response(InternalServerError, Message("Database is not online, please try again later"), Some(""));
    }
    resp := HandleRegister(db, cache, username, passwordHash, now, true, insertUp, refetchUp, sessionUp);
  }

  /** `handle_get_me`: reads the cache and changes nothing. */
  method HandleGetMe(cookieHeader: Option<string>, cache: SessionCache) returns (resp: Response)
    ensures var token := PresentedToken(cookieHeader);
      && (resp.status == Ok <==> token.Some? && token.value in cache.tokens)
      && (resp.status == Ok ==> resp == Response(Ok, Me(true, token), None))
      && (resp.status != Ok ==> resp == Response(Unauthorized, Me(false, None), None))
  {
    var sessionToken: Option<string> := None;
    if cookieHeader.Some? {
      var token := ExtractSessionToken(cookieHeader.value);
      if token.Some? && token.value in cache.tokens {
        sessionToken := token;
      }
    }
    if sessionToken.Some? {
      resp := Response(Ok, Me(true, sessionToken), None);
    } else {
      resp := Response(Unauthorized, Me(false, None), None);
    }
  }

  /** `handle_logout`: the presented token leaves the cache whether or not the delete reached the
      database; every other token stays. */
  method HandleLogout(db: Database, cache: SessionCache, cookieHeader: Option<string>, deleteUp: bool)
    returns (resp: Response)
    modifies db`sessions, cache
    ensures var token := PresentedToken(cookieHeader);
      && cache.tokens == (if token.Some? then old(cache.tokens) - {token.value} else old(cache.tokens))
      && db.sessions == (if token.Some? && deleteUp then WithoutToken(old(db.sessions), token.value)
                         else old(db.sessions))
      && resp == Response(Ok, Message("Logged out"), Some(ClearedCookie))
  {
    if cookieHeader.Some? {
      var token := ExtractSessionToken(cookieHeader.value);
      if token.Some? {
        var _ := db.DeleteSession(token.value, deleteUp);
        cache.Remove(token.value);
      }
    }
    resp := Response(Ok, Message("Logged out"), Some(ClearedCookie));
  }

  /** `warp::reply::json(&messages_vector)`: each message through its own `Serialize`. */
  function SerializeAll(ms: seq<ChatMessage>): (docs: seq<Json>)
    ensures |docs| == |ms|
    ensures forall k :: 0 <= k < |ms| ==> docs[k] == Outbound(ms[k].username, ms[k].content)
  {
    if |ms| == 0 then [] else [Serialize(ms[0])] + SerializeAll(ms[1..])
  }

  /** `handle_chat_history`: the history when the query succeeds, otherwise a 500. What reaches the
      client is the author's name and the text of each message, oldest first; ids, times and the
      `session_id` column are dropped by the serializer. */
  method HandleChatHistory(db: Database, limit: int, up: bool) returns (resp: Response)
    ensures resp.status == Ok <==> up && limit >= 0
    ensures resp.status == Ok ==>
      && var history := GetChatHistory(db.users, db.messages, limit).value;
      && OldestFirst(history) && |history| <= limit
      && (forall m :: m in history ==> m in Joined(db.users, db.messages))
      && resp == Response(Ok, History(SerializeAll(history)), None)
    ensures resp.status != Ok ==>
      resp == Response(InternalServerError, Message("Database is not online, please try again later"), None)
  {
    var history := if up then GetChatHistory(db.users, db.messages, limit) else Failure(Unavailable);
    if history.Success? {
      var h := history.value;
      assert OldestFirst(h) && |h| <= limit && forall m :: m in h ==> m in Joined(db.users, db.messages) by {
        ChatHistoryIsOldest(db.users, db.messages, limit);
        forall m | m in h ensures m in Joined(db.users, db.messages) {
          assert m in multiset(h);
        }
      }
      resp := Response(Ok, History(SerializeAll(history.value)), None);
    } else {
      resp := Response(InternalServerError, Message("Database is not online, please try again later"), None);
    }
  }

  // ---------------------------------------------------------------------------
  // The handlers together

  /** A browser's session: log in, send the cookie back to `/api/me`, log out, ask again. The
      browser returns only the `name=value` pair of the cookie it was given, and no cookie at all
      when the login failed. `/api/me` accepts the session exactly when the login succeeded, and
      never after the logout, whether or not the database delete succeeded. */
  method LoginSession(db: Database, cache: SessionCache, username: string, password: string, now: int,
                      verify: (string, string) -> bool, lookupUp: bool, sessionUp: bool, deleteUp: bool)
    returns (login: Response, meBefore: Response, logout: Response, meAfter: Response)
    modifies db`sessions, cache
    ensures meBefore.status == Ok <==> login.status == Ok
    ensures login.status == Ok ==> login.body.Auth? && meBefore.body == Me(true, Some(login.body.sessionToken))
    ensures logout.status == Ok
    ensures meAfter == Response(Unauthorized, Me(false, None), None)
  {
    login := HandleLogin(db, cache, username, password, now, verify, lookupUp, sessionUp);
    var header: Option<string> := None;
    if login.status == Ok {
      SessionCookieRoundTrip(login.body.sessionToken);
      header := Some(SessionTokenPrefix + login.body.sessionToken);
    }
    meBefore := HandleGetMe(header, cache);
    logout := HandleLogout(db, cache, header, deleteUp);
    meAfter := HandleGetMe(header, cache);
  }
}
