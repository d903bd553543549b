/** The three tables behind the chat (src/tables/user_db.rs): users, sessions and messages.

    Each query is modelled by what its SQL `WHERE`, `JOIN` and `ORDER BY` select, over tables held
    as sequences in insertion order; SQL `=` on strings is exact comparison, as under a binary
    collation. The clock (`Utc::now()`) is a parameter `now` in seconds, the
    UUID generator is a choice of a token that no session row holds yet, and whether the database
    answers at all is an `up` flag per call. */
module UserDb {
  import opened Wrappers
  import opened Db

  /** `chrono::Duration::days(7)`, in seconds. */
  const SessionLifetime: int := 7 * 24 * 60 * 60

  /** A row of `app_users`; `created_at` is not used by any query and is left out. */
  datatype UserRow = UserRow(id: int, username: string, passwordHash: string)

  /** A row of `sessions`. */
  datatype SessionRow = SessionRow(token: string, userId: int, expiresAt: int)

  /** A row of `messages`; its `id` is its position plus one (the table's auto-increment key, and no
      query deletes messages). */
  datatype MessageRow = MessageRow(userId: int, content: string, createdAt: int)

  /** `sqlx::Error`, reduced to the cases the queries distinguish. */
  datatype DbError = Unavailable | RowNotFound | InvalidLimit

  /** Drawn from the alphabet of a hyphenated UUID, as `Uuid::new_v4().to_string()` writes it. */
  predicate UuidText(t: string) {
    |t| > 0 && forall k :: 0 <= k < |t| ==> t[k] in "0123456789abcdef-"
  }

  function Tokens(sessions: seq<SessionRow>): set<string> {
    set s | s in sessions :: s.token
  }

  // ---------------------------------------------------------------------------
  // app_users

  /** `find_user_by_username`: `SELECT … FROM app_users WHERE username = ?` with `fetch_one`, so the
      first matching row, or `RowNotFound`. */
  function FindUserByUsername(users: seq<UserRow>, name: string): (r: Result<UserRow, DbError>)
    ensures r.Success? <==> exists u :: u in users && u.username == name
    ensures r.Success? ==> r.value in users && r.value.username == name
    ensures r.Failure? ==> r.error == RowNotFound
  {
    if |users| == 0 then Failure(RowNotFound)
    else if users[0].username == name then Success(users[0])
    else
      var r := FindUserByUsername(users[1..], name);
      assert forall u :: u in users[1..] ==> u in users;
      assert forall u :: u in users && u != users[0] ==> u in users[1..];
      r
  }

  /** The join partner of a row that refers to user `id`: the user row with that id. */
  function UserById(users: seq<UserRow>, id: int): (r: Result<UserRow, DbError>)
    ensures r.Success? <==> exists u :: u in users && u.id == id
    ensures r.Success? ==> r.value in users && r.value.id == id
  {
    if |users| == 0 then Failure(RowNotFound)
    else if users[0].id == id then Success(users[0])
    else
      var r := UserById(users[1..], id);
      assert forall u :: u in users[1..] ==> u in users;
      assert forall u :: u in users && u != users[0] ==> u in users[1..];
      r
  }

  /** `_confirm_user_id`: `SELECT * FROM app_users WHERE username = ? AND id = ?` finds a row. */
  predicate ConfirmUserId(users: seq<UserRow>, id: int, username: string) {
    exists u :: u in users && u.id == id && u.username == username
  }

  // ---------------------------------------------------------------------------
  // sessions

  /** The rows that `DELETE FROM sessions WHERE token = ?` leaves. */
  function WithoutToken(sessions: seq<SessionRow>, token: string): (r: seq<SessionRow>)
    ensures forall s :: s in r <==> s in sessions && s.token != token
    ensures |r| <= |sessions|
  {
    if |sessions| == 0 then []
    else if sessions[0].token == token then WithoutToken(sessions[1..], token)
    else [sessions[0]] + WithoutToken(sessions[1..], token)
  }

  /** The rows that `DELETE FROM sessions WHERE expires_at < ?` leaves, in order. */
  function Unexpired(sessions: seq<SessionRow>, now: int): (r: seq<SessionRow>)
    ensures forall s :: s in r <==> s in sessions && s.expiresAt >= now
  {
    if |sessions| == 0 then []
    else if sessions[0].expiresAt < now then Unexpired(sessions[1..], now)
    else [sessions[0]] + Unexpired(sessions[1..], now)
  }

  /** The rows that the same statement deletes, in order. */
  function Expired(sessions: seq<SessionRow>, now: int): (r: seq<SessionRow>)
    ensures forall s :: s in r <==> s in sessions && s.expiresAt < now
  {
    if |sessions| == 0 then []
    else if sessions[0].expiresAt < now then [sessions[0]] + Expired(sessions[1..], now)
    else Expired(sessions[1..], now)
  }

  /** `get_all_valid_sessions`: the tokens of `SELECT token FROM sessions WHERE expires_at > ?`,
      in table order. */
  function GetAllValidSessions(sessions: seq<SessionRow>, now: int): (tokens: seq<string>)
    ensures forall t :: t in tokens <==> exists s :: s in sessions && s.token == t && s.expiresAt > now
    ensures |tokens| <= |sessions|
  {
    if |sessions| == 0 then []
    else
      var rest := GetAllValidSessions(sessions[1..], now);
      assert forall s :: s in sessions <==> s == sessions[0] || s in sessions[1..];
      if sessions[0].expiresAt > now then [sessions[0].token] + rest else rest
  }

  /** `get_user_by_token`: `app_users JOIN sessions ON u.id = s.user_id WHERE s.token = ? AND
      s.expires_at > ?` with `fetch_one`; the first session row (in table order) that qualifies
      and has a user picks the answer. */
  function GetUserByToken(users: seq<UserRow>, sessions: seq<SessionRow>, token: string, now: int)
    : (r: Result<UserRow, DbError>)
    ensures r.Success? <==>
      exists s, u :: s in sessions && u in users && s.token == token && s.expiresAt > now && u.id == s.userId
    ensures r.Success? ==>
      (r.value in users && exists s :: s in sessions && s.token == token && s.expiresAt > now && s.userId == r.value.id)
    ensures r.Failure? ==> r.error == RowNotFound
  {
    if |sessions| == 0 then Failure(RowNotFound)
    else
      var s := sessions[0];
      assert forall x :: x in sessions <==> x == s || x in sessions[1..];
      if s.token == token && s.expiresAt > now && UserById(users, s.userId).Success? then
        UserById(users, s.userId)
      else
        GetUserByToken(users, sessions[1..], token, now)
  }

  // ---------------------------------------------------------------------------
  // messages and chat history

  /** Whether `m` is the joined row for message number `m.messageId`: that message, its author's
      name, its time, and no `session_id`. */
  predicate IsJoinOf(users: seq<UserRow>, messages: seq<MessageRow>, m: ChatMessage) {
    && 1 <= m.messageId <= |messages|
    && var row := messages[m.messageId - 1];
    && UserById(users, row.userId).Success?
    && m == ChatMessage(m.messageId, row.userId, UserById(users, row.userId).value.username,
                        row.content, Some(row.createdAt), None)
  }

  /** `messages JOIN app_users ON m.user_id = u.id`, one `ChatMessage` per message whose author
      exists, with `NULL as session_id`, in table order. */
  function Joined(users: seq<UserRow>, messages: seq<MessageRow>): (r: seq<ChatMessage>)
    ensures forall m :: m in r ==> IsJoinOf(users, messages, m)
    ensures forall i, j :: 0 <= i < j < |r| ==> r[i].messageId < r[j].messageId
  {
    if |messages| == 0 then []
    else
      var n := |messages|;
      var before := Joined(users, messages[..n - 1]);
      assert forall k :: 0 <= k < n - 1 ==> messages[..n - 1][k] == messages[k];
      var row := messages[n - 1];
      var author := UserById(users, row.userId);
      if author.Success? then
        var r := before + [ChatMessage(n, row.userId, author.value.username, row.content, Some(row.createdAt), None)];
        assert forall i :: 0 <= i < |before| ==> before[i].messageId < n by {
          forall i | 0 <= i < |before| ensures before[i].messageId < n {
            assert before[i] in before;
          }
        }
        r
      else
        before
  }

  /** Message ids that strictly increase along a sequence make each message occur in it once. */
  lemma {:induction false} IncreasingIdsOnce(ms: seq<ChatMessage>)
    requires forall i, j :: 0 <= i < j < |ms| ==> ms[i].messageId < ms[j].messageId
    ensures forall m :: multiset(ms)[m] <= 1
  {
    if |ms| > 0 {
      var rest := ms[1..];
      assert ms == [ms[0]] + rest;
      IncreasingIdsOnce(rest);
      assert ms[0] !in rest by {
        forall k | 0 <= k < |rest| ensures rest[k] != ms[0] {
          assert rest[k] == ms[k + 1];
        }
      }
    }
  }

  /** The inner join drops exactly the messages whose author is missing. */
  lemma {:induction false} JoinedComplete(users: seq<UserRow>, messages: seq<MessageRow>, k: nat)
    requires k < |messages| && UserById(users, messages[k].userId).Success?
    ensures exists m :: m in Joined(users, messages) && m.messageId == k + 1
    decreases |messages|
  {
    var n := |messages|;
    if k < n - 1 {
      assert messages[..n - 1][k] == messages[k];
      JoinedComplete(users, messages[..n - 1], k);
    } else {
      var row := messages[n - 1];
      var m := ChatMessage(n, row.userId, UserById(users, row.userId).value.username, row.content, Some(row.createdAt), None);
      assert m in Joined(users, messages);
    }
  }

  function Stamp(m: ChatMessage): int {
    if m.createdAt.Some? then m.createdAt.value else 0
  }

  predicate OldestFirst(ms: seq<ChatMessage>) {
    forall i, j :: 0 <= i < j < |ms| ==> Stamp(ms[i]) <= Stamp(ms[j])
  }

  /** Puts `m` before the first message that is not older than it. */
  function InsertByTime(m: ChatMessage, sorted: seq<ChatMessage>): (r: seq<ChatMessage>)
    requires OldestFirst(sorted)
    ensures OldestFirst(r)
    ensures multiset(r) == multiset(sorted) + multiset{m}
  {
    if |sorted| == 0 then [m]
    else if Stamp(m) <= Stamp(sorted[0]) then
      SortedCons(m, sorted);
      [m] + sorted
    else
      var first, tail := sorted[0], sorted[1..];
      assert sorted == [first] + tail;
      assert OldestFirst(tail) by {
        forall i, j | 0 <= i < j < |tail| ensures Stamp(tail[i]) <= Stamp(tail[j]) {
          assert tail[i] == sorted[i + 1] && tail[j] == sorted[j + 1];
        }
      }
      var rest := InsertByTime(m, tail);
      forall x | x in rest
        ensures Stamp(first) <= Stamp(x)
      {
        assert x in multiset(rest);
        if x != m {
          assert x in multiset(tail);
          var j :| 0 <= j < |tail| && tail[j] == x;
          assert sorted[j + 1] == x;
        }
      }
      SortedCons(first, rest);
      [first] + rest
  }

  /** A message no newer than any of a sorted sequence may go in front of it. */
  lemma SortedCons(m: ChatMessage, sorted: seq<ChatMessage>)
    requires OldestFirst(sorted)
    requires forall x :: x in sorted ==> Stamp(m) <= Stamp(x)
    ensures OldestFirst([m] + sorted)
  {
    var r := [m] + sorted;
    forall i, j | 0 <= i < j < |r|
      ensures Stamp(r[i]) <= Stamp(r[j])
    {
      assert r[j] == sorted[j - 1];
      if i > 0 {
        assert r[i] == sorted[i - 1];
      }
    }
  }

  /** `ORDER BY m.created_at ASC`. SQL leaves the order of equal times open; this sort keeps their
      table order. */
  function SortByTime(ms: seq<ChatMessage>): (r: seq<ChatMessage>)
    ensures OldestFirst(r)
    ensures multiset(r) == multiset(ms)
  {
    if |ms| == 0 then []
    else
      assert ms == [ms[0]] + ms[1..];
      InsertByTime(ms[0], SortByTime(ms[1..]))
  }

  /** `get_chat_history`: the joined messages, oldest first, cut to `LIMIT ?`. MySQL refuses a
      negative limit. */
  function GetChatHistory(users: seq<UserRow>, messages: seq<MessageRow>, limit: int)
    : (r: Result<seq<ChatMessage>, DbError>)
    ensures r.Failure? <==> limit < 0
  {
    if limit < 0 then Failure(InvalidLimit)
    else
      var sorted := SortByTime(Joined(users, messages));
      Success(if limit < |sorted| then sorted[..limit] else sorted)
  }

  // ---------------------------------------------------------------------------
  // The database as a whole: the statements that change it

  /** A token that no session row holds exists, since there are finitely many rows. */
  lemma {:induction false} FreshTokenExists(sessions: seq<SessionRow>)
    ensures exists t :: UuidText(t) && t !in Tokens(sessions)
  {
    var longest := LongestToken(sessions);
    var t: string := seq(longest + 1, _ => 'a');
    assert UuidText(t);
    assert t !in Tokens(sessions);
  }

  function LongestToken(sessions: seq<SessionRow>): (n: nat)
    ensures forall s :: s in sessions ==> |s.token| <= n
  {
    if |sessions| == 0 then 0
    else
      var rest := LongestToken(sessions[1..]);
      assert forall s :: s in sessions ==> s == sessions[0] || s in sessions[1..];
      if |sessions[0].token| > rest then |sessions[0].token| else rest
  }

  class Database {
    var users: seq<UserRow>
    var sessions: seq<SessionRow>
    var messages: seq<MessageRow>
    /** The next value of the `app_users` auto-increment key. */
    var nextUserId: int

    /** User ids come from the auto-increment key: positive, below its next value, and distinct. */
    ghost predicate Valid()
      reads this
    {
      && nextUserId > 0
      && (forall i :: 0 <= i < |users| ==> 0 < users[i].id < nextUserId)
      && (forall i, j :: 0 <= i < j < |users| ==> users[i].id != users[j].id)
    }

    constructor ()
      ensures Valid()
      ensures users == [] && sessions == [] && messages == [] && nextUserId == 1
    {
      users, sessions, messages, nextUserId := [], [], [], 1;
    }

    /** `create_user`: `INSERT INTO app_users (username, password_hash)` with the Argon2 hash the
        caller computed; answers the number of rows inserted. No unique key on `username` is modelled. */
    method CreateUser(username: string, passwordHash: string, up: bool) returns (r: Result<int, DbError>)
      requires Valid()
      modifies this`users, this`nextUserId
      ensures Valid()
      ensures up ==>
        (&& r == Success(1)
         && users == old(users) + [UserRow(old(nextUserId), username, passwordHash)]
         && nextUserId == old(nextUserId) + 1)
      ensures !up ==> r == Failure(Unavailable) && users == old(users) && nextUserId == old(nextUserId)
    {
      if !up {
        return Failure(Unavailable);
      }
      users := users + [UserRow(nextUserId, username, passwordHash)];
      nextUserId := nextUserId + 1;
      r := Success(1);
    }

    /** `save_message`: `INSERT INTO messages (user_id, content)`; `created_at` takes the time of the
        insert. */
    method SaveMessage(userId: int, content: string, now: int, up: bool) returns (r: Result<(), DbError>)
      modifies this`messages
      ensures up ==> r == Success(()) && messages == old(messages) + [MessageRow(userId, content, now)]
      ensures !up ==> r == Failure(Unavailable) && messages == old(messages)
    {
      if !up {
        return Failure(Unavailable);
      }
      messages := messages + [MessageRow(userId, content, now)];
      r := Success(());
    }

    /** `create_session`: a new random token, one row that expires seven days from `now`, and the
        token as the answer. */
    method CreateSession(userId: int, now: int, up: bool) returns (r: Result<string, DbError>)
      modifies this`sessions
      ensures up ==>
        (&& r.Success? && UuidText(r.value) && r.value !in Tokens(old(sessions))
         && sessions == old(sessions) + [SessionRow(r.value, userId, now + SessionLifetime)])
      ensures !up ==> r == Failure(Unavailable) && sessions == old(sessions)
    {
      if !up {
        return Failure(Unavailable);
      }
      FreshTokenExists(sessions);
      var token :| UuidText(token) && token !in Tokens(sessions);
      sessions := sessions + [SessionRow(token, userId, now + SessionLifetime)];
      r := Success(token);
    }

    /** `delete_session`: every row with the token goes, whether there were none, one or several. */
    method DeleteSession(token: string, up: bool) returns (r: Result<(), DbError>)
      modifies this`sessions
      ensures up ==> r == Success(()) && sessions == WithoutToken(old(sessions), token)
      ensures !up ==> r == Failure(Unavailable) && sessions == old(sessions)
    {
      if !up {
        return Failure(Unavailable);
      }
      sessions := WithoutToken(sessions, token);
      r := Success(());
    }

    /** `cleanup_expired_sessions`: deletes the rows that expired strictly before `now` and answers
        how many it deleted. */
    method CleanupExpiredSessions(now: int, up: bool) returns (r: Result<nat, DbError>)
      modifies this`sessions
      ensures up ==> r == Success(|Expired(old(sessions), now)|) && sessions == Unexpired(old(sessions), now)
      ensures up ==> |sessions| + r.value == |old(sessions)|
      ensures !up ==> r == Failure(Unavailable) && sessions == old(sessions)
    {
      if !up {
        return Failure(Unavailable);
      }
      CleanupPartitions(sessions, now);
      r := Success(|Expired(sessions, now)|);
      sessions := Unexpired(sessions, now);
    }
  }

  // ---------------------------------------------------------------------------
  // Properties of the queries

  /** Every row is either kept or deleted by the cleanup, never both, never neither. */
  lemma {:induction false} CleanupPartitions(sessions: seq<SessionRow>, now: int)
    ensures |Unexpired(sessions, now)| + |Expired(sessions, now)| == |sessions|
    ensures multiset(Unexpired(sessions, now)) + multiset(Expired(sessions, now)) == multiset(sessions)
  {
    if |sessions| > 0 {
      CleanupPartitions(sessions[1..], now);
      assert sessions == [sessions[0]] + sessions[1..];
    }
  }

  /** The boundary: a row that expires exactly at `now` is neither deleted by the cleanup nor valid for
      `get_all_valid_sessions` or `get_user_by_token`, since one uses `<` and the others `>`. */
  lemma ExpiryBoundary(users: seq<UserRow>, sessions: seq<SessionRow>, now: int, token: string)
    requires forall s :: s in sessions && s.token == token ==> s.expiresAt == now
    requires exists s :: s in sessions && s.token == token
    ensures exists s :: s in Unexpired(sessions, now) && s.token == token
    ensures token !in GetAllValidSessions(sessions, now)
    ensures GetUserByToken(users, sessions, token, now) == Failure(RowNotFound)
  {
  }

  /** Running the cleanup does not change which tokens are valid at the same `now`. */
  lemma {:induction false} CleanupKeepsValidSessions(sessions: seq<SessionRow>, now: int)
    ensures GetAllValidSessions(Unexpired(sessions, now), now) == GetAllValidSessions(sessions, now)
  {
    if |sessions| > 0 {
      CleanupKeepsValidSessions(sessions[1..], now);
    }
  }

  /** Nor which user a token resolves to at the same `now`. */
  lemma {:induction false} CleanupKeepsUserLookup(users: seq<UserRow>, sessions: seq<SessionRow>, token: string, now: int)
    ensures GetUserByToken(users, Unexpired(sessions, now), token, now) == GetUserByToken(users, sessions, token, now)
  {
    if |sessions| > 0 {
      CleanupKeepsUserLookup(users, sessions[1..], token, now);
      if sessions[0].expiresAt >= now {
        assert ([sessions[0]] + Unexpired(sessions[1..], now))[1..] == Unexpired(sessions[1..], now);
      }
    }
  }

  /** A second cleanup at the same `now` deletes nothing. */
  lemma {:induction false} CleanupIdempotent(sessions: seq<SessionRow>, now: int)
    ensures Unexpired(Unexpired(sessions, now), now) == Unexpired(sessions, now)
    ensures Expired(Unexpired(sessions, now), now) == []
  {
    if |sessions| > 0 {
      CleanupIdempotent(sessions[1..], now);
      if sessions[0].expiresAt >= now {
        assert ([sessions[0]] + Unexpired(sessions[1..], now))[1..] == Unexpired(sessions[1..], now);
      }
    }
  }

  /** A session that `create_session` just added resolves to its user for exactly seven days: while
      `at` is before its expiry, and from then on not at all. */
  lemma {:induction false} NewSessionResolves(users: seq<UserRow>, sessions: seq<SessionRow>, token: string,
                                              userId: int, now: int, at: int)
    requires token !in Tokens(sessions)
    requires UserById(users, userId).Success?
    ensures GetUserByToken(users, sessions + [SessionRow(token, userId, now + SessionLifetime)], token, at)
         == if at < now + SessionLifetime then UserById(users, userId) else Failure(RowNotFound)
  {
    var row := SessionRow(token, userId, now + SessionLifetime);
    if |sessions| == 0 {
      assert ([row])[1..] == [];
    } else {
      assert (sessions + [row])[1..] == sessions[1..] + [row];
      assert sessions[0] in sessions;
      NewSessionResolves(users, sessions[1..], token, userId, now, at);
    }
  }

  /** After `delete_session`, the token resolves to nobody. */
  lemma DeletedSessionResolvesNothing(users: seq<UserRow>, sessions: seq<SessionRow>, token: string, now: int)
    ensures GetUserByToken(users, WithoutToken(sessions, token), token, now) == Failure(RowNotFound)
    ensures token !in GetAllValidSessions(WithoutToken(sessions, token), now)
  {
  }

  /** `get_chat_history` answers at most `limit` messages, oldest first, each a joined message with
      no `session_id` and none twice; and they are the oldest ones: every joined message it leaves
      out is no older than any it answers. */
  lemma ChatHistoryIsOldest(users: seq<UserRow>, messages: seq<MessageRow>, limit: int)
    requires limit >= 0
    ensures var r := GetChatHistory(users, messages, limit).value;
      var all := Joined(users, messages);
      && |r| <= limit
      && |r| == (if limit < |all| then limit else |all|)
      && OldestFirst(r)
      && multiset(r) <= multiset(all)
      && (forall m :: multiset(r)[m] <= 1)
      && (forall m :: m in r ==> m.sessionId.None? && m.createdAt.Some?)
      && (forall m, m' :: m in r && m' in multiset(all) - multiset(r) ==> Stamp(m) <= Stamp(m'))
  {
    var all := Joined(users, messages);
    var sorted := SortByTime(all);
    var n := if limit < |sorted| then limit else |sorted|;
    var r := sorted[..n];
    assert GetChatHistory(users, messages, limit).value == r;
    assert |sorted| == |all| by {
      assert |multiset(sorted)| == |multiset(all)|;
    }
    MultisetOfCut(sorted, n);
    IncreasingIdsOnce(all);
    forall m | m in r
      ensures m.sessionId.None? && m.createdAt.Some?
    {
      assert m in multiset(sorted);
      assert m in all;
    }
    SortedPrefixIsOldest(sorted, n);
  }

  lemma MultisetOfCut(sorted: seq<ChatMessage>, n: nat)
    requires n <= |sorted|
    ensures multiset(sorted[..n]) <= multiset(sorted)
    ensures multiset(sorted) - multiset(sorted[..n]) == multiset(sorted[n..])
  {
    assert sorted == sorted[..n] + sorted[n..];
  }

  /** Cutting a list sorted oldest first keeps messages no newer than any it drops. */
  lemma SortedPrefixIsOldest(sorted: seq<ChatMessage>, n: nat)
    requires OldestFirst(sorted) && n <= |sorted|
    ensures OldestFirst(sorted[..n])
    ensures forall m, m' :: m in sorted[..n] && m' in multiset(sorted[n..]) ==> Stamp(m) <= Stamp(m')
  {
    forall m, m' | m in sorted[..n] && m' in multiset(sorted[n..])
      ensures Stamp(m) <= Stamp(m')
    {
      var i :| 0 <= i < n && sorted[..n][i] == m;
      var j :| 0 <= j < |sorted| - n && sorted[n..][j] == m';
      assert sorted[i] == m && sorted[n + j] == m';
    }
  }
}
