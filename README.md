# Session and message core of a warp/sqlx chat relay, in Dafny

This project models the session and message logic of a small Rust chat server. Clients log in over
HTTP and receive a `session_token` cookie. They send chat frames over a WebSocket. Each frame that
is accepted is saved to MySQL and published on a tokio broadcast channel, and every connection
relays that channel to its client. The model covers four parts:

- `api.rs` — cookie parsing and the shared session cache. It contains `extract_session_token`, the
  cache (`HashSet<String>` behind an `RwLock`, here the class `Api.SessionCache`), and the login,
  register, me, logout and chat-history handlers. A handler is reduced to its status code, its JSON
  body and its `Set-Cookie` header.
- `db.rs` — the hand-written wire format of `ChatMessage`. Reading a frame keeps only `session_id`
  and `content`. Writing a message emits only `username` and `content`. serde's derived visitor is
  modelled over a JSON value (`JsonValue.Json`): a duplicate key is an error, a missing key is an
  error, a wrong type is an error, unknown keys are skipped, and a two-element string array is
  accepted as well.
- `ws_handler.rs` — the reader loop of `handle_connection` (`WsHandler.HandleConnection`) over a
  sequence of arrivals, appending to the `messages` table and the broadcast log. It also covers the
  writer task that relays the channel to the socket (`WsHandler.ForwardBroadcasts`).
- `tables/user_db.rs` — the tables `app_users`, `sessions` and `messages` as sequences in insertion
  order inside the class `UserDb.Database`. Each query is modelled by what its `WHERE`, `JOIN`,
  `ORDER BY` and `LIMIT` select, with SQL `=` on strings taken as exact comparison.

The foreign parts are inputs:

- Whether each SQL statement reaches the database is a boolean per call. In the reader loop each
  frame carries two: one for its identity query and one for its insert.
- Argon2 verification is the function `verify(password, hash)`. The hash stored on registration is
  a parameter, since `hash_password` salts it at random.
- `Uuid::new_v4()` is a choice of a token that no session row holds yet, written in the UUID
  alphabet.
- `Utc::now()` is a parameter `now`, in seconds.
- What the reader loop's identity query finds, when it reaches the database, is a predicate
  `confirm(user_id, username)`.

Rust's `str::split`, `str::trim` and `splitn(2, _)` are modelled in `RustStr`, with `trim` using
the Unicode White_Space property.

Some behaviour follows from the code as written and differs from what the code was meant to do.
The model keeps the code's behaviour in every case below:

- The reader loop never consults the session cache or the frame's `session_id`. It was meant to
  resolve the identity from the frame's session token on every message.
- The deserializer resets `user_id` and `username` to `0` and `""`. So the identity the loop confirms
  is always `(0, "")`, and every broadcast carries `"username": ""`.
- The writer task stops at the first failed receive, and a lagging receiver counts as one. A
  lagging receiver was meant only to drop entries.
- Nothing rebuilds the cache from `get_all_valid_sessions`. `main.rs` runs only the cleanup, and
  the cache was meant to be rebuilt from that query on every cleanup cycle.

## Model

| member | source | states |
|---|---|---|
| RustStr.Split | src/api.rs:307 | `cookie_str.split(';')`: at least one piece, no piece holds the separator, and joining the pieces with it gives back the input |
| RustStr.SplitLeading | src/api.rs:307 | a separator-free prefix followed by the separator is always the first piece, and the rest splits on its own |
| RustStr.SplitWithoutSeparator | src/api.rs:307 | a string without the separator is a single piece |
| RustStr.SplitOnce | src/api.rs:308 | `splitn(2, '=')`: one piece exactly when there is no `=`; otherwise the name has no `=`, and name, `=` and value rebuild the input |
| RustStr.SplitOnceAt | src/api.rs:308 | the cut is at the first `=`: an `=`-free name, `=` and any value split back into that name and that value |
| RustStr.TrimStart | src/api.rs:308 | the result is a suffix, every character dropped is whitespace, and it does not start with whitespace |
| RustStr.TrimEnd | src/api.rs:308 | the result is a prefix, every character dropped is whitespace, and it does not end with whitespace |
| RustStr.TrimKeeps | src/api.rs:308 | `trim` leaves a string unchanged exactly when it is empty or neither starts nor ends with whitespace |
| Api.ExtractSessionToken | src/api.rs:306-314 | the search loop answers the value of the first piece named `session_token`, or `None` (as the specification function `SessionToken`) |
| Api.SessionValueExactly | src/api.rs:308-310 | a piece names the session exactly when, once trimmed, it starts with `session_token=`; the value is all that follows, further `=` included |
| Api.FirstSessionValueNone | src/api.rs:307-313 | no token exactly when no piece, once trimmed, starts with `session_token=` |
| Api.FirstSessionValueFirst | src/api.rs:307-311 | otherwise the token is the rest of the FIRST such piece, whatever later duplicates say |
| Api.NamedPieceValue | src/api.rs:308-310 | `session_token=` followed by any value without trailing whitespace yields that value, which may hold `=` or be empty (`Some("")`) |
| Api.SpaceBeforeEqualsNamesNothing | src/api.rs:308-309 | `session_token =x` names nothing, since only the whole piece is trimmed |
| Api.LeadingTokenExtracted | src/api.rs:306-314 | a header starting with `session_token=<uuid text>;` yields that token, whatever follows |
| Api.SessionCookieRoundTrip | src/api.rs:60-63 | the cookie set on login carries back exactly its token, both as set and as the `name=value` pair a browser returns |
| Api.SessionCache.Insert | src/api.rs:55-58 | the cache gains the token and nothing else changes |
| Api.SessionCache.Remove | src/api.rs:292-295 | the cache loses the token and keeps every other |
| Api.HandleLogin | src/api.rs:42-99 | 200 with `Login successful!`, a fresh token, its session row expiring in 7 days, the cache gaining exactly that token and a cookie that yields it, exactly when lookup, password and `create_session` all succeed; 500 `Failed to create session` or 401 `Invalid username or password` otherwise, with sessions and cache unchanged |
| Api.HandleRegister | src/api.rs:114-196 | 409 `User already exists` with nothing changed when the name is found; the three 500 paths with their messages; on full success the new user row, one fresh session for the first row with that name (the new user's when the first lookup reached the database), the cache gaining exactly that token, and the cookie; cache and sessions unchanged on every failure, and users and the id counter unchanged when nothing was inserted |
| Api.RefetchFindsOlderNamesake | src/api.rs:133-140 | when a row already has the name, the refetch after a blind insert answers that older row, whose id is not the new one |
| Api.HandleRegisterChecked | src/api.rs:119-134 | corrected first lookup: a lookup that does not reach the database answers 500 with nothing changed; success exactly when the name was free and every statement succeeded, and then the session belongs to the inserted row's id |
| Api.FirstNameMatchIsNew | src/tables/user_db.rs:45-56 | after inserting a name no row had, the lookup by name finds the new row |
| Api.HandleGetMe | src/api.rs:238-269 | 200 `valid: true` with the token exactly when a cookie header is present, yields a token and the cache holds it; 401 `valid: false` with no token otherwise; the cache is not changed |
| Api.HandleLogout | src/api.rs:284-304 | the presented token leaves the cache whether or not the delete succeeded, all other tokens stay, its rows leave `sessions` only when the delete succeeded, and the reply is always 200 with the `Max-Age=0` cookie |
| Api.SerializeAll | src/api.rs:216-217 | the history reply has one `{username, content}` object per message, in order |
| Api.HandleChatHistory | src/api.rs:209-225 | 200 with the serialized history exactly when the query succeeds: at most `limit` joined messages, oldest first; 500 with the database message otherwise |
| Api.LoginSession | src/api.rs:42-304 | login, then `/api/me` with the returned cookie, then logout, then `/api/me` again: the first check is valid exactly when the login succeeded, with the login's token, and the second is always 401 |
| Db.Deserialize | src/db.rs:19-40 | a decoded message always has `message_id` 0, `user_id` 0, `username ""`, no `created_at`, and a `session_id` |
| Db.Serialize | src/db.rs:42-58 | the written object has exactly the keys `username` and `content`, in that order |
| Db.DecodeMembersExactly | src/db.rs:24-30 | the derived visitor succeeds exactly when each field is already filled and absent, or unfilled and present once as a string, and answers those strings |
| Db.DeserializeObject | src/db.rs:24-38 | an object decodes exactly when `session_id` and `content` each occur once as strings, and the message carries them verbatim with every identity field reset |
| Db.DeserializeOtherForms | src/db.rs:24-30 | a non-object decodes exactly when it is an array of two strings, read as `[session_id, content]` |
| Db.DecodeMembersIgnoresOthers | src/db.rs:24-30 | members other than `session_id` and `content` do not change the visitor's answer |
| Db.ForgedFieldsIgnored | src/db.rs:31-38 | forged `user_id`, `username`, `message_id` or any other members do not change the decoded message |
| Db.InboundDecodes | src/db.rs:19-40 | the inbound wire form `{session_id, content}` decodes to the message with that token and that content |
| Db.SerializeProjects | src/db.rs:47-56 | writing is the outbound form of `username` and `content`, and two messages are written alike exactly when those two fields agree |
| Db.DeserializeThenSerialize | src/db.rs:31-56 | writing a decoded message gives `username ""` and the frame's content |
| Db.SerializedNeverDeserializes | src/db.rs:24-56 | a written message never decodes: it fails for the missing `session_id`, so the two directions are not inverses |
| UserDb.FindUserByUsername | src/tables/user_db.rs:45-56 | finds a row exactly when some row has the name, answers a row with that name, and `RowNotFound` otherwise |
| UserDb.UserById | src/tables/user_db.rs:197-200 | the join partner exists exactly when some user row has the id |
| UserDb.WithoutToken | src/tables/user_db.rs:141-143 | the rows left are exactly those whose token differs |
| UserDb.Unexpired | src/tables/user_db.rs:168-170 | the rows the cleanup keeps are exactly those with `expires_at >= now` |
| UserDb.Expired | src/tables/user_db.rs:168-170 | the rows the cleanup deletes are exactly those with `expires_at < now` |
| UserDb.GetAllValidSessions | src/tables/user_db.rs:177-188 | a token is answered exactly when some row holds it with `expires_at > now` |
| UserDb.GetUserByToken | src/tables/user_db.rs:190-207 | a user is answered exactly when a row with the token and `expires_at > now` joins a user row, and it is that row's user; `RowNotFound` otherwise |
| UserDb.Joined | src/tables/user_db.rs:27-35 | every joined message is a message row with its author's name, its time and no `session_id`, and message ids strictly increase, so no message appears twice |
| UserDb.JoinedComplete | src/tables/user_db.rs:34-35 | the inner join keeps every message whose author exists |
| UserDb.InsertByTime | src/tables/user_db.rs:36 | insertion keeps the order by `created_at` and adds exactly the one message |
| UserDb.SortByTime | src/tables/user_db.rs:36 | `ORDER BY created_at ASC`: sorted, and a permutation of the input |
| UserDb.GetChatHistory | src/tables/user_db.rs:20-43 | fails exactly for a negative limit |
| UserDb.ChatHistoryIsOldest | src/tables/user_db.rs:27-38 | at most `limit` messages (all of them when fewer), oldest first, drawn from the join, none twice, each without `session_id`, and no message left out is older than one answered |
| UserDb.FreshTokenExists | src/tables/user_db.rs:122 | some UUID-alphabet token is held by no session row |
| UserDb.Database.CreateUser | src/tables/user_db.rs:79-101 | one row with the next auto-increment id, the name and the hash; one row affected; ids stay positive and distinct |
| UserDb.Database.SaveMessage | src/tables/user_db.rs:103-116 | appends exactly one `(user_id, content)` row stamped `now` |
| UserDb.Database.CreateSession | src/tables/user_db.rs:118-135 | appends exactly one row with a fresh token, the user id and `now + 7 days`, and answers that token |
| UserDb.Database.DeleteSession | src/tables/user_db.rs:137-148 | removes every row with the token and no other |
| UserDb.Database.CleanupExpiredSessions | src/tables/user_db.rs:165-175 | removes exactly the rows with `expires_at < now` and answers how many it removed |
| UserDb.CleanupPartitions | src/tables/user_db.rs:165-175 | kept and deleted rows partition the table |
| UserDb.ExpiryBoundary | src/tables/user_db.rs:165-207 | a row expiring exactly at `now` is neither deleted nor valid, because one query uses `<` and the others `>` |
| UserDb.CleanupKeepsValidSessions | src/tables/user_db.rs:165-188 | cleanup at `now` does not change `get_all_valid_sessions` at `now` |
| UserDb.CleanupKeepsUserLookup | src/tables/user_db.rs:165-207 | cleanup at `now` does not change `get_user_by_token` at `now` |
| UserDb.CleanupIdempotent | src/tables/user_db.rs:165-175 | a second cleanup at the same `now` deletes nothing |
| UserDb.NewSessionResolves | src/tables/user_db.rs:118-207 | a new session resolves to its user exactly while the time is before `now + 7 days` |
| UserDb.DeletedSessionResolvesNothing | src/tables/user_db.rs:137-207 | after the delete the token resolves to nobody and is not among the valid tokens |
| WsHandler.Channel.Send | src/ws_handler.rs:28 | publishing appends the payload to the channel |
| WsHandler.HandleConnection | src/ws_handler.rs:18-40 | the loop adds exactly the rows and broadcasts of the frames before the first read error that parse, whose identity query reaches the database and confirms, and that are then saved (`&&` short-circuit), in frame order |
| WsHandler.BroadcastsMatchSaves | src/ws_handler.rs:24-29 | one broadcast per saved row: saved with `user_id` 0 and broadcast as `username ""` with the row's content |
| WsHandler.OnlyAnonymousIdentityConfirmed | src/ws_handler.rs:23-24 | only `confirm(0, "")` matters, whatever identity frames claim |
| WsHandler.RejectedAnonymousSilencesAll | src/ws_handler.rs:24 | when `(0, "")` is not confirmed nothing is saved or broadcast |
| WsHandler.TableConfirmSilencesAll | src/tables/user_db.rs:150-163 | with the table lookup `_confirm_user_id` over auto-increment ids nothing is ever saved or broadcast |
| WsHandler.RejectedFrameSkipped | src/ws_handler.rs:22-35 | a frame that is not text, not JSON or not a `ChatMessage`, or whose identity query or insert fails, has no effect and the loop goes on |
| WsHandler.ReadErrorEndsLoop | src/ws_handler.rs:38 | nothing after a receive error is handled |
| WsHandler.HandledInOrder | src/ws_handler.rs:18-40 | saves and broadcasts of earlier frames come before those of later frames |
| WsHandler.InboundFrameRelayed | src/ws_handler.rs:23-29 | a well-formed frame, confirmed and saved, gives one row `(0, content)` and one broadcast `{username: "", content}` |
| WsHandler.HandleConnectionResolved | src/ws_handler.rs:18-40 | the corrected loop adds exactly the rows and broadcasts of frames whose cached token resolves to a user and whose insert succeeds |
| WsHandler.ResolvedBroadcastsNameTheirAuthor | src/ws_handler.rs:24-29 | in the corrected loop, each broadcast carries the name of the user whose row was saved |
| WsHandler.UncachedTokenSilent | src/ws_handler.rs:24 | in the corrected loop, a token absent from the cache gives no save and no broadcast |
| WsHandler.ResolvedFrameRelayed | src/ws_handler.rs:23-29 | in the corrected loop, a frame whose token resolves to a user is saved under that user's id and broadcast under that user's name |
| WsHandler.ForwardBroadcasts | src/ws_handler.rs:10-16 | the writer sends each received payload unchanged, in order, and stops at the first failed receive or failed send |

## Findings

| source | as written | input that shows it | evidently intended | confidence | as-written member | corrected member |
|---|---|---|---|---|---|---|
| src/api.rs:121-140 | any failed first lookup, a transient database error included, leads on to `create_user`; the refetch then answers the first row with the name, so an existing account gets the new session | a row `(1, "alice")` exists and the first `find_user_by_username` does not reach the database; the insert adds `(2, "alice")`, the refetch answers id 1, and the registrant is logged in as the existing `alice` | a lookup error other than `RowNotFound` answers 500 and inserts nothing; a successful registration's session belongs to the row it inserted | medium, by reading, and only if `username` has no unique key; not executed | Api.RefetchFindsOlderNamesake | Api.HandleRegisterChecked |
| src/ws_handler.rs:23-27 | the identity checked and saved is the deserializer's `(0, "")`, never the one behind `session_id`; with the `_confirm_user_id` lookup no frame is ever broadcast, and with any check that passes the broadcast says `"username": ""` | `{"session_id": "tok-A", "content": "hi"}` where `tok-A` is cached and belongs to user 7, `alice` | the cache holds `tok-A`, the token resolves to `alice`, and the row `(7, "hi")` is saved and `{"username": "alice", "content": "hi"}` is broadcast | high, by reading; not executed | WsHandler.TableConfirmSilencesAll | WsHandler.HandleConnectionResolved |

`Api.HandleRegisterChecked` is the corrected register handler: a guard on the first lookup in
front of `Api.HandleRegister`. The `WsHandler.*Resolved*` members model the corrected reader loop.
Nothing else in the model depends on either register handler or either loop.

## Left out

- `src/main.rs`: runtime wiring only. It is also out of step with `api.rs`. `login_route`,
  `register_route` and `logout_route` are called with the pool alone, without the session cache
  they also take. `get_me_route`, which takes only the cache, is called with the pool in its
  place. Its hourly loop runs `cleanup_expired_sessions` only. No step rebuilds the cache, and
  none is modelled.
- `html5/script.js`: browser UI. It sends `user_id` and `username` without `session_id`.
  `Db.Deserialize` rejects such frames with `MissingField("session_id")`.
- `src/login.rs` and `src/routes.rs`: not declared as a module, or warp filter plumbing only.
- `src/db/secrets.rs` and `create_pool`: file, environment and network I/O.
- JSON text: parsing and printing by serde_json are not modelled. A frame carries the parsed JSON
  value, or `None` when its text is not JSON. The channel carries the value rather than its text,
  so `to_string` is taken to succeed.
- The Argon2 hash and its verification, `Uuid::new_v4()` and `Utc::now()` are the parameters
  described above. A hash that fails to parse is a `false` answer of `verify`. The
  `hash_password(...).expect` panic (src/tables/user_db.rs:63) is not modelled: the hash is given.
- Log output: the `println!` lines of the reader loop (src/ws_handler.rs:31, 34) and the `print!`
  of `verify_password` (src/tables/user_db.rs:72) have no effect on any state and are dropped.
- `RwLock` and tokio tasks: each cache change is one atomic step. Concurrent connections, and
  interleavings between the reader and the writer, are not modelled.
- The broadcast channel's capacity of 100, lag and dropped entries: publishing is an append. The
  writer takes a lagged receive as a failed one.
- The `tx.send(...).expect` panic when no receiver is alive.
- warp reply construction: only the status code, the body and the `Set-Cookie` value are kept.
  `Set-Cookie: ""` on the error paths is `Some("")`.
- `UserDb.GetChatHistory`: a negative `LIMIT` is taken to be refused by MySQL and is modelled as an
  error. The order of messages with equal `created_at`, which SQL leaves open, is taken to be table
  order.
- `UserDb.Database.CreateUser`: no unique key on `username` is modelled. The `created_at` column of
  `app_users` is not modelled.
- `i32` and `i64` widths of ids and limits: integers are unbounded.
- `Api.HandleRegister`: a failed first lookup counts as "no such user", whatever its cause, as the
  code's `_ =>` arm does. The later refetch of the new row finds the first row with that name.
  Since names are not unique, that row's id is stated to be the new id only when the first lookup
  reached the database; the Findings table records the other case.
- `UserDb.FindUserByUsername`: SQL `=` on `username`, and likewise on `token` in `WithoutToken`,
  `GetAllValidSessions` and `GetUserByToken`, is taken as exact comparison, as under a binary or
  case-sensitive collation. The schema, and so the collation, is not part of this model. Under
  MySQL's default case- and accent-insensitive collations `Alice` would match a row `alice`, so
  registering it would answer 409 and logging in as it could succeed; the model does neither.
- `Api.HandleLogin`: a database failure during the lookup answers 401, as in the code.
- `WsHandler.HandleConnectionResolved`: the resolving lookup `get_user_by_token` is the frame's
  identity query; when it does not reach the database the frame is dropped.
