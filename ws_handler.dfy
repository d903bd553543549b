/** One WebSocket connection (src/ws_handler.rs): a reader loop that turns client frames into saved
    and broadcast messages, and a writer loop that relays the broadcast channel to the client.

    The socket stream, the database's answers and the clock are inputs: the reader sees a sequence
    of arrivals, each a frame with the time it is handled, whether the identity query reaches the
    database and whether the `INSERT` succeeds. What the identity query finds when it does reach the
    database is an abstract predicate `confirm` on `(user_id, username)`. The loop never consults
    the session cache or the message's `session_id`. */
module WsHandler {
  import opened Wrappers
  import opened JsonValue
  import opened Db
  import opened UserDb
  import opened Api

  /** One item of `ws_receiver.next()`. */
  datatype Frame =
    | Text(doc: Option<Json>)  // a text frame; `None` when its text is not JSON at all
    | NotText                  // binary, ping, pong or close: `to_str` fails
    | ReadError                // `Err(_)` from the stream

  /** A frame, the time at which it is handled, whether the identity query for it reaches the
      database, and whether the database accepts its insert. */
  datatype Arrival = Arrival(frame: Frame, at: int, confirmUp: bool, dbUp: bool)

  /** The sending side of the tokio broadcast channel shared by all connections. Publishing is an
      append; capacity, lag and the receivers' own queues are not modelled. */
  class Channel {
    var published: seq<Json>

    constructor ()
      ensures published == []
    {
      published := [];
    }

    /** `tx.send(text)`. */
    method Send(payload: Json)
      modifies this
      ensures published == old(published) + [payload]
    {
      published := published + [payload];
    }
  }

  // ---------------------------------------------------------------------------
  // The reader loop, specified

  /** The message a frame carries, when it is a text frame that reads as a `ChatMessage`. */
  function Parsed(f: Frame): Option<ChatMessage> {
    if f.Text? && f.doc.Some? && Deserialize(f.doc.value).Success? then Some(Deserialize(f.doc.value).value)
    else None
  }

  /** Whether a frame is confirmed and then saved: `confirm(..).is_ok() && save_message(..).is_ok()`. */
  predicate Accepted(a: Arrival, confirm: (int, string) -> bool) {
    && Parsed(a.frame).Some?
    && a.confirmUp && confirm(Parsed(a.frame).value.userId, Parsed(a.frame).value.username)
    && a.dbUp
  }

  /** The rows that handling the arrivals adds to `messages`, up to the first read error. */
  function Stored(arrivals: seq<Arrival>, confirm: (int, string) -> bool): seq<MessageRow> {
    if |arrivals| == 0 || arrivals[0].frame.ReadError? then []
    else
      var m := Parsed(arrivals[0].frame);
      (if Accepted(arrivals[0], confirm) then [MessageRow(m.value.userId, m.value.content, arrivals[0].at)] else [])
      + Stored(arrivals[1..], confirm)
  }

  /** The payloads that handling the arrivals publishes, up to the first read error. */
  function Published(arrivals: seq<Arrival>, confirm: (int, string) -> bool): seq<Json> {
    if |arrivals| == 0 || arrivals[0].frame.ReadError? then []
    else
      (if Accepted(arrivals[0], confirm) then [Serialize(Parsed(arrivals[0].frame).value)] else [])
      + Published(arrivals[1..], confirm)
  }

  // ---------------------------------------------------------------------------
  // The reader loop

  /** The `while let Some(result) = ws_receiver.next()` loop of `handle_connection`. */
  method HandleConnection(db: Database, bus: Channel, arrivals: seq<Arrival>, confirm: (int, string) -> bool)
    modifies db`messages, bus
    ensures db.messages == old(db.messages) + Stored(arrivals, confirm)
    ensures bus.published == old(bus.published) + Published(arrivals, confirm)
  {
    var i := 0;
    while i < |arrivals|
      invariant 0 <= i <= |arrivals|
      invariant old(db.messages) + Stored(arrivals, confirm) == db.messages + Stored(arrivals[i..], confirm)
      invariant old(bus.published) + Published(arrivals, confirm) == bus.published + Published(arrivals[i..], confirm)
    {
      var a := arrivals[i];
      assert arrivals[i..][0] == a && arrivals[i..][1..] == arrivals[i + 1..];
      if a.frame.ReadError? {
        break;
      }
      if a.frame.Text? && a.frame.doc.Some? {
        var parsed := Deserialize(a.frame.doc.value);
        if parsed.Success? {
          var message := parsed.value;
          var ok := a.confirmUp && confirm(message.userId, message.username);
          if ok {
            var saved := db.SaveMessage(message.userId, message.content, a.at, a.dbUp);
            ok := saved.Success?;
          }
          if ok {
            bus.Send(Serialize(message));
          }
        }
      }
      i := i + 1;
    }
  }

  // ---------------------------------------------------------------------------
  // What the reader loop promises

  /** Saves and broadcasts go together: the k-th broadcast is the k-th saved row, written with an
      empty `username` and that row's `content`; and every saved row carries `user_id` 0, the value
      the deserializer put there, never one the client sent. */
  lemma {:induction false} BroadcastsMatchSaves(arrivals: seq<Arrival>, confirm: (int, string) -> bool)
    ensures |Published(arrivals, confirm)| == |Stored(arrivals, confirm)|
    ensures forall k :: 0 <= k < |Stored(arrivals, confirm)| ==>
      && Stored(arrivals, confirm)[k].userId == 0
      && Published(arrivals, confirm)[k] == Outbound("", Stored(arrivals, confirm)[k].content)
  {
    if |arrivals| > 0 && !arrivals[0].frame.ReadError? {
      BroadcastsMatchSaves(arrivals[1..], confirm);
    }
  }

  /** The identity that gets confirmed is always `(0, "")`: only `confirm(0, "")` matters, whatever
      the confirmation does on any other pair, and whatever identity the frames claim. */
  lemma {:induction false} OnlyAnonymousIdentityConfirmed(arrivals: seq<Arrival>, confirm: (int, string) -> bool,
                                                          confirm': (int, string) -> bool)
    requires confirm(0, "") == confirm'(0, "")
    ensures Stored(arrivals, confirm) == Stored(arrivals, confirm')
    ensures Published(arrivals, confirm) == Published(arrivals, confirm')
  {
    if |arrivals| > 0 && !arrivals[0].frame.ReadError? {
      OnlyAnonymousIdentityConfirmed(arrivals[1..], confirm, confirm');
    }
  }

  /** So when `(0, "")` is not confirmed, nothing is ever saved or broadcast. */
  lemma {:induction false} RejectedAnonymousSilencesAll(arrivals: seq<Arrival>, confirm: (int, string) -> bool)
    requires !confirm(0, "")
    ensures Stored(arrivals, confirm) == [] && Published(arrivals, confirm) == []
  {
    if |arrivals| > 0 && !arrivals[0].frame.ReadError? {
      RejectedAnonymousSilencesAll(arrivals[1..], confirm);
    }
  }

  /** With the confirmation that src/tables/user_db.rs does define (`_confirm_user_id`, a lookup of the
      pair in `app_users`) over a table whose ids come from the auto-increment key, and so are
      positive (`Database.Valid`), no frame is ever saved or broadcast. */
  lemma TableConfirmSilencesAll(users: seq<UserRow>, arrivals: seq<Arrival>)
    requires forall u :: u in users ==> u.id > 0
    ensures var confirm := (id: int, name: string) => ConfirmUserId(users, id, name);
      Stored(arrivals, confirm) == [] && Published(arrivals, confirm) == []
  {
    var confirm := (id: int, name: string) => ConfirmUserId(users, id, name);
    assert !confirm(0, "");
    RejectedAnonymousSilencesAll(arrivals, confirm);
  }

  /** A frame that is not text, not JSON, or not a `ChatMessage`, or whose identity query or insert
      fails, has no effect, and the loop goes on with the frames after it as if it had not come. */
  lemma {:induction false} RejectedFrameSkipped(before: seq<Arrival>, a: Arrival, after: seq<Arrival>,
                                                confirm: (int, string) -> bool)
    requires !a.frame.ReadError? && !Accepted(a, confirm)
    ensures Stored(before + [a] + after, confirm) == Stored(before + after, confirm)
    ensures Published(before + [a] + after, confirm) == Published(before + after, confirm)
    decreases |before|
  {
    if |before| == 0 {
      assert (before + [a] + after)[1..] == after;
      assert before + after == after;
    } else {
      assert (before + [a] + after)[0] == before[0] && (before + after)[0] == before[0];
      assert (before + [a] + after)[1..] == before[1..] + [a] + after;
      assert (before + after)[1..] == before[1..] + after;
      RejectedFrameSkipped(before[1..], a, after, confirm);
    }
  }

  /** A receive error ends the connection's reader: nothing after it is handled. */
  lemma {:induction false} ReadErrorEndsLoop(before: seq<Arrival>, a: Arrival, after: seq<Arrival>,
                                             confirm: (int, string) -> bool)
    requires a.frame.ReadError?
    ensures Stored(before + [a] + after, confirm) == Stored(before, confirm)
    ensures Published(before + [a] + after, confirm) == Published(before, confirm)
    decreases |before|
  {
    if |before| > 0 {
      assert (before + [a] + after)[0] == before[0];
      assert (before + [a] + after)[1..] == before[1..] + [a] + after;
      ReadErrorEndsLoop(before[1..], a, after, confirm);
    }
  }

  /** Frames are handled in arrival order: when no read error comes first, the broadcasts of earlier
      frames precede those of later ones, and saves likewise. */
  lemma {:induction false} HandledInOrder(before: seq<Arrival>, after: seq<Arrival>, confirm: (int, string) -> bool)
    requires forall k :: 0 <= k < |before| ==> !before[k].frame.ReadError?
    ensures Stored(before + after, confirm) == Stored(before, confirm) + Stored(after, confirm)
    ensures Published(before + after, confirm) == Published(before, confirm) + Published(after, confirm)
    decreases |before|
  {
    if |before| == 0 {
      assert before + after == after;
    } else {
      assert (before + after)[0] == before[0];
      assert (before + after)[1..] == before[1..] + after;
      HandledInOrder(before[1..], after, confirm);
    }
  }

  /** The message a well-formed inbound frame yields when `(0, "")` is confirmed and the insert
      succeeds: one row `(0, content)` and one broadcast `{"username": "", "content": content}`,
      whichever token the frame carries. */
  lemma InboundFrameRelayed(sessionId: string, content: string, at: int, confirm: (int, string) -> bool)
    requires confirm(0, "")
    ensures var a := Arrival(Text(Some(Inbound(sessionId, content))), at, true, true);
      && Stored([a], confirm) == [MessageRow(0, content, at)]
      && Published([a], confirm) == [Outbound("", content)]
  {
    InboundDecodes(sessionId, content);
    var a := Arrival(Text(Some(Inbound(sessionId, content))), at, true, true);
    assert [a][1..] == [];
  }

  // ---------------------------------------------------------------------------
  // The reader loop with the identity resolved from the frame's session token on every message

  /** The author of a frame when its identity comes from its `session_id`: the token must be in
      the session cache and resolve, through `get_user_by_token` at the time the frame is
      handled, to a user; that query is the frame's identity query, and must reach the database. */
  function Resolve(a: Arrival, tokens: set<string>, users: seq<UserRow>, sessions: seq<SessionRow>): Option<UserRow> {
    var m := Parsed(a.frame);
    if m.Some? && m.value.sessionId.value in tokens && a.confirmUp && GetUserByToken(users, sessions, m.value.sessionId.value, a.at).Success?
    then Some(GetUserByToken(users, sessions, m.value.sessionId.value, a.at).value)
    else None
  }

  /** The row the corrected loop adds for one frame: one when its author resolves and its insert
      succeeds. */
  function ResolvedRow(a: Arrival, tokens: set<string>, users: seq<UserRow>, sessions: seq<SessionRow>)
    : seq<MessageRow>
  {
    var author := Resolve(a, tokens, users, sessions);
    if author.Some? && a.dbUp then [MessageRow(author.value.id, Parsed(a.frame).value.content, a.at)] else []
  }

  /** The payload the corrected loop publishes for one frame: the author's name and its content. */
  function ResolvedPayload(a: Arrival, tokens: set<string>, users: seq<UserRow>, sessions: seq<SessionRow>)
    : seq<Json>
  {
    var author := Resolve(a, tokens, users, sessions);
    if author.Some? && a.dbUp then [Outbound(author.value.username, Parsed(a.frame).value.content)] else []
  }

  /** The rows the corrected loop adds, up to the first read error. */
  function StoredResolved(arrivals: seq<Arrival>, tokens: set<string>, users: seq<UserRow>, sessions: seq<SessionRow>)
    : seq<MessageRow>
  {
    if |arrivals| == 0 || arrivals[0].frame.ReadError? then []
    else ResolvedRow(arrivals[0], tokens, users, sessions) + StoredResolved(arrivals[1..], tokens, users, sessions)
  }

  /** The payloads the corrected loop publishes, up to the first read error. */
  function PublishedResolved(arrivals: seq<Arrival>, tokens: set<string>, users: seq<UserRow>, sessions: seq<SessionRow>)
    : seq<Json>
  {
    if |arrivals| == 0 || arrivals[0].frame.ReadError? then []
    else ResolvedPayload(arrivals[0], tokens, users, sessions) + PublishedResolved(arrivals[1..], tokens, users, sessions)
  }

  /** The reader loop with `confirm_user_id(0, "")` replaced by a per-message session check: the
      cache must hold the frame's `session_id`, `get_user_by_token` must resolve it, and the saved
      row and the broadcast carry that user's id and name. */
  method HandleConnectionResolved(db: Database, cache: SessionCache, bus: Channel, arrivals: seq<Arrival>)
    modifies db`messages, bus
    ensures db.messages == old(db.messages) + StoredResolved(arrivals, cache.tokens, db.users, db.sessions)
    ensures bus.published == old(bus.published) + PublishedResolved(arrivals, cache.tokens, db.users, db.sessions)
  {
    var tokens, users, sessions := cache.tokens, db.users, db.sessions;
    var i := 0;
    assert arrivals[i..] == arrivals;
    while i < |arrivals|
      invariant 0 <= i <= |arrivals|
      invariant db.users == users && db.sessions == sessions
      invariant old(db.messages) + StoredResolved(arrivals, tokens, users, sessions)
             == db.messages + StoredResolved(arrivals[i..], tokens, users, sessions)
      invariant old(bus.published) + PublishedResolved(arrivals, tokens, users, sessions)
             == bus.published + PublishedResolved(arrivals[i..], tokens, users, sessions)
    {
      var a := arrivals[i];
      if a.frame.ReadError? {
        assert arrivals[i..][0] == a;
        break;
      }
      assert arrivals[i..][0] == a && arrivals[i..][1..] == arrivals[i + 1..];
      ghost var messages, published := db.messages, bus.published;
      HandleResolvedFrame(db, bus, a, tokens, users, sessions);
      Advance(old(db.messages), StoredResolved(arrivals, tokens, users, sessions), messages,
              ResolvedRow(a, tokens, users, sessions), StoredResolved(arrivals[i + 1..], tokens, users, sessions));
      Advance(old(bus.published), PublishedResolved(arrivals, tokens, users, sessions), published,
              ResolvedPayload(a, tokens, users, sessions), PublishedResolved(arrivals[i + 1..], tokens, users, sessions));
      i := i + 1;
    }
  }

  /** One step of a loop that appends to a log what a specification function lists. */
  lemma Advance<T>(start: seq<T>, all: seq<T>, log: seq<T>, step: seq<T>, rest: seq<T>)
    requires start + all == log + (step + rest)
    ensures start + all == (log + step) + rest
  {
  }

  /** The corrected loop's work on one frame: resolve its author, then save the message under the
      author's id and name and publish it when the insert succeeds. */
  method HandleResolvedFrame(db: Database, bus: Channel, a: Arrival,
                             tokens: set<string>, users: seq<UserRow>, sessions: seq<SessionRow>)
    modifies db`messages, bus
    ensures db.messages == old(db.messages) + ResolvedRow(a, tokens, users, sessions)
    ensures bus.published == old(bus.published) + ResolvedPayload(a, tokens, users, sessions)
  {
    var author := Resolve(a, tokens, users, sessions);
    if author.Some? {
      var message := Parsed(a.frame).value.(userId := author.value.id, username := author.value.username);
      var saved := db.SaveMessage(message.userId, message.content, a.at, a.dbUp);
      if saved.Success? {
        bus.Send(Serialize(message));
      }
    }
  }

  /** Whether `payload` is the broadcast of `row` under its author's name. */
  predicate NamesAuthor(users: seq<UserRow>, row: MessageRow, payload: Json) {
    exists u :: u in users && u.id == row.userId && payload == Outbound(u.username, row.content)
  }

  /** The corrected loop broadcasts exactly what it saves, and each broadcast names the user whose
      row it saved, whatever identity the frame claimed. */
  lemma {:induction false} ResolvedBroadcastsNameTheirAuthor(arrivals: seq<Arrival>, tokens: set<string>,
                                                             users: seq<UserRow>, sessions: seq<SessionRow>)
    ensures var stored := StoredResolved(arrivals, tokens, users, sessions);
      var published := PublishedResolved(arrivals, tokens, users, sessions);
      && |published| == |stored|
      && forall k :: 0 <= k < |stored| ==> NamesAuthor(users, stored[k], published[k])
  {
    if |arrivals| > 0 && !arrivals[0].frame.ReadError? {
      ResolvedBroadcastsNameTheirAuthor(arrivals[1..], tokens, users, sessions);
      var author := Resolve(arrivals[0], tokens, users, sessions);
      if author.Some? && arrivals[0].dbUp {
        var row := MessageRow(author.value.id, Parsed(arrivals[0].frame).value.content, arrivals[0].at);
        assert NamesAuthor(users, row, Outbound(author.value.username, row.content));
      }
    }
  }

  /** A frame whose token the cache does not hold is neither saved nor broadcast. */
  lemma UncachedTokenSilent(a: Arrival, tokens: set<string>, users: seq<UserRow>, sessions: seq<SessionRow>)
    requires Parsed(a.frame).Some? && Parsed(a.frame).value.sessionId.value !in tokens
    ensures StoredResolved([a], tokens, users, sessions) == []
    ensures PublishedResolved([a], tokens, users, sessions) == []
  {
    assert [a][1..] == [];
  }

  /** The corrected loop on a well-formed inbound frame whose cached token resolves to `user`:
      one row with that user's id and one broadcast `{"username": user.username, "content": content}`. */
  lemma ResolvedFrameRelayed(sessionId: string, content: string, at: int, tokens: set<string>,
                             users: seq<UserRow>, sessions: seq<SessionRow>, user: UserRow)
    requires sessionId in tokens && GetUserByToken(users, sessions, sessionId, at) == Success(user)
    ensures var a := Arrival(Text(Some(Inbound(sessionId, content))), at, true, true);
      && StoredResolved([a], tokens, users, sessions) == [MessageRow(user.id, content, at)]
      && PublishedResolved([a], tokens, users, sessions) == [Outbound(user.username, content)]
  {
    InboundDecodes(sessionId, content);
    var a := Arrival(Text(Some(Inbound(sessionId, content))), at, true, true);
    assert [a][1..] == [];
  }

  // ---------------------------------------------------------------------------
  // The writer loop

  /** One item of `rx.recv()`, with whether writing it to the client socket then succeeds.
      `RecvFailed` is the channel closing or this receiver lagging behind. */
  datatype Delivery = Delivered(payload: Json, written: bool) | RecvFailed

  /** The spawned writer: it forwards each received payload unchanged as a text frame, and stops at the
      first receive error or the first failed write. Answers the payloads written. */
  method ForwardBroadcasts(deliveries: seq<Delivery>) returns (sent: seq<Json>)
    ensures |sent| <= |deliveries|
    ensures forall k :: 0 <= k < |sent| ==> deliveries[k] == Delivered(sent[k], true)
    ensures |sent| < |deliveries| ==> deliveries[|sent|].RecvFailed? || !deliveries[|sent|].written
  {
    sent := [];
    var i := 0;
    while i < |deliveries|
      invariant i == |sent| <= |deliveries|
      invariant forall k :: 0 <= k < i ==> deliveries[k] == Delivered(sent[k], true)
    {
      match deliveries[i] {
        case RecvFailed =>
          break;
        case Delivered(payload, written) =>
          if !written {
            break;
          }
          sent := sent + [payload];
      }
      i := i + 1;
    }
  }
}
