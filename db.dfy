/** `ChatMessage` and its hand-written wire format (src/db.rs).

    The struct has six fields, but the two directions of its JSON form are deliberately lopsided:
    reading a frame keeps only `session_id` and `content` and resets every identity field, and
    writing a message emits only `username` and `content`. */
module Db {
  import opened Wrappers
  import opened JsonValue

  /** One chat message. Times are seconds; `message_id` (i64) and `user_id` (i32) are unbounded here. */
  datatype ChatMessage = ChatMessage(
    messageId: int,
    userId: int,
    username: string,
    content: string,
    createdAt: Option<int>,
    sessionId: Option<string>)

  /** Why serde rejects a frame as a `ChatMessage`. */
  datatype DecodeError =
    | InvalidType
    | InvalidLength(length: nat)
    | MissingField(field: string)
    | DuplicateField(field: string)

  const SessionIdKey: string := "session_id"
  const ContentKey: string := "content"

  // ---------------------------------------------------------------------------
  // Deserialize: the derived deserializer of the private `RawChatMessage { session_id, content }`

  /** The derived struct visitor over an object's members: it remembers the first `session_id` and
      `content`, each of which must be a string and may appear only once, skips every other key
      whatever its value, and at the end reports the first missing field. */
  function DecodeMembers(members: seq<(string, Json)>, sessionId: Option<string>, content: Option<string>)
    : Result<(string, string), DecodeError>
  {
    if |members| == 0 then
      if sessionId.None? then Failure(MissingField(SessionIdKey))
      else if content.None? then Failure(MissingField(ContentKey))
      else Success((sessionId.value, content.value))
    else
      var (key, value) := members[0];
      if key == SessionIdKey then
        if sessionId.Some? then Failure(DuplicateField(SessionIdKey))
        else if !value.JString? then Failure(InvalidType)
        else DecodeMembers(members[1..], Some(value.text), content)
      else if key == ContentKey then
        if content.Some? then Failure(DuplicateField(ContentKey))
        else if !value.JString? then Failure(InvalidType)
        else DecodeMembers(members[1..], sessionId, Some(value.text))
      else
        DecodeMembers(members[1..], sessionId, content)
  }

  /** The derived sequence visitor: a struct may also be written as the array of its fields, in
      declaration order, with nothing after them. */
  function DecodeElements(items: seq<Json>): Result<(string, string), DecodeError> {
    if |items| == 0 then Failure(InvalidLength(0))
    else if !items[0].JString? then Failure(InvalidType)
    else if |items| == 1 then Failure(InvalidLength(1))
    else if !items[1].JString? then Failure(InvalidType)
    else if |items| > 2 then Failure(InvalidLength(|items|))
    else Success((items[0].text, items[1].text))
  }

  /** `serde_json::from_str::<ChatMessage>` on a parsed frame. */
  function Deserialize(doc: Json): (r: Result<ChatMessage, DecodeError>)
    ensures r.Success? ==>
      && r.value.messageId == 0 && r.value.userId == 0 && r.value.username == ""
      && r.value.createdAt.None? && r.value.sessionId.Some?
  {
    var raw :=
      match doc
      case JObject(members) => DecodeMembers(members, None, None)
      case JArray(items) => DecodeElements(items)
      case _ => Failure(InvalidType);
    match raw
    case Failure(e) => Failure(e)
    case Success((sessionId, content)) => Success(ChatMessage(0, 0, "", content, None, Some(sessionId)))
  }

  // ---------------------------------------------------------------------------
  // Serialize: the derived serializer of the private `SerializedChatMessage { username, content }`

  /** `serde_json::to_string(&message)`, as a value: an object with `username` then `content`. */
  function Serialize(m: ChatMessage): (doc: Json)
    ensures doc.JObject? && Keys(doc.members) == ["username", "content"]
  {
    JObject([("username", JString(m.username)), ("content", JString(m.content))])
  }

  // ---------------------------------------------------------------------------
  // The two wire forms: what a client sends and what every subscriber receives

  /** The inbound frame a client is meant to send. */
  function Inbound(sessionId: string, content: string): Json {
    JObject([(SessionIdKey, JString(sessionId)), (ContentKey, JString(content))])
  }

  /** The outbound frame every subscriber receives, written out as a reference for `Serialize`;
      `SerializeProjects` proves that `Serialize` produces exactly this form. */
  function Outbound(username: string, content: string): Json {
    JObject([("username", JString(username)), ("content", JString(content))])
  }

  // ---------------------------------------------------------------------------
  // Properties

  /** Whether the members hold exactly one `key`, and its value is a string. */
  predicate OneString(members: seq<(string, Json)>, key: string) {
    Count(members, key) == 1 && Lookup(members, key).JString?
  }

  /** A slot of the struct visitor is fine when it was filled already and the key does not come
      again, or it is still empty and the key comes exactly once, with a string. */
  predicate SlotFits(members: seq<(string, Json)>, key: string, slot: Option<string>) {
    if slot.Some? then Count(members, key) == 0 else OneString(members, key)
  }

  lemma {:induction false} DecodeMembersExactly(members: seq<(string, Json)>, sessionId: Option<string>, content: Option<string>)
    ensures var r := DecodeMembers(members, sessionId, content);
      && (r.Success? <==> SlotFits(members, SessionIdKey, sessionId) && SlotFits(members, ContentKey, content))
      && (r.Success? ==>
            && r.value.0 == (if sessionId.Some? then sessionId.value else Lookup(members, SessionIdKey).text)
            && r.value.1 == (if content.Some? then content.value else Lookup(members, ContentKey).text))
    decreases |members|
  {
    if |members| > 0 {
      DecodeMembersExactly(members[1..], if members[0].0 == SessionIdKey && members[0].1.JString? then Some(members[0].1.text) else sessionId,
                                        if members[0].0 == ContentKey && members[0].1.JString? then Some(members[0].1.text) else content);
    }
  }

  /** An object frame is accepted exactly when it carries `session_id` and `content` once each, both
      as strings; the message then has that `session_id` and that `content`, verbatim. */
  lemma DeserializeObject(members: seq<(string, Json)>)
    ensures var r := Deserialize(JObject(members));
      && (r.Success? <==> OneString(members, SessionIdKey) && OneString(members, ContentKey))
      && (r.Success? ==>
            r.value == ChatMessage(0, 0, "", Lookup(members, ContentKey).text, None,
                                   Some(Lookup(members, SessionIdKey).text)))
  {
    DecodeMembersExactly(members, None, None);
  }

  /** An array frame is accepted exactly when it is two strings, read as `[session_id, content]`;
      anything that is neither an object nor an array is rejected. */
  lemma DeserializeOtherForms(doc: Json)
    requires !doc.JObject?
    ensures Deserialize(doc).Success? <==>
      doc.JArray? && |doc.items| == 2 && doc.items[0].JString? && doc.items[1].JString?
    ensures Deserialize(doc).Success? ==>
      Deserialize(doc).value == ChatMessage(0, 0, "", doc.items[1].text, None, Some(doc.items[0].text))
  {
  }

  /** The members a client may legitimately set; everything else is skipped unread. */
  function Relevant(members: seq<(string, Json)>): (kept: seq<(string, Json)>)
    ensures forall k :: 0 <= k < |kept| ==> kept[k].0 == SessionIdKey || kept[k].0 == ContentKey
  {
    if |members| == 0 then []
    else if members[0].0 == SessionIdKey || members[0].0 == ContentKey then [members[0]] + Relevant(members[1..])
    else Relevant(members[1..])
  }

  lemma {:induction false} DecodeMembersIgnoresOthers(members: seq<(string, Json)>, sessionId: Option<string>, content: Option<string>)
    ensures DecodeMembers(members, sessionId, content) == DecodeMembers(Relevant(members), sessionId, content)
    decreases |members|
  {
    if |members| > 0 {
      var rest := Relevant(members[1..]);
      if members[0].0 == SessionIdKey || members[0].0 == ContentKey {
        assert ([members[0]] + rest)[0] == members[0];
        assert ([members[0]] + rest)[1..] == rest;
        var v := members[0].1;
        DecodeMembersIgnoresOthers(members[1..], if members[0].0 == SessionIdKey && v.JString? then Some(v.text) else sessionId,
                                                 if members[0].0 == ContentKey && v.JString? then Some(v.text) else content);
      } else {
        DecodeMembersIgnoresOthers(members[1..], sessionId, content);
      }
    }
  }

  /** Forged identity: whatever `user_id`, `username`, `message_id` or other members a frame carries,
      and whatever their values, the decoded message is the one decoded without them. */
  lemma ForgedFieldsIgnored(members: seq<(string, Json)>)
    ensures Deserialize(JObject(members)) == Deserialize(JObject(Relevant(members)))
  {
    DecodeMembersIgnoresOthers(members, None, None);
  }

  /** The inbound wire form decodes to a message that carries its token and its content and
      nothing else. */
  lemma InboundDecodes(sessionId: string, content: string)
    ensures Deserialize(Inbound(sessionId, content)) == Success(ChatMessage(0, 0, "", content, None, Some(sessionId)))
  {
    var ms := Inbound(sessionId, content).members;
    assert ms[1..][1..] == [];
    assert SessionIdKey != ContentKey;
    assert DecodeMembers(ms, None, None) == DecodeMembers(ms[1..], Some(sessionId), None);
    assert DecodeMembers(ms[1..], Some(sessionId), None) == DecodeMembers(ms[1..][1..], Some(sessionId), Some(content));
  }

  /** Writing a message emits its `username` and `content` and nothing else: two messages that agree
      on those two fields are written identically, whatever their ids, times and tokens. */
  lemma SerializeProjects(m: ChatMessage, m': ChatMessage)
    ensures Serialize(m) == Outbound(m.username, m.content)
    ensures Serialize(m) == Serialize(m') <==> m.username == m'.username && m.content == m'.content
  {
  }

  /** Reading then writing a frame gives an empty `username` and the frame's `content`. */
  lemma DeserializeThenSerialize(doc: Json)
    requires Deserialize(doc).Success?
    ensures Serialize(Deserialize(doc).value) == Outbound("", Deserialize(doc).value.content)
  {
  }

  /** What is written cannot be read back: it has no `session_id`, so the two directions are not
      inverses. */
  lemma SerializedNeverDeserializes(m: ChatMessage)
    ensures Deserialize(Serialize(m)) == Failure(MissingField(SessionIdKey))
  {
    var ms := Serialize(m).members;
    assert ms[1..][1..] == [];
    assert "username" != SessionIdKey && "username" != ContentKey;
    assert DecodeMembers(ms, None, None) == DecodeMembers(ms[1..], None, None);
    assert DecodeMembers(ms[1..], None, None) == DecodeMembers(ms[1..][1..], None, Some(m.content));
  }
}
