/** The JSON data model that serde_json parses text into and prints text from. Turning text into a
    value and back is the JSON library's business; the chat code only ever sees values. */
module JsonValue {

  datatype Json =
    | JNull
    | JBool(b: bool)
    | JNumber(literal: string)
    | JString(text: string)
    | JArray(items: seq<Json>)
    | JObject(members: seq<(string, Json)>)

  /** How many members of an object carry the key `key`. */
  function Count(members: seq<(string, Json)>, key: string): nat {
    if |members| == 0 then 0
    else (if members[0].0 == key then 1 else 0) + Count(members[1..], key)
  }

  /** The value of the first member with key `key`, if any. */
  function Lookup(members: seq<(string, Json)>, key: string): (v: Json)
    requires Count(members, key) > 0
  {
    if members[0].0 == key then members[0].1 else Lookup(members[1..], key)
  }

  /** The keys of an object's members, in order. */
  function Keys(members: seq<(string, Json)>): (keys: seq<string>)
    ensures |keys| == |members|
    ensures forall k :: 0 <= k < |members| ==> keys[k] == members[k].0
  {
    if |members| == 0 then [] else [members[0].0] + Keys(members[1..])
  }
}
