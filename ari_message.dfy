/** AriMessage: an event received on the event socket, a JSON object, and its `type` discriminant. */
module AriMessage {
  import opened Wrappers
  import opened Text

  /** A JSON value as Jackson's tree model holds it. Number nodes are kept as their literal text. */
  datatype Json =
    | JNull
    | JBool(truth: bool)
    | JNumber(literal: string)
    | JString(text: string)
    | JArray(items: seq<Json>)
    | JObject(fields: map<string, Json>)

  /** What `ObjectNode.path(key)` returns: the member's value, or the missing node. */
  datatype Node = Missing | Present(value: Json)

  /** `record AriMessage(ObjectNode properties)`. */
  datatype Message = Message(properties: map<string, Json>)

  function Path(properties: map<string, Json>, key: string): (n: Node)
    ensures n.Present? <==> key in properties
    ensures n.Present? ==> n.value == properties[key]
  {
    if key in properties then Present(properties[key]) else Missing
  }

  /** `JsonNode.textValue()`: the text of a string node, null for every other node. */
  function TextValue(n: Node): (r: Option<string>)
    ensures r.Some? <==> n.Present? && n.value.JString?
    ensures r.Some? ==> n.value == JString(r.value)
  {
    match n
    case Present(JString(s)) => Some(s)
    case _ => None
  }

  /** `type()`: the text of the `type` member when it is a string; absent when there is no `type`
      member or it holds a number, boolean, object, array or null. */
  function Type(m: Message): (r: Option<string>)
    ensures "type" in m.properties && m.properties["type"].JString? ==> r == Some(m.properties["type"].text)
    ensures "type" !in m.properties ==> r == None
    ensures "type" in m.properties && !m.properties["type"].JString? ==> r == None
  {
    TextValue(Path(m.properties, "type"))
  }

  /** The type depends on the `type` member alone: changing or removing any other member leaves it. */
  lemma TypeIgnoresOtherMembers(m: Message, key: string, value: Json)
    requires key != "type"
    ensures Type(Message(m.properties[key := value])) == Type(m)
    ensures Type(Message(m.properties - {key})) == Type(m)
  {
    assert "type" in m.properties[key := value] <==> "type" in m.properties;
    assert "type" in m.properties ==> m.properties[key := value]["type"] == m.properties["type"];
    assert "type" in m.properties - {key} <==> "type" in m.properties;
  }

  /** How `String.format("%s", …)` shows the type: null when absent, so an absent type and a
      type whose text is `null` show alike. */
  function ShowType(t: Option<string>): (r: string)
    ensures t.Some? ==> r == t.value
    ensures r == "null" <==> t == None || t == Some("null")
  {
    match t
    case None => "null"
    case Some(s) => s
  }

  /** `toString()`: `[type]: properties`, where `serialize` stands for Jackson's rendering of the
      object, which is not modelled. */
  function ToString(m: Message, serialize: map<string, Json> -> string): (r: string)
    ensures |r| == 4 + |ShowType(Type(m))| + |serialize(m.properties)|
    ensures r[0] == '['
    ensures r[1..1 + |ShowType(Type(m))|] == ShowType(Type(m))
    ensures r[1 + |ShowType(Type(m))|..4 + |ShowType(Type(m))|] == "]: "
    ensures r[|r| - |serialize(m.properties)|..] == serialize(m.properties)
  {
    "[" + ShowType(Type(m)) + "]: " + serialize(m.properties)
  }

  /** The type can be read back from the text before the first `]`, as long as it holds no `]`. */
  lemma ToStringShowsType(m: Message, serialize: map<string, Json> -> string)
    requires ']' !in ShowType(Type(m))
    ensures Split(ToString(m, serialize), ']')[0] == "[" + ShowType(Type(m))
  {
    var shown := ShowType(Type(m));
    assert ']' !in "[" + shown;
    assert ToString(m, serialize) == ("[" + shown) + [']'] + (": " + serialize(m.properties));
    SplitFirst("[" + shown, ": " + serialize(m.properties), ']');
  }
}
