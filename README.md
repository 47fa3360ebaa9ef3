# astasis: outbound command addressing and event discriminant

A Dafny model of the request-building side of astasis, a Java client for the Asterisk REST
Interface (ARI). Each channel command is a record carrying a path, a map of query arguments and
(for POST) a body publisher. The client turns a command into an HTTP request: the path as given, a
query string of percent-escaped `key=value` pairs joined with `&`, a fixed 3-second timeout and,
for POST, a JSON content type. Channel ids are placed in paths through a path-segment escaper. Events
arriving on the event socket are JSON objects, classified by their `type` member.

Modules, one per source file plus the helpers they rest on:

- `Wrappers`: `Option` and `Result`.
- `Text`: splitting and joining at a separator, counting, decimal numerals (`Integer.toString`) and
  their parser.
- `Utf8`: the UTF-8 encoder (RFC 3629) Guava's escapers apply to unsafe characters, with a decoder
  and the proof that decoding inverts encoding.
- `PercentEscaping`: one escaper `Escape(Escaper(safeChars, plusForSpace), s)` in the manner of
  Guava's `PercentEscaper`, its decoder `Unescape`, and the proof `Unescape(e, Escape(e, s)) == Some(s)`
  for every valid configuration and every string.
- `AriClient`: the query escaper, `makeUri`'s query string, the two command records and the two
  `invoke` overloads as functions from a command to a request descriptor.
- `AriCommands`: the path-segment escaper and every factory of `AriCommands.Channels`.
- `AriMessage`: a JSON value type, `type()` and `toString()`.

The order in which `Map.entrySet()` is iterated is not specified in the source, so the query string
is a function of the argument map and an `order` parameter listing each key once; the properties
about it hold for every such order and recover the arguments as a set of pairs.

## Model

| member | source | states |
|---|---|---|
| `PercentEscaping.Escape` | lib/src/main/java/astasis/AriClient.java:25 | every character of an escaped string is a safe character, `%`, or (when spaces are written `+`) `+`; the output is never shorter than the input |
| `PercentEscaping.EscapeSafe` | lib/src/main/java/astasis/AriClient.java:25 | a string made only of safe characters is its own escape |
| `PercentEscaping.EscapeAsciiOctet` | lib/src/main/java/astasis/AriClient.java:25 | an unsafe ASCII character other than a space written `+` becomes `%` and two uppercase hexadecimal digits of its code |
| `PercentEscaping.UnescapeEscape` | lib/src/main/java/astasis/AriClient.java:25 | for a valid configuration, unescaping an escaped string gives back exactly the original string, non-ASCII characters included |
| `PercentEscaping.EscapeInjective` | lib/src/main/java/astasis/AriClient.java:25 | distinct strings escape to distinct strings |
| `Utf8.Decode` | lib/src/main/java/astasis/AriClient.java:25 | whatever the decoder accepts re-encodes to exactly the octets it was given |
| `Utf8.DecodeEncode` | lib/src/main/java/astasis/AriClient.java:25 | decoding the UTF-8 octets of any string gives the string back |
| `AriClient.QueryEscaperValid` | lib/src/main/java/astasis/AriClient.java:25 | the query escaper (the constant `AriClient.QueryEscaper`, safe set ``_-!.~'()*,;:$?/[]@``, spaces written `+`) is a valid configuration: neither `%`, the space nor `+` is safe in it |
| `AriClient.QueryEscapeSafe` | lib/src/main/java/astasis/AriClient.java:25 | the query escaper leaves any string of ASCII letters, digits and ``_-!.~'()*,;:$?/[]@`` unchanged |
| `AriClient.QueryEscapeSpaceAndPlus` | lib/src/main/java/astasis/AriClient.java:25 | in the query a space is written `+` and a `+` is written `%2B` |
| `AriClient.QueryEscapeReserved` | lib/src/main/java/astasis/AriClient.java:25 | each of `+ & = % #` becomes `%` followed by two uppercase hexadecimal digits |
| `AriClient.QueryEscapeAscii` | lib/src/main/java/astasis/AriClient.java:25 | every other unsafe ASCII character but the space becomes a single `%XY` |
| `AriClient.QueryEscapeNoDelimiters` | lib/src/main/java/astasis/AriClient.java:25 | an escaped key or value never contains `&` or `=` |
| `AriClient.MakeQuery` | lib/src/main/java/astasis/AriClient.java:42 | the escaped `key=value` pieces joined with `&`: splitting it at `&`, each piece at `=`, and unescaping both halves yields exactly the set of the map's (key, value) pairs, for every iteration order; it is empty exactly when the map is, and otherwise holds one `&` fewer than there are arguments |
| `AriClient.JoinedEntriesRoundTrip` | lib/src/main/java/astasis/AriClient.java:36-48 | the proof behind `MakeQuery`'s round trip: splitting the query at `&`, each piece at `=`, and unescaping both halves yields exactly the set of the map's (key, value) pairs, for every iteration order |
| `AriClient.JoinedEntriesSeparators` | lib/src/main/java/astasis/AriClient.java:42 | the proof behind `MakeQuery`'s shape: the joined pieces are empty exactly when the map is, and otherwise hold exactly one `&` fewer than there are arguments |
| `AriClient.InvokeDelete` | lib/src/main/java/astasis/AriClient.java:58-66 | a DELETE on the command's path, no headers, no body, 3-second timeout; its query decodes to exactly the command's arguments and is empty exactly when there are none |
| `AriClient.InvokePost` | lib/src/main/java/astasis/AriClient.java:69-78 | a POST on the command's path with the single header `content-type: application/json;charset=utf-8`, the command's body publisher and a 3-second timeout; its query decodes to exactly the command's arguments |
| `Text.Decimal` | lib/src/main/java/astasis/AriCommands.java:136 | `Integer.toString`'s numeral: a `-` exactly for negative values, then only digits, with no leading zero, and zero written `0` |
| `Text.DecimalRoundTrip` | lib/src/main/java/astasis/AriCommands.java:136 | reading back the decimal numeral `Integer.toString` writes gives the integer, negative values included |
| `AriCommands.SegmentDelimitersUnsafe` | lib/src/main/java/astasis/AriCommands.java:135 | under the path-segment escaper (the constant `AriCommands.PathSegmentEscaper`, safe set ``-._~!$&'()*+,;=:@``, spaces written `%20`) none of `/`, `?`, `#` is safe |
| `AriCommands.EscapeSegment` | lib/src/main/java/astasis/AriCommands.java:135 | the path-segment escape of an id contains no `/`, `?` or `#` |
| `AriCommands.SegmentRecoversId` | lib/src/main/java/astasis/AriCommands.java:135 | unescaping the path segment gives back the channel id, for any id |
| `AriCommands.ChannelPath` | lib/src/main/java/astasis/AriCommands.java:135 | `channels/{escaped id}/{suffix}` splits at `/` into `channels`, the escaped id and then the segments of the suffix |
| `AriCommands.ChannelPathSegments` | lib/src/main/java/astasis/AriCommands.java:135 | `channels/{escaped id}/{suffix}` splits at `/` into exactly `channels`, the escaped id and the suffix |
| `AriCommands.Create` | lib/src/main/java/astasis/AriCommands.java:64-73 | a POST command to the fixed path `channels/create` with no arguments, the parameters in the body |
| `AriCommands.Originate` | lib/src/main/java/astasis/AriCommands.java:112-119 | a POST command to the fixed path `channels` with no arguments, the parameters in the body |
| `AriCommands.CreateCarriesNoQuery` | lib/src/main/java/astasis/AriCommands.java:68-72 | the request for `create` has an empty query and carries its parameters only in the body |
| `AriCommands.OriginateCarriesNoQuery` | lib/src/main/java/astasis/AriCommands.java:114-118 | the request for `originate` has an empty query and carries its parameters only in the body |
| `AriCommands.Dial` | lib/src/main/java/astasis/AriCommands.java:133-139 | path segments `channels`, escaped id, `dial`, with the id recoverable; arguments exactly `caller` (the caller) and `timeout`, whose text is the decimal numeral `Integer.toString` writes for the timeout and parses back to it; no body |
| `AriCommands.SetChannelVar` | lib/src/main/java/astasis/AriCommands.java:157-164 | fails exactly when the value is absent; otherwise path segments `channels`, escaped id, `variable`, and arguments exactly `variable` and `value` with the given texts |
| `AriCommands.Answer` | lib/src/main/java/astasis/AriCommands.java:166-172 | path segments `channels`, escaped id, `answer`, id recoverable; no arguments, no body |
| `AriCommands.Ring` | lib/src/main/java/astasis/AriCommands.java:174-180 | path segments `channels`, escaped id, `ring`, id recoverable; no arguments, no body |
| `AriCommands.RingStop` | lib/src/main/java/astasis/AriCommands.java:182-187 | a DELETE command on the same three segments as `ring`, no arguments |
| `AriCommands.Hold` | lib/src/main/java/astasis/AriCommands.java:189-195 | path segments `channels`, escaped id, `hold`, id recoverable; no arguments, no body |
| `AriCommands.Unhold` | lib/src/main/java/astasis/AriCommands.java:197-202 | a DELETE command on the same three segments as `hold`, no arguments |
| `AriCommands.StartMoh` | lib/src/main/java/astasis/AriCommands.java:204-210 | path segments `channels`, escaped id, `moh`, id recoverable; no arguments, no body |
| `AriCommands.StopMoh` | lib/src/main/java/astasis/AriCommands.java:212-217 | a DELETE command on the same three segments as `startMoh`, no arguments |
| `AriCommands.StartSilence` | lib/src/main/java/astasis/AriCommands.java:219-225 | path segments `channels`, escaped id, `silence`, id recoverable; no arguments, no body |
| `AriCommands.StopSilence` | lib/src/main/java/astasis/AriCommands.java:227-232 | a DELETE command on the same three segments as `startSilence`, no arguments |
| `AriCommands.StopMirrorsStart` | lib/src/main/java/astasis/AriCommands.java:174-232 | for each of ring, hold, music on hold and silence, the stop request has the start request's path, DELETE instead of POST, an empty query and no body |
| `AriCommands.PlayWithId` | lib/src/main/java/astasis/AriCommands.java:250-257 | the path splits into `channels`, the escaped channel id, `play` and then the segments of the playback id as given, the channel id recoverable from the second segment; when the playback id has no `/` that is exactly four segments; the path ends with the playback id; the arguments are the converted parameter map |
| `AriCommands.Hangup` | lib/src/main/java/astasis/AriCommands.java:259-264 | a DELETE command on the two segments `channels` and the escaped id, id recoverable; arguments exactly `reason` |
| `AriCommands.SetChannelVarRejectsAbsentValue` | lib/src/main/java/astasis/AriCommands.java:161 | an absent value makes the factory fail instead of building a command |
| `AriCommands.SetChannelVarOmittingAbsent` | lib/src/main/java/astasis/AriCommands.java:161 | always builds the command; sends `value` exactly when a value is present, and agrees with `setChannelVar` whenever that succeeds |
| `AriCommands.PlaybackIdAddsSegment` | lib/src/main/java/astasis/AriCommands.java:253 | a playback id `a/b` splits the path into five segments, the last two `a` and `b` |
| `AriCommands.PlayWithIdEscaped` | lib/src/main/java/astasis/AriCommands.java:253 | with both ids escaped the path always has four segments and both ids unescape back; it equals `playWithId`'s path whenever the playback id is made of safe characters |
| `AriMessage.Path` | lib/src/main/java/astasis/AriMessage.java:8 | the member's value exactly when the key is present, the missing node otherwise |
| `AriMessage.TextValue` | lib/src/main/java/astasis/AriMessage.java:8 | yields text exactly for a present string node, and then that node's text |
| `AriMessage.Type` | lib/src/main/java/astasis/AriMessage.java:7-9 | the `type` member's text when it is a JSON string; absent when there is no `type` member or it is a number, boolean, object, array or null |
| `AriMessage.TypeIgnoresOtherMembers` | lib/src/main/java/astasis/AriMessage.java:8 | changing or removing any member other than `type` leaves the type unchanged |
| `AriMessage.ShowType` | lib/src/main/java/astasis/AriMessage.java:12 | a present type is shown as its text, an absent one as `null`, so the shown text is `null` exactly when the type is absent or is the text `null` |
| `AriMessage.ToString` | lib/src/main/java/astasis/AriMessage.java:11-13 | the text opens with `[`, then the type (or `null`), then `]: `, then the serialized properties, and nothing else |
| `AriMessage.ToStringShowsType` | lib/src/main/java/astasis/AriMessage.java:12 | when the shown type holds no `]`, the text before the first `]` is `[` followed by the shown type |

## Left out

- RxWebSocket.java (the event socket adapter) is not part of this model. It keeps no demand counter
  or subscription state of its own: `request(n)` forwards to the socket, the listener callbacks
  forward to the subscriber, and acquisition is `Single.using`; its behaviour is that of the Java
  WebSocket and RxJava libraries, and of concurrency, which the model does not describe.
- JSON parsing and serialization by Jackson: decoding frames into objects, the bodies of `create`
  and `originate` (`Body` carries the parameter record; its JSON text is not modelled), and
  `ObjectNode.toString` (a parameter of `ToString`). Member order of JSON objects is not kept.
- PlayWithId: the argument map `convertValue` derives from the parameters is a parameter of the
  model, not computed.
- `java.net.URI` construction and `base.resolve`: the model stops at the path and query handed to
  the `URI` constructor. That constructor quotes `%` again, so the escapes the model produces reach
  the wire as `%25XY`; the model does not capture this.
- Sending (`client.sendAsync`), the `POST` and `GET` helpers, response body handlers (every command
  uses `BodyHandlers.ofString()`), and logging.
- The Immutables builders: parameter records are plain datatypes built from their fields.
- Guava's escapers are not shown; their safe sets follow their documentation. A Java string with an
  unpaired surrogate (on which Guava throws) cannot be written as a Dafny string, so that failure
  is not modelled. Null arguments (`Map.of` and the escapers throw on them) are not modelled,
  except the absent `value` of `setChannelVar`.
- `Map.of`'s iteration order is not fixed: query strings take the order as a parameter.

## Findings

| source | as written | input that shows it | evidently intended | confidence | as-written member | corrected member |
|---|---|---|---|---|---|---|
| lib/src/main/java/astasis/AriCommands.java:161 | `Map.of(..., "value", params.value().orElse(null))` throws `NullPointerException` whenever the optional value is absent | `setChannelVar` with a channel id and variable but no value | build the command and leave the `value` argument out when there is no value, as the `Optional` parameter declares | high; not executed | `AriCommands.SetChannelVarRejectsAbsentValue` | `AriCommands.SetChannelVarOmittingAbsent` |
| lib/src/main/java/astasis/AriCommands.java:253 | the playback id is appended to the path without escaping, while the channel id beside it is escaped | playback id `a/b`, giving the path `channels/{id}/play/a/b` | escape the playback id as a path segment, as the channel id is | medium; not executed | `AriCommands.PlaybackIdAddsSegment` | `AriCommands.PlayWithIdEscaped` |
