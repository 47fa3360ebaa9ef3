/** AriCommands.Channels: each factory builds one command record from literal path pieces, the
    path-segment escape of a channel id and a fixed argument map. */
module AriCommands {
  import opened Wrappers
  import opened Text
  import opened PercentEscaping
  import opened AriClient

  /** Guava's `UrlEscapers.urlPathSegmentEscaper()`: the `pchar` characters of section 3.3 of
      RFC 3986 other than `%` (unreserved, sub-delims, `:` and `@`) are safe, and a space is
      written `%20`. */
  const PathSegmentEscaper: Escaper :=
    Escaper({'-', '.', '_', '~', '!', '$', '&', '\'', '(', ')', '*', '+', ',', ';', '=', ':', '@'}, false)

  /** The path-segment escape of an id contains none of the characters that end a path segment. */
  function EscapeSegment(s: string): (r: string)
    ensures '/' !in r && '?' !in r && '#' !in r
  {
    SegmentDelimitersUnsafe();
    EscapedUnsafeAbsent(PathSegmentEscaper, s, '/');
    EscapedUnsafeAbsent(PathSegmentEscaper, s, '?');
    EscapedUnsafeAbsent(PathSegmentEscaper, s, '#');
    Escape(PathSegmentEscaper, s)
  }

  /** A Java `int`. */
  type Int32 = x: int | -0x8000_0000 <= x < 0x8000_0000

  // Parameter records; their Immutables builders are not modelled.

  datatype CreateParams = CreateParams(
    endpoint: string,
    app: string,
    appArgs: Option<string>,
    channelId: Option<string>,
    otherChannelId: Option<string>,
    originator: Option<string>,
    formats: Option<string>,
    variables: map<string, string>)

  datatype OriginateParams = OriginateParams(
    endpoint: string,
    app: string,
    appArgs: Option<string>,
    channelId: Option<string>,
    otherChannelId: Option<string>,
    originator: Option<string>,
    formats: Option<string>,
    callerId: Option<string>,
    timeout: Option<Int32>,
    variables: map<string, string>)

  datatype SetChannelVarParams = SetChannelVarParams(channelId: string, variable: string, value: Option<string>)

  datatype PlayParams = PlayParams(channelId: string, playbackId: string, media: string)

  /** The body publisher of a POST: none, or the JSON text Jackson writes for a parameter record. */
  datatype Body = NoBody | CreateBody(create: CreateParams) | OriginateBody(originate: OriginateParams)

  /** The exception `Map.of` throws for a null value. */
  datatype Failure = NullValue

  // The segment structure of channel paths.

  /** The characters that end a path segment are not safe in one. */
  lemma SegmentDelimitersUnsafe()
    ensures !IsSafe(PathSegmentEscaper, '/') && !IsSafe(PathSegmentEscaper, '?') && !IsSafe(PathSegmentEscaper, '#')
  {
  }

  /** Unescaping the segment gives back the id, whatever characters it holds. */
  lemma SegmentRecoversId(id: string)
    ensures Unescape(PathSegmentEscaper, EscapeSegment(id)) == Some(id)
  {
    UnescapeEscape(PathSegmentEscaper, id);
  }

  /** The path `"channels/" + escape(channelId) + "/" + suffix` that the factories write out:
      below `channels/{id}/` it splits as its suffix does. */
  function ChannelPath(id: string, suffix: string): (r: string)
    ensures Split(r, '/') == ["channels", EscapeSegment(id)] + Split(suffix, '/')
  {
    var seg := EscapeSegment(id);
    assert "channels/" + seg + "/" + suffix == "channels" + ['/'] + (seg + ['/'] + suffix);
    SplitFirst("channels", seg + ['/'] + suffix, '/');
    SplitFirst(seg, suffix, '/');
    "channels/" + seg + "/" + suffix
  }

  /** A channel path has exactly three segments, the middle one the escaped id. */
  lemma ChannelPathSegments(id: string, suffix: string)
    requires '/' !in suffix
    ensures Split(ChannelPath(id, suffix), '/') == ["channels", EscapeSegment(id), suffix]
  {
    var path := ChannelPath(id, suffix);
    SplitAbsent(suffix, '/');
  }

  /** `channels/{id}` has exactly two segments. */
  lemma ChannelRootSegments(id: string)
    ensures Split("channels/" + EscapeSegment(id), '/') == ["channels", EscapeSegment(id)]
  {
    var seg := EscapeSegment(id);
    assert "channels/" + seg == "channels" + ['/'] + seg;
    SplitFirst("channels", seg, '/');
    SplitAbsent(seg, '/');
  }

  /** What every command on one channel shares: three segments with the escaped id in the middle,
      the id recoverable from it. */
  predicate OnChannel(path: string, id: string, suffix: string)
  {
    Split(path, '/') == ["channels", EscapeSegment(id), suffix] &&
    Unescape(PathSegmentEscaper, Split(path, '/')[1]) == Some(id)
  }

  lemma OnChannelPath(id: string, suffix: string)
    requires '/' !in suffix
    ensures OnChannel(ChannelPath(id, suffix), id, suffix)
  {
    ChannelPathSegments(id, suffix);
    SegmentRecoversId(id);
  }

  // The factories.

  /** `create`: a POST to the fixed path `channels/create`; the parameters travel only in the body. */
  function Create(params: CreateParams): (r: PostCommand<Body>)
    ensures r.path == "channels/create"
    ensures r.args == map[] && r.publisher == CreateBody(params)
  {
    PostCommand("channels/create", map[], CreateBody(params))
  }

  /** `originate`: a POST to the fixed path `channels`; the parameters travel only in the body. */
  function Originate(params: OriginateParams): (r: PostCommand<Body>)
    ensures r.path == "channels"
    ensures r.args == map[] && r.publisher == OriginateBody(params)
  {
    PostCommand("channels", map[], OriginateBody(params))
  }

  /** `dial`: arguments `caller` and `timeout`, the latter the decimal numeral of the timeout. */
  function Dial(channelId: string, caller: string, timeout: Int32): (r: PostCommand<Body>)
    ensures OnChannel(r.path, channelId, "dial")
    ensures r.args.Keys == {"caller", "timeout"} && r.args["caller"] == caller
    ensures r.args["timeout"] == Decimal(timeout as int)
    ensures ParseDecimal(r.args["timeout"]) == Some(timeout as int)
    ensures r.publisher == NoBody
  {
    OnChannelPath(channelId, "dial");
    DecimalRoundTrip(timeout as int);
    PostCommand(
      ChannelPath(channelId, "dial"),
      map["caller" := caller, "timeout" := Decimal(timeout as int)],
      NoBody)
  }

  /** `setChannelVar`: arguments `variable` and `value`; `Map.of` throws when the value is absent. */
  function SetChannelVar(params: SetChannelVarParams): (r: Result<PostCommand<Body>, Failure>)
    ensures r.Err? <==> params.value.None?
    ensures r.Ok? ==> OnChannel(r.value.path, params.channelId, "variable")
    ensures r.Ok? ==> r.value.args.Keys == {"variable", "value"}
    ensures r.Ok? ==> r.value.args["variable"] == params.variable && r.value.args["value"] == params.value.value
    ensures r.Ok? ==> r.value.publisher == NoBody
  {
    OnChannelPath(params.channelId, "variable");
    if params.value.None? then Err(NullValue)
    else
      Ok(PostCommand(
        ChannelPath(params.channelId, "variable"),
        map["variable" := params.variable, "value" := params.value.value],
        NoBody))
  }

  function Answer(channelId: string): (r: PostCommand<Body>)
    ensures OnChannel(r.path, channelId, "answer")
    ensures r.args == map[] && r.publisher == NoBody
  {
    OnChannelPath(channelId, "answer");
    PostCommand(ChannelPath(channelId, "answer"), map[], NoBody)
  }

  function Ring(channelId: string): (r: PostCommand<Body>)
    ensures OnChannel(r.path, channelId, "ring")
    ensures r.args == map[] && r.publisher == NoBody
  {
    OnChannelPath(channelId, "ring");
    PostCommand(ChannelPath(channelId, "ring"), map[], NoBody)
  }

  function RingStop(channelId: string): (r: DeleteCommand)
    ensures OnChannel(r.path, channelId, "ring")
    ensures r.args == map[]
  {
    OnChannelPath(channelId, "ring");
    DeleteCommand(ChannelPath(channelId, "ring"), map[])
  }

  function Hold(channelId: string): (r: PostCommand<Body>)
    ensures OnChannel(r.path, channelId, "hold")
    ensures r.args == map[] && r.publisher == NoBody
  {
    OnChannelPath(channelId, "hold");
    PostCommand(ChannelPath(channelId, "hold"), map[], NoBody)
  }

  function Unhold(channelId: string): (r: DeleteCommand)
    ensures OnChannel(r.path, channelId, "hold")
    ensures r.args == map[]
  {
    OnChannelPath(channelId, "hold");
    DeleteCommand(ChannelPath(channelId, "hold"), map[])
  }

  function StartMoh(channelId: string): (r: PostCommand<Body>)
    ensures OnChannel(r.path, channelId, "moh")
    ensures r.args == map[] && r.publisher == NoBody
  {
    OnChannelPath(channelId, "moh");
    PostCommand(ChannelPath(channelId, "moh"), map[], NoBody)
  }

  function StopMoh(channelId: string): (r: DeleteCommand)
    ensures OnChannel(r.path, channelId, "moh")
    ensures r.args == map[]
  {
    OnChannelPath(channelId, "moh");
    DeleteCommand(ChannelPath(channelId, "moh"), map[])
  }

  function StartSilence(channelId: string): (r: PostCommand<Body>)
    ensures OnChannel(r.path, channelId, "silence")
    ensures r.args == map[] && r.publisher == NoBody
  {
    OnChannelPath(channelId, "silence");
    PostCommand(ChannelPath(channelId, "silence"), map[], NoBody)
  }

  function StopSilence(channelId: string): (r: DeleteCommand)
    ensures OnChannel(r.path, channelId, "silence")
    ensures r.args == map[]
  {
    OnChannelPath(channelId, "silence");
    DeleteCommand(ChannelPath(channelId, "silence"), map[])
  }

  /** Below `channels/{id}/play/` the path splits as the appended tail does. */
  lemma PlayPathSegments(id: string, tail: string)
    ensures Split("channels/" + EscapeSegment(id) + "/play/" + tail, '/') ==
      ["channels", EscapeSegment(id), "play"] + Split(tail, '/')
  {
    var head := "channels/" + EscapeSegment(id);
    var rest := "play" + ['/'] + tail;
    assert "/play/" + tail == "/" + rest;
    assert head + "/play/" + tail == head + ("/play/" + tail);
    assert head + "/" + rest == head + ("/" + rest);
    var path := ChannelPath(id, rest);
    SplitFirst("play", tail, '/');
  }

  /** `playWithId`: the channel id is escaped but the playback id is appended as it is; `jsonArgs`
      is the argument map Jackson's `convertValue` derives from the parameters. */
  function PlayWithId(params: PlayParams, jsonArgs: map<string, string>): (r: PostCommand<Body>)
    ensures Split(r.path, '/') == ["channels", EscapeSegment(params.channelId), "play"] + Split(params.playbackId, '/')
    ensures Unescape(PathSegmentEscaper, Split(r.path, '/')[1]) == Some(params.channelId)
    ensures '/' !in params.playbackId ==>
      Split(r.path, '/') == ["channels", EscapeSegment(params.channelId), "play", params.playbackId]
    ensures |r.path| >= |params.playbackId| && r.path[|r.path| - |params.playbackId|..] == params.playbackId
    ensures r.args == jsonArgs && r.publisher == NoBody
  {
    PlayPathSegments(params.channelId, params.playbackId);
    SegmentRecoversId(params.channelId);
    var command := PostCommand("channels/" + EscapeSegment(params.channelId) + "/play/" + params.playbackId, jsonArgs, NoBody);
    if '/' !in params.playbackId then SplitAbsent(params.playbackId, '/'); command else command
  }

  /** `hangup`: a DELETE on the channel itself with the single argument `reason`. */
  function Hangup(channelId: string, reason: string): (r: DeleteCommand)
    ensures Split(r.path, '/') == ["channels", EscapeSegment(channelId)]
    ensures Unescape(PathSegmentEscaper, Split(r.path, '/')[1]) == Some(channelId)
    ensures r.args.Keys == {"reason"} && r.args["reason"] == reason
  {
    ChannelRootSegments(channelId);
    SegmentRecoversId(channelId);
    DeleteCommand("channels/" + EscapeSegment(channelId), map["reason" := reason])
  }

  // Corrected forms of two factories (see the findings in the README).

  /** An absent value makes `setChannelVar` throw instead of sending the command. */
  lemma SetChannelVarRejectsAbsentValue(channelId: string, variable: string)
    ensures SetChannelVar(SetChannelVarParams(channelId, variable, None)) == Err(NullValue)
  {
  }

  /** `setChannelVar` as its optional `value` parameter intends: the `value` argument is sent
      exactly when a value is present, and the command is always built. */
  function SetChannelVarOmittingAbsent(params: SetChannelVarParams): (r: PostCommand<Body>)
    ensures OnChannel(r.path, params.channelId, "variable")
    ensures r.args.Keys == if params.value.Some? then {"variable", "value"} else {"variable"}
    ensures r.args["variable"] == params.variable
    ensures params.value.Some? ==> r.args["value"] == params.value.value
    ensures r.publisher == NoBody
    ensures params.value.Some? ==> SetChannelVar(params) == Ok(r)
  {
    OnChannelPath(params.channelId, "variable");
    var args := map["variable" := params.variable];
    PostCommand(
      ChannelPath(params.channelId, "variable"),
      if params.value.Some? then args["value" := params.value.value] else args,
      NoBody)
  }

  /** A playback id holding `/` adds a segment to the path: the server sees five segments. */
  lemma PlaybackIdAddsSegment(params: PlayParams, jsonArgs: map<string, string>, first: string, second: string)
    requires params.playbackId == first + "/" + second && '/' !in first && '/' !in second
    ensures Split(PlayWithId(params, jsonArgs).path, '/') ==
      ["channels", EscapeSegment(params.channelId), "play", first, second]
  {
    PlayPathSegments(params.channelId, params.playbackId);
    SplitFirst(first, second, '/');
    SplitAbsent(second, '/');
  }

  /** `playWithId` with both ids escaped: always four segments, each id recoverable. */
  function PlayWithIdEscaped(params: PlayParams, jsonArgs: map<string, string>): (r: PostCommand<Body>)
    ensures Split(r.path, '/') ==
      ["channels", EscapeSegment(params.channelId), "play", EscapeSegment(params.playbackId)]
    ensures Unescape(PathSegmentEscaper, Split(r.path, '/')[1]) == Some(params.channelId)
    ensures Unescape(PathSegmentEscaper, Split(r.path, '/')[3]) == Some(params.playbackId)
    ensures (forall i :: 0 <= i < |params.playbackId| ==> IsSafe(PathSegmentEscaper, params.playbackId[i])) ==>
      r == PlayWithId(params, jsonArgs)
    ensures r.args == jsonArgs && r.publisher == NoBody
  {
    PlayPathSegments(params.channelId, EscapeSegment(params.playbackId));
    SplitAbsent(EscapeSegment(params.playbackId), '/');
    SegmentRecoversId(params.channelId);
    SegmentRecoversId(params.playbackId);
    var command := PostCommand(
      "channels/" + EscapeSegment(params.channelId) + "/play/" + EscapeSegment(params.playbackId),
      jsonArgs,
      NoBody);
    if forall i :: 0 <= i < |params.playbackId| ==> IsSafe(PathSegmentEscaper, params.playbackId[i])
    then EscapeSafe(PathSegmentEscaper, params.playbackId); command
    else command
  }

  // Stop commands mirror their start commands.

  /** Each stop command addresses the same path as its start command, with DELETE instead of
      POST, no query and no body. */
  lemma StopMirrorsStart(channelId: string)
    ensures var (start, stop) := (InvokePost(Ring(channelId), []), InvokeDelete<Body>(RingStop(channelId), []));
      StartStop(start, stop)
    ensures var (start, stop) := (InvokePost(Hold(channelId), []), InvokeDelete<Body>(Unhold(channelId), []));
      StartStop(start, stop)
    ensures var (start, stop) := (InvokePost(StartMoh(channelId), []), InvokeDelete<Body>(StopMoh(channelId), []));
      StartStop(start, stop)
    ensures var (start, stop) := (InvokePost(StartSilence(channelId), []), InvokeDelete<Body>(StopSilence(channelId), []));
      StartStop(start, stop)
  {
  }

  predicate StartStop(start: Request<Body>, stop: Request<Body>)
  {
    start.verb == Post && stop.verb == Delete &&
    start.path == stop.path &&
    start.query == "" && stop.query == "" &&
    start.publisher == Some(NoBody) && stop.publisher == None
  }

  /** `create` sends nothing in the query: its parameters are only in the body. */
  lemma CreateCarriesNoQuery(create: CreateParams)
    ensures InvokePost(Create(create), []).query == ""
    ensures InvokePost(Create(create), []).publisher == Some(CreateBody(create))
  {
  }

  /** `originate` sends nothing in the query: its parameters are only in the body. */
  lemma OriginateCarriesNoQuery(originate: OriginateParams)
    ensures InvokePost(Originate(originate), []).query == ""
    ensures InvokePost(Originate(originate), []).publisher == Some(OriginateBody(originate))
  {
  }
}
