/** AriClient: the query-string escaper, `makeUri`'s query string, the two command records and
    the request each `invoke` overload builds from a command. Sending is not modelled. */
module AriClient {
  import opened Wrappers
  import opened Text
  import opened PercentEscaping

  /** `new PercentEscaper("_-!.~'()*,;:$?/[]@", true)`. */
  const QueryEscaper: Escaper :=
    Escaper({'_', '-', '!', '.', '~', '\'', '(', ')', '*', ',', ';', ':', '$', '?', '/', '[', ']', '@'}, true)

  lemma QueryEscaperValid()
    ensures Valid(QueryEscaper)
  {
  }

  /** The query escaper leaves a string of safe characters unchanged. */
  lemma QueryEscapeSafe(s: string)
    requires forall i :: 0 <= i < |s| ==> IsAlphanumeric(s[i]) || s[i] in QueryEscaper.safeChars
    ensures Escape(QueryEscaper, s) == s
  {
    EscapeSafe(QueryEscaper, s);
  }

  /** In a query a space is written `+`, so a `+` itself must be written as an octet. */
  lemma QueryEscapeSpaceAndPlus()
    ensures EscapeChar(QueryEscaper, ' ') == "+"
    ensures EscapeChar(QueryEscaper, '+') == "%2B"
  {
    EscapeSpaceAsPlus(QueryEscaper);
    EscapeAsciiOctet(QueryEscaper, '+');
    assert HexDigit(2) == '2' && HexDigit(11) == 'B';
  }

  /** The characters that delimit a query or an escape are never left as they are: each becomes
      `%` and two uppercase hexadecimal digits. */
  lemma QueryEscapeReserved(c: char)
    requires c in {'+', '&', '=', '%', '#'}
    ensures EscapeChar(QueryEscaper, c) == ['%', HexDigit(c as int / 16), HexDigit(c as int % 16)]
  {
    EscapeAsciiOctet(QueryEscaper, c);
  }

  /** Any other unsafe ASCII character becomes `%` and two uppercase hexadecimal digits. */
  lemma QueryEscapeAscii(c: char)
    requires c as int < 0x80 && c != ' ' && !IsSafe(QueryEscaper, c)
    ensures EscapeChar(QueryEscaper, c) == ['%', HexDigit(c as int / 16), HexDigit(c as int % 16)]
  {
    EscapeAsciiOctet(QueryEscaper, c);
  }

  /** An escaped key or value contains neither `&` nor `=`. */
  lemma QueryEscapeNoDelimiters(s: string)
    ensures '&' !in Escape(QueryEscaper, s) && '=' !in Escape(QueryEscaper, s)
  {
    EscapedUnsafeAbsent(QueryEscaper, s, '&');
    EscapedUnsafeAbsent(QueryEscaper, s, '=');
  }

  // The query string of makeUri.

  /** `order` lists each key of the map exactly once: the order in which the map's entry set is
      iterated, which the platform chooses. */
  predicate Enumerates(order: seq<string>, keys: set<string>)
  {
    (forall i, j :: 0 <= i < j < |order| ==> order[i] != order[j]) && (set k | k in order) == keys
  }

  /** The entries of `args` in iteration order. */
  function Entries(args: map<string, string>, order: seq<string>): (r: seq<(string, string)>)
    requires forall i :: 0 <= i < |order| ==> order[i] in args
    ensures |r| == |order|
    ensures forall i :: 0 <= i < |r| ==> r[i] == (order[i], args[order[i]])
  {
    if order == [] then [] else [(order[0], args[order[0]])] + Entries(args, order[1..])
  }

  /** One `key=value` piece with both halves escaped. */
  function EncodeEntry(key: string, value: string): string
  {
    Escape(QueryEscaper, key) + "=" + Escape(QueryEscaper, value)
  }

  function EncodeEntries(entries: seq<(string, string)>): (r: seq<string>)
    ensures |r| == |entries|
    ensures forall i :: 0 <= i < |r| ==> r[i] == EncodeEntry(entries[i].0, entries[i].1)
  {
    if entries == [] then [] else [EncodeEntry(entries[0].0, entries[0].1)] + EncodeEntries(entries[1..])
  }

  /** The query string `makeUri` passes on: the escaped pieces joined with `&`. Reading it back
      gives exactly the map's pairs; it has one `&` per pair but one, and is empty exactly when
      the map is. */
  function MakeQuery(args: map<string, string>, order: seq<string>): (r: string)
    requires Enumerates(order, args.Keys)
    ensures ParseQuery(r) == Some(args.Items)
    ensures r == "" <==> |args| == 0
    ensures |args| > 0 ==> Count(r, '&') == |args| - 1
  {
    JoinedEntriesRoundTrip(args, order);
    JoinedEntriesSeparators(args, order);
    Join(EncodeEntries(Entries(args, order)), '&')
  }

  // Reading a query string back.

  function ParseEntry(piece: string): Option<(string, string)>
  {
    var kv := Split(piece, '=');
    if |kv| != 2 then None
    else match (Unescape(QueryEscaper, kv[0]), Unescape(QueryEscaper, kv[1]))
      case (Some(k), Some(v)) => Some((k, v))
      case _ => None
  }

  function ParseEntries(pieces: seq<string>): Option<seq<(string, string)>>
  {
    if pieces == [] then Some([])
    else match (ParseEntry(pieces[0]), ParseEntries(pieces[1..]))
      case (Some(p), Some(ps)) => Some([p] + ps)
      case _ => None
  }

  /** The (key, value) pairs a query string carries: split at `&`, each piece at its single `=`,
      and both halves unescaped. */
  function ParseQuery(q: string): Option<set<(string, string)>>
  {
    if q == "" then Some({})
    else match ParseEntries(Split(q, '&'))
      case None => None
      case Some(ps) => Some(set p | p in ps)
  }

  lemma ParseEncodedEntry(key: string, value: string)
    ensures ParseEntry(EncodeEntry(key, value)) == Some((key, value))
  {
    var k, v := Escape(QueryEscaper, key), Escape(QueryEscaper, value);
    QueryEscapeNoDelimiters(key);
    QueryEscapeNoDelimiters(value);
    assert EncodeEntry(key, value) == Join([k, v], '=');
    SplitJoin([k, v], '=');
    QueryEscaperValid();
    UnescapeEscape(QueryEscaper, key);
    UnescapeEscape(QueryEscaper, value);
  }

  lemma {:induction false} ParseEncodedEntries(entries: seq<(string, string)>)
    ensures ParseEntries(EncodeEntries(entries)) == Some(entries)
  {
    if entries != [] {
      var pieces := EncodeEntries(entries);
      assert pieces[1..] == EncodeEntries(entries[1..]);
      ParseEncodedEntry(entries[0].0, entries[0].1);
      ParseEncodedEntries(entries[1..]);
      assert [entries[0]] + entries[1..] == entries;
    }
  }

  lemma EntriesAreItems(args: map<string, string>, order: seq<string>)
    requires Enumerates(order, args.Keys)
    ensures (set p | p in Entries(args, order)) == args.Items
  {
    var es := Entries(args, order);
    forall p | p in args.Items
      ensures p in es
    {
      assert p.0 in args.Keys;
      assert p.0 in (set k | k in order);
      var i :| 0 <= i < |order| && order[i] == p.0;
      assert es[i] == p;
    }
  }

  lemma {:induction false} DistinctCardinality(order: seq<string>)
    requires forall i, j :: 0 <= i < j < |order| ==> order[i] != order[j]
    ensures |set k | k in order| == |order|
  {
    if order != [] {
      DistinctCardinality(order[1..]);
      assert (set k | k in order) == {order[0]} + (set k | k in order[1..]);
      assert order[0] !in (set k | k in order[1..]);
    }
  }

  lemma EncodeEntryNoAmpersand(key: string, value: string)
    ensures '&' !in EncodeEntry(key, value) && |EncodeEntry(key, value)| > 0
  {
    var k, v := Escape(QueryEscaper, key), Escape(QueryEscaper, value);
    QueryEscapeNoDelimiters(key);
    QueryEscapeNoDelimiters(value);
    assert EncodeEntry(key, value) == k + ("=" + v);
    assert '&' !in "=" + v;
  }

  lemma EncodedEntriesShape(args: map<string, string>, order: seq<string>)
    requires Enumerates(order, args.Keys)
    ensures var pieces := EncodeEntries(Entries(args, order));
      |pieces| == |args| &&
      forall i :: 0 <= i < |pieces| ==> '&' !in pieces[i] && |pieces[i]| > 0
  {
    DistinctCardinality(order);
    var pieces := EncodeEntries(Entries(args, order));
    forall i | 0 <= i < |pieces|
      ensures '&' !in pieces[i] && |pieces[i]| > 0
    {
      var e := Entries(args, order)[i];
      EncodeEntryNoAmpersand(e.0, e.1);
    }
  }

  /** Splitting the query at `&` and each piece at `=` recovers exactly the argument map's pairs,
      whatever order the map was iterated in. */
  lemma JoinedEntriesRoundTrip(args: map<string, string>, order: seq<string>)
    requires Enumerates(order, args.Keys)
    ensures ParseQuery(Join(EncodeEntries(Entries(args, order)), '&')) == Some(args.Items)
  {
    var entries := Entries(args, order);
    var pieces := EncodeEntries(entries);
    EncodedEntriesShape(args, order);
    EntriesAreItems(args, order);
    if |args| == 0 {
      assert args.Items == {};
    } else {
      JoinNotShorter(pieces, '&');
      SplitJoin(pieces, '&');
      ParseEncodedEntries(entries);
    }
  }

  /** The query holds one `&` fewer than there are arguments, and is empty exactly when there are
      no arguments. */
  lemma JoinedEntriesSeparators(args: map<string, string>, order: seq<string>)
    requires Enumerates(order, args.Keys)
    ensures Join(EncodeEntries(Entries(args, order)), '&') == "" <==> |args| == 0
    ensures |args| > 0 ==> Count(Join(EncodeEntries(Entries(args, order)), '&'), '&') == |args| - 1
  {
    var pieces := EncodeEntries(Entries(args, order));
    EncodedEntriesShape(args, order);
    if |args| > 0 {
      JoinNotShorter(pieces, '&');
      CountJoin(pieces, '&');
    }
  }

  // Commands and the requests built from them.

  /** `AriDeleteCommand(path, args, bodyHandler)`. */
  datatype DeleteCommand = DeleteCommand(path: string, args: map<string, string>)

  /** `AriPostCommand(path, args, publisher, bodyHandler)`, with the body publisher of type `B`. */
  datatype PostCommand<B> = PostCommand(path: string, args: map<string, string>, publisher: B)

  datatype Method = Post | Delete

  /** What `HttpRequest.newBuilder()...build()` is given: the HTTP method, the path and query passed to
      `makeUri`, the headers in the order set, the body publisher and the timeout. */
  datatype Request<B> = Request(
    verb: Method,
    path: string,
    query: string,
    headers: seq<(string, string)>,
    publisher: Option<B>,
    timeoutSeconds: nat)

  const RequestTimeoutSeconds: nat := 3

  const JsonContentType: (string, string) := ("content-type", "application/json;charset=utf-8")

  /** `invoke(AriDeleteCommand)`: a DELETE without headers or body, whose query carries the args. */
  function InvokeDelete<B>(cmd: DeleteCommand, order: seq<string>): (r: Request<B>)
    requires Enumerates(order, cmd.args.Keys)
    ensures r.verb == Delete && r.path == cmd.path
    ensures r.query == MakeQuery(cmd.args, order)
    ensures ParseQuery(r.query) == Some(cmd.args.Items)
    ensures r.query == "" <==> cmd.args == map[]
    ensures r.headers == [] && r.publisher == None && r.timeoutSeconds == 3
  {
    Request(Delete, cmd.path, MakeQuery(cmd.args, order), [], None, RequestTimeoutSeconds)
  }

  /** `invoke(AriPostCommand)`: a POST with a JSON content type and the command's body publisher,
      whose query carries the args. */
  function InvokePost<B>(cmd: PostCommand<B>, order: seq<string>): (r: Request<B>)
    requires Enumerates(order, cmd.args.Keys)
    ensures r.verb == Post && r.path == cmd.path
    ensures r.query == MakeQuery(cmd.args, order)
    ensures ParseQuery(r.query) == Some(cmd.args.Items)
    ensures r.query == "" <==> cmd.args == map[]
    ensures r.headers == [("content-type", "application/json;charset=utf-8")]
    ensures r.publisher == Some(cmd.publisher) && r.timeoutSeconds == 3
  {
    Request(Post, cmd.path, MakeQuery(cmd.args, order), [JsonContentType], Some(cmd.publisher), RequestTimeoutSeconds)
  }
}
