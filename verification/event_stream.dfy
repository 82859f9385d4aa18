/**
 * Decoding of the `data:` lines of a server-sent event stream, a small subset
 * of the event-stream format of section 9.2 of the WHATWG HTML Living Standard.
 *
 * Three browser clients read it the same way (`sendMessageStream` in
 * src/utils/chatAPIProxy.ts and src/utils/chatAPI.ts, `streamSessionChat` in
 * src/utils/sessionsAPI.ts): every chunk the reader yields is split on line
 * feeds on its own, without carrying a partial line over to the next chunk;
 * each line is trimmed; a line starting with `data: ` carries a payload; the
 * payload `[DONE]` completes the stream; any other payload is handed to
 * `JSON.parse`, and a truthy `choices[0].delta.content` is emitted.
 *
 * The backend (backend/server.js) reads the upstream stream differently: it
 * drops empty lines but does not trim, writes an extra `[DONE]` event for a
 * `[DONE]` line and keeps going, and passes every chunk through unchanged.
 *
 * `JSON.parse` followed by `choices?.[0]?.delta?.content` is the oracle
 * `deltaOf`: `None` stands for a parse error or a missing field.
 */
module EventStream {
  import opened Wrappers
  import opened Strings
  import MockStream

  const DataPrefix: string := "data: "
  const DoneMarker: string := "[DONE]"

  /** What one line of a chunk means to a browser client. */
  datatype LineKind = Payload(data: string) | Done | Ignored

  /** The meaning of a trimmed line: a `data: ` line carries the rest of the line as its
      payload, `[DONE]` being the end of the stream; any other line is ignored. */
  function Classify(t: string): (k: LineKind)
    ensures k.Payload? ==> k.data != DoneMarker && t == DataPrefix + k.data
    ensures k.Done? ==> t == DataPrefix + DoneMarker
    ensures k.Ignored? <==> !StartsWith(t, DataPrefix)
  {
    if StartsWith(t, DataPrefix) then
      var data := t[|DataPrefix|..];
      assert t == DataPrefix + data;
      if data == DoneMarker then Done else Payload(data)
    else Ignored
  }

  /** A browser client's reading of one line: trimmed, then classified. */
  function ClientLine(line: string): LineKind {
    Classify(Trim(line))
  }

  /** What a client takes from a run of lines: the deltas it emits, in order, and whether
      it met `[DONE]` (after which it reads nothing more). */
  datatype Decoded = Decoded(deltas: seq<string>, done: bool)

  /** The inner `for` loop over the lines of one chunk. */
  function DecodeLines(lines: seq<string>, deltaOf: string -> Option<string>): (d: Decoded)
    ensures forall i :: 0 <= i < |d.deltas| ==> d.deltas[i] != []
  {
    if |lines| == 0 then Decoded([], false)
    else
      match ClientLine(lines[0])
      case Done => Decoded([], true)
      case Ignored => DecodeLines(lines[1..], deltaOf)
      case Payload(data) =>
        var rest := DecodeLines(lines[1..], deltaOf);
        if Truthy(deltaOf(data)) then Decoded([deltaOf(data).value] + rest.deltas, rest.done) else rest
  }

  /** One chunk: split on line feeds (never buffered across chunks), then decoded. */
  function DecodeChunk(chunk: string, deltaOf: string -> Option<string>): Decoded {
    DecodeLines(Split(chunk, '\n'), deltaOf)
  }

  /** Decoding two runs of lines one after the other is decoding the first run and, unless
      it completed the stream, continuing with the second. */
  lemma {:induction false} DecodeLinesAppend(a: seq<string>, b: seq<string>, deltaOf: string -> Option<string>)
    ensures DecodeLines(a + b, deltaOf) ==
              if DecodeLines(a, deltaOf).done then DecodeLines(a, deltaOf)
              else Decoded(DecodeLines(a, deltaOf).deltas + DecodeLines(b, deltaOf).deltas, DecodeLines(b, deltaOf).done)
  {
    if |a| == 0 {
      assert a + b == b;
    } else {
      assert (a + b)[0] == a[0];
      assert (a + b)[1..] == a[1..] + b;
      DecodeLinesAppend(a[1..], b, deltaOf);
    }
  }

  /** The stream completes at a line exactly when that line, trimmed, is `data: [DONE]`. */
  lemma {:induction false} DoneIffMarkerLine(lines: seq<string>, deltaOf: string -> Option<string>)
    ensures DecodeLines(lines, deltaOf).done <==>
              exists i :: 0 <= i < |lines| && Trim(lines[i]) == DataPrefix + DoneMarker
  {
    if |lines| > 0 {
      DoneIffMarkerLine(lines[1..], deltaOf);
      var t := Trim(lines[0]);
      if t == DataPrefix + DoneMarker {
        assert StartsWith(t, DataPrefix) && t[|DataPrefix|..] == DoneMarker;
      }
      if exists i :: 0 <= i < |lines| && Trim(lines[i]) == DataPrefix + DoneMarker {
        var i :| 0 <= i < |lines| && Trim(lines[i]) == DataPrefix + DoneMarker;
        if i > 0 { assert lines[1..][i - 1] == lines[i]; }
      }
      if exists i :: 0 <= i < |lines| - 1 && Trim(lines[1..][i]) == DataPrefix + DoneMarker {
        var i :| 0 <= i < |lines| - 1 && Trim(lines[1..][i]) == DataPrefix + DoneMarker;
        assert lines[i + 1] == lines[1..][i];
      }
    }
  }

  /** The lines a well-behaved server sends for a list of JSON payloads: every event is a
      `data:` line followed by a blank line, and `data: [DONE]` closes the stream. */
  function EventLines(payloads: seq<string>): seq<string> {
    if |payloads| == 0 then [DataPrefix + DoneMarker, "", ""]
    else [DataPrefix + payloads[0], ""] + EventLines(payloads[1..])
  }

  /** The encoding of a list of events as the text of one chunk. */
  function EncodeStream(payloads: seq<string>): string {
    Join(EventLines(payloads), '\n')
  }

  /** A payload the oracle decodes to the delta `d`, written on a single line with no white
      space around it (as `JSON.stringify` writes an object). */
  predicate EncodesDelta(payload: string, d: string, deltaOf: string -> Option<string>) {
    && payload != [] && payload != DoneMarker
    && !IsJsSpace(payload[|payload| - 1])
    && '\n' !in payload
    && deltaOf(payload) == Some(d)
  }

  /** Round trip: decoding what a well-behaved server sends for non-empty deltas gives
      back exactly those deltas, in order, and completes the stream. */
  lemma {:induction false} DecodeEncode(payloads: seq<string>, ds: seq<string>, deltaOf: string -> Option<string>)
    requires |payloads| == |ds|
    requires forall i :: 0 <= i < |ds| ==> ds[i] != [] && EncodesDelta(payloads[i], ds[i], deltaOf)
    ensures DecodeChunk(EncodeStream(payloads), deltaOf) == Decoded(ds, true)
  {
    EventLinesHaveNoLineFeed(payloads);
    SplitJoin(EventLines(payloads), '\n');
    DecodeEventLines(payloads, ds, deltaOf);
  }

  lemma {:induction false} EventLinesHaveNoLineFeed(payloads: seq<string>)
    requires forall i :: 0 <= i < |payloads| ==> '\n' !in payloads[i]
    ensures |EventLines(payloads)| >= 1
    ensures forall k :: 0 <= k < |EventLines(payloads)| ==> '\n' !in EventLines(payloads)[k]
  {
    if |payloads| > 0 {
      EventLinesHaveNoLineFeed(payloads[1..]);
      var head := [DataPrefix + payloads[0], ""];
      var rest := EventLines(payloads[1..]);
      assert '\n' !in DataPrefix + payloads[0];
      forall k | 0 <= k < |head + rest| ensures '\n' !in (head + rest)[k] {
        if k >= 2 { assert (head + rest)[k] == rest[k - 2]; }
      }
    }
  }

  lemma {:induction false} DecodeEventLines(payloads: seq<string>, ds: seq<string>, deltaOf: string -> Option<string>)
    requires |payloads| == |ds|
    requires forall i :: 0 <= i < |ds| ==> ds[i] != [] && EncodesDelta(payloads[i], ds[i], deltaOf)
    ensures DecodeLines(EventLines(payloads), deltaOf) == Decoded(ds, true)
  {
    var lines := EventLines(payloads);
    if |payloads| == 0 {
      TrimUnchanged(DataPrefix + DoneMarker);
      assert ClientLine(lines[0]) == Done;
    } else {
      var p := payloads[0];
      var line := DataPrefix + p;
      TrimUnchanged(line);
      assert line[|DataPrefix|..] == p;
      assert ClientLine(line) == Payload(p);
      assert ClientLine("") == Ignored;
      DecodeEventLines(payloads[1..], ds[1..], deltaOf);
      assert lines[1..][1..] == EventLines(payloads[1..]);
      assert [ds[0]] + ds[1..] == ds;
    }
  }

  /** What a browser client reports through its callbacks. */
  datatype Event = Chunk(text: string) | Complete | Error(message: string)

  function Chunks(texts: seq<string>): (evs: seq<Event>)
    ensures |evs| == |texts|
    ensures forall i :: 0 <= i < |evs| ==> evs[i] == Chunk(texts[i])
  {
    seq(|texts|, i requires 0 <= i < |texts| => Chunk(texts[i]))
  }

  /** The outer reading loop over the chunks the reader yields. `stop` is what the client
      reports when the reader stops before any `[DONE]` line: `onComplete` when it reports
      done, the error handling when a read fails. */
  function ReadChunks(chunks: seq<string>, deltaOf: string -> Option<string>, stop: seq<Event>): (evs: seq<Event>)
    ensures EndsOnce(stop) ==> EndsOnce(evs)
    ensures |stop| >= 1 && stop[|stop| - 1] == Complete ==> |evs| >= 1 && evs[|evs| - 1] == Complete
  {
    if |chunks| == 0 then stop
    else ReadStep(DecodeChunk(chunks[0], deltaOf), ReadChunks(chunks[1..], deltaOf, stop))
  }

  /** One turn of the reading loop: the deltas of a chunk, then completion at a `[DONE]`
      line, or else whatever the rest of the loop reports. */
  function ReadStep(d: Decoded, tail: seq<Event>): (evs: seq<Event>)
    ensures d.done ==> EndsOnce(evs) && evs[|evs| - 1] == Complete
    ensures !d.done && EndsOnce(tail) ==> EndsOnce(evs)
    ensures !d.done && |tail| >= 1 ==> |evs| >= 1 && evs[|evs| - 1] == tail[|tail| - 1]
  {
    var first := Chunks(d.deltas);
    if d.done then
      ChunksThenEnd(d.deltas, Complete);
      first + [Complete]
    else
      EventsBeforeEnd(first, tail);
      first + tail
  }

  /** Every line of every chunk, in order: what the reader delivered, split chunk by chunk. */
  function AllLines(chunks: seq<string>): seq<string> {
    if |chunks| == 0 then [] else Split(chunks[0], '\n') + AllLines(chunks[1..])
  }

  lemma {:induction false} ChunksAppend(a: seq<string>, b: seq<string>)
    ensures Chunks(a + b) == Chunks(a) + Chunks(b)
  {
  }

  /** Reading chunk by chunk is decoding all their lines at once: the deltas reach
      `onChunk` in line order, then `onComplete` is called once if a `[DONE]` line came, and
      otherwise the client reports whatever it reports when the reader stops. */
  lemma {:induction false} ReadChunksDecodesAllLines(chunks: seq<string>, deltaOf: string -> Option<string>, stop: seq<Event>)
    ensures var all := DecodeLines(AllLines(chunks), deltaOf);
            ReadChunks(chunks, deltaOf, stop) == Chunks(all.deltas) + (if all.done then [Complete] else stop)
  {
    if |chunks| > 0 {
      var lines := Split(chunks[0], '\n');
      var d := DecodeLines(lines, deltaOf);
      var rest := DecodeLines(AllLines(chunks[1..]), deltaOf);
      DecodeLinesAppend(lines, AllLines(chunks[1..]), deltaOf);
      assert AllLines(chunks) == lines + AllLines(chunks[1..]);
      ReadChunksStep(chunks, deltaOf, stop);
      if !d.done {
        ReadChunksDecodesAllLines(chunks[1..], deltaOf, stop);
        var end := if rest.done then [Complete] else stop;
        ChunksAppend(d.deltas, rest.deltas);
        AppendAssoc(Chunks(d.deltas), Chunks(rest.deltas), end);
      }
    }
  }

  /** One turn of the reading loop. */
  lemma ReadChunksStep(chunks: seq<string>, deltaOf: string -> Option<string>, stop: seq<Event>)
    requires |chunks| > 0
    ensures var d := DecodeChunk(chunks[0], deltaOf);
            ReadChunks(chunks, deltaOf, stop) ==
              Chunks(d.deltas) + if d.done then [Complete] else ReadChunks(chunks[1..], deltaOf, stop)
  {
  }

  /** Which client is streaming. */
  datatype Client = ProxyClient | DirectClient | SessionClient

  /** What the reader of a response body does: it yields text chunks, then reports done
      (`failure` is `None`) or has a read rejected with an error carrying `failure`. */
  datatype Body = Body(chunks: seq<string>, failure: Option<string>)

  /** What `fetch` gave back: a thrown network error, or a response whose body may lack a
      reader. */
  datatype Reply = NetworkFailure(message: string) | Response(ok: bool, status: nat, body: Option<Body>)

  /** A reply whose reader fails after the stream has begun. */
  predicate FailsMidStream(reply: Reply) {
    reply.Response? && reply.ok && reply.body.Some? && reply.body.value.failure.Some?
  }

  /** The two chat clients fall back to the canned answer when the error message says the
      connection failed. */
  predicate ConnectionFailed(message: string) {
    Contains(message, "Failed to fetch") || Contains(message, "ECONNREFUSED")
  }

  /** The canned answer streamed word by word and then completed. Its `lastMessage` is read
      inside a promise nobody awaits, so with no last message nothing is reported. */
  function MockEvents(b: MockStream.Backend, last: Option<string>): seq<Event> {
    match last
    case None => []
    case Some(content) => Chunks(MockStream.WordChunks(MockStream.MockResponse(b, content))) + [Complete]
  }

  /** The `catch` block of the two chat clients. */
  function ChatCatch(b: MockStream.Backend, message: string, last: Option<string>): seq<Event> {
    if ConnectionFailed(message) then MockEvents(b, last) else [Error(message)]
  }

  function HttpErrorMessage(client: Client, status: nat): string {
    if client == SessionClient then "HTTP " + NatToString(status)
    else "HTTP error! status: " + NatToString(status)
  }

  function NoReaderMessage(client: Client): string {
    if client == SessionClient then "No reader" else "Failed to get response reader"
  }

  function BackendOf(client: Client): MockStream.Backend {
    if client == ProxyClient then MockStream.Proxy else MockStream.LiteLLM
  }

  /** How a client reports a request that failed with `message`: the session client through
      `onError`, the two chat clients through their `catch` block. */
  function Fail(client: Client, message: string, last: Option<string>): seq<Event> {
    if client == SessionClient then [Error(message)] else ChatCatch(BackendOf(client), message, last)
  }

  /** What a client reports when its reader stops before a `[DONE]` line: completion when
      the reader is done, and when a read fails, the same handling as a failed request,
      since the read happens inside the same `try`. */
  function Stop(client: Client, failure: Option<string>, last: Option<string>): seq<Event> {
    if failure.None? then [Complete] else Fail(client, failure.value, last)
  }

  /** Everything a client reports for one streamed request. `last` is the content of the
      last message sent, which only the canned answer reads. */
  function Stream(client: Client, reply: Reply, deltaOf: string -> Option<string>, last: Option<string>): seq<Event> {
    match reply
    case NetworkFailure(message) => Fail(client, message, last)
    case Response(ok, status, body) =>
      if !ok then Fail(client, HttpErrorMessage(client, status), last)
      else if body.None? then Fail(client, NoReaderMessage(client), last)
      else ReadChunks(body.value.chunks, deltaOf, Stop(client, body.value.failure, last))
  }

  /** Chunks, then one final event that is not a chunk, and nothing after it. */
  predicate EndsOnce(evs: seq<Event>) {
    |evs| >= 1 && !evs[|evs| - 1].Chunk? && forall i :: 0 <= i < |evs| - 1 ==> evs[i].Chunk?
  }

  lemma FailEndsOnce(client: Client, message: string, last: Option<string>)
    ensures var evs := Fail(client, message, last);
            (evs == [] && client != SessionClient && last.None?) || EndsOnce(evs)
  {
    if client != SessionClient && ConnectionFailed(message) && last.Some? {
      ChunksThenEnd(MockStream.WordChunks(MockStream.MockResponse(BackendOf(client), last.value)), Complete);
    }
  }

  /** Chunks put before events that end once still end once, and the last event stays last. */
  lemma EventsBeforeEnd(first: seq<Event>, evs: seq<Event>)
    requires forall i :: 0 <= i < |first| ==> first[i].Chunk?
    ensures EndsOnce(evs) ==> EndsOnce(first + evs)
    ensures |evs| >= 1 ==> (first + evs)[|first| + |evs| - 1] == evs[|evs| - 1]
  {
    var all := first + evs;
    if EndsOnce(evs) {
      forall i | 0 <= i < |all| - 1 ensures all[i].Chunk? {
        if i < |first| {
          assert all[i] == first[i];
        } else {
          assert all[i] == evs[i - |first|];
        }
      }
    }
  }

  /** Chunks followed by one final event end once. */
  lemma ChunksThenEnd(cs: seq<string>, last: Event)
    requires !last.Chunk?
    ensures EndsOnce(Chunks(cs) + [last])
  {
    var evs := Chunks(cs) + [last];
    assert forall i :: 0 <= i < |evs| - 1 ==> evs[i] == Chunks(cs)[i];
  }

  /** `t` occurs in `s` only if its first character does. */
  lemma ContainsFirstChar(s: string, t: string)
    requires t != [] && Contains(s, t)
    ensures t[0] in s
  {
    ContainsIffOccurs(s, t);
    var i :| 0 <= i <= |s| - |t| && StartsWith(s[i..], t);
    assert s[i..][0] == s[i];
  }

  /** No character of a decimal rendering is `F` or `E`. */
  lemma NoLetterInDigits(prefix: string, n: nat, c: char)
    requires c !in prefix && !IsDigit(c)
    ensures c !in prefix + NatToString(n)
  {
    var r := prefix + NatToString(n);
    forall i | 0 <= i < |r| ensures r[i] != c {
      if i >= |prefix| { assert r[i] == NatToString(n)[i - |prefix|]; }
    }
  }

  /** An HTTP error is never mistaken for a failed connection: the client reports it
      through `onError` and never streams the canned answer. */
  lemma HttpErrorIsReported(client: Client, status: nat, body: Option<Body>, deltaOf: string -> Option<string>, last: Option<string>)
    ensures Stream(client, Response(false, status, body), deltaOf, last) == [Error(HttpErrorMessage(client, status))]
  {
    var m := HttpErrorMessage(client, status);
    if client != SessionClient {
      NoLetterInDigits("HTTP error! status: ", status, 'F');
      NoLetterInDigits("HTTP error! status: ", status, 'E');
      if Contains(m, "Failed to fetch") { ContainsFirstChar(m, "Failed to fetch"); }
      if Contains(m, "ECONNREFUSED") { ContainsFirstChar(m, "ECONNREFUSED"); }
    }
  }

  /** Whatever happens, a client reports its chunks and then exactly one final `onComplete`
      or `onError`, and nothing after it. The one exception is the canned answer when there
      is no last message to quote: it reports nothing, so the client reports only the
      chunks that arrived before a read failed, or nothing at all when no stream began. */
  lemma StreamEndsOnce(client: Client, reply: Reply, deltaOf: string -> Option<string>, last: Option<string>)
    ensures var evs := Stream(client, reply, deltaOf, last);
            EndsOnce(evs) || (client != SessionClient && last.None? && forall i :: 0 <= i < |evs| ==> evs[i].Chunk?)
    ensures var evs := Stream(client, reply, deltaOf, last);
            !EndsOnce(evs) && !FailsMidStream(reply) ==> evs == []
  {
    match reply
    case NetworkFailure(message) => FailEndsOnce(client, message, last);
    case Response(ok, status, body) =>
      if !ok {
        FailEndsOnce(client, HttpErrorMessage(client, status), last);
      } else if body.None? {
        FailEndsOnce(client, NoReaderMessage(client), last);
      } else {
        var b := body.value;
        var stop := Stop(client, b.failure, last);
        if b.failure.Some? {
          FailEndsOnce(client, b.failure.value, last);
        }
        if !EndsOnce(stop) {
          var all := DecodeLines(AllLines(b.chunks), deltaOf);
          ReadChunksDecodesAllLines(b.chunks, deltaOf, stop);
          if all.done {
            ChunksThenEnd(all.deltas, Complete);
          } else {
            assert stop == [];
            assert Stream(client, reply, deltaOf, last) == Chunks(all.deltas) + [];
          }
        }
      }
  }

  /** A read that fails once the stream has begun: the deltas of the chunks read so far
      are reported, then completion if a `[DONE]` line was among them, and otherwise the
      failure, through `onError` or, for a chat client whose error says the connection
      failed, through the canned answer. */
  lemma MidStreamFailure(client: Client, status: nat, chunks: seq<string>, message: string,
                         deltaOf: string -> Option<string>, last: Option<string>)
    ensures var evs := Stream(client, Response(true, status, Some(Body(chunks, Some(message)))), deltaOf, last);
            var all := DecodeLines(AllLines(chunks), deltaOf);
            && (all.done ==> evs == Chunks(all.deltas) + [Complete])
            && (!all.done && (client == SessionClient || !ConnectionFailed(message)) ==>
                  evs == Chunks(all.deltas) + [Error(message)])
            && (!all.done && client != SessionClient && ConnectionFailed(message) ==>
                  evs == Chunks(all.deltas) + MockEvents(BackendOf(client), last))
  {
    ReadChunksDecodesAllLines(chunks, deltaOf, Stop(client, Some(message), last));
  }

  /** The session client never falls back to the canned answer: a failed request is
      reported through `onError` with the message it failed with. */
  lemma SessionErrorsAreReported(reply: Reply, deltaOf: string -> Option<string>, last: Option<string>)
    requires reply.NetworkFailure? || !reply.ok || reply.body.None?
    ensures Stream(SessionClient, reply, deltaOf, last) ==
              match reply
              case NetworkFailure(message) => [Error(message)]
              case Response(ok, status, body) =>
                if !ok then [Error("HTTP " + NatToString(status))] else [Error("No reader")]
  {
  }

  // ----- the backend's pass-through of the upstream stream -----

  /** The backend's reading of the lines of one upstream chunk, after `filter(Boolean)`:
      the text it appends to the saved answer, and how many `[DONE]` lines it met. */
  datatype Scanned = Scanned(content: string, doneCount: nat)

  function ServerLines(lines: seq<string>, deltaOf: string -> Option<string>): (r: Scanned)
    ensures r.doneCount <= |lines|
  {
    if |lines| == 0 then Scanned([], 0)
    else
      var rest := ServerLines(lines[1..], deltaOf);
      var line := lines[0];
      if StartsWith(line, DataPrefix) then
        var data := line[|DataPrefix|..];
        if data == DoneMarker then Scanned(rest.content, rest.doneCount + 1)
        else
          var delta := OrElse(deltaOf(data), "");
          Scanned(delta + rest.content, rest.doneCount)
      else rest
  }

  /** What the backend writes to the browser: its own extra `[DONE]` event, or an upstream
      chunk passed through unchanged. */
  datatype Write = ExtraDone | Upstream(chunk: string)

  function ExtraDones(n: nat): (ws: seq<Write>)
    ensures |ws| == n && forall i :: 0 <= i < n ==> ws[i] == ExtraDone
  {
    if n == 0 then [] else [ExtraDone] + ExtraDones(n - 1)
  }

  /** The bytes of one write. */
  function Bytes(w: Write): string {
    match w
    case ExtraDone => DataPrefix + DoneMarker + "\n\n"
    case Upstream(chunk) => chunk
  }

  /** The `data` handler: the text appended to the saved answer, and the writes, for one
      upstream chunk. Each `[DONE]` line causes an extra event written before the chunk. */
  function ServerChunk(chunk: string, deltaOf: string -> Option<string>): (string, seq<Write>) {
    var s := ServerLines(NonEmpty(Split(chunk, '\n')), deltaOf);
    (s.content, ExtraDones(s.doneCount) + [Upstream(chunk)])
  }

  /** The whole upstream stream: the saved answer and every write, in order. */
  function ServerStream(chunks: seq<string>, deltaOf: string -> Option<string>): (string, seq<Write>) {
    if |chunks| == 0 then ([], [])
    else
      var (c, ws) := ServerChunk(chunks[0], deltaOf);
      var (c2, ws2) := ServerStream(chunks[1..], deltaOf);
      (c + c2, ws + ws2)
  }

  /** The upstream chunks among the writes, in order. */
  function Upstreams(ws: seq<Write>): seq<string> {
    if |ws| == 0 then []
    else if ws[0].Upstream? then [ws[0].chunk] + Upstreams(ws[1..])
    else Upstreams(ws[1..])
  }

  lemma {:induction false} UpstreamsAppend(a: seq<Write>, b: seq<Write>)
    ensures Upstreams(a + b) == Upstreams(a) + Upstreams(b)
  {
    if |a| == 0 {
      assert a + b == b;
    } else {
      assert (a + b)[1..] == a[1..] + b;
      UpstreamsAppend(a[1..], b);
    }
  }

  lemma {:induction false} NoUpstreamInExtraDones(n: nat)
    ensures Upstreams(ExtraDones(n)) == []
  {
    if n > 0 { NoUpstreamInExtraDones(n - 1); }
  }

  /** Every upstream chunk reaches the browser unchanged and in order: leaving out the
      backend's extra `[DONE]` events, the writes are exactly the upstream chunks. */
  lemma {:induction false} ServerPassesChunksThrough(chunks: seq<string>, deltaOf: string -> Option<string>)
    ensures Upstreams(ServerStream(chunks, deltaOf).1) == chunks
  {
    if |chunks| > 0 {
      var s := ServerLines(NonEmpty(Split(chunks[0], '\n')), deltaOf);
      var ws := ServerChunk(chunks[0], deltaOf).1;
      ServerPassesChunksThrough(chunks[1..], deltaOf);
      NoUpstreamInExtraDones(s.doneCount);
      UpstreamsAppend(ExtraDones(s.doneCount), [Upstream(chunks[0])]);
      UpstreamsAppend(ws, ServerStream(chunks[1..], deltaOf).1);
      assert [chunks[0]] + chunks[1..] == chunks;
    }
  }

  /** Dropping empty lines changes nothing: an empty line never starts with `data: `. */
  lemma {:induction false} ServerIgnoresEmptyLines(lines: seq<string>, deltaOf: string -> Option<string>)
    ensures ServerLines(NonEmpty(lines), deltaOf) == ServerLines(lines, deltaOf)
  {
    if |lines| > 0 {
      ServerIgnoresEmptyLines(lines[1..], deltaOf);
      if lines[0] != [] {
        assert NonEmpty(lines)[1..] == NonEmpty(lines[1..]);
      }
    }
  }

  /** The saved answer is built line by line: on the lines of two runs it is the answer of
      the first run followed by that of the second. */
  lemma {:induction false} ServerLinesAppend(a: seq<string>, b: seq<string>, deltaOf: string -> Option<string>)
    ensures ServerLines(a + b, deltaOf).content == ServerLines(a, deltaOf).content + ServerLines(b, deltaOf).content
  {
    if |a| == 0 {
      assert a + b == b;
    } else {
      assert (a + b)[0] == a[0];
      assert (a + b)[1..] == a[1..] + b;
      ServerLinesAppend(a[1..], b, deltaOf);
    }
  }

  /** The saved answer is the in-order concatenation of the deltas of every line of every
      chunk, as if the stream had been one chunk. */
  lemma {:induction false} ServerContentIsAllLines(chunks: seq<string>, deltaOf: string -> Option<string>)
    ensures ServerStream(chunks, deltaOf).0 == ServerLines(AllLines(chunks), deltaOf).content
  {
    if |chunks| > 0 {
      var lines := Split(chunks[0], '\n');
      ServerIgnoresEmptyLines(lines, deltaOf);
      ServerContentIsAllLines(chunks[1..], deltaOf);
      ServerLinesAppend(lines, AllLines(chunks[1..]), deltaOf);
    }
  }

  /** Where the browser and the backend agree: on lines that carry no white space at either
      end and no `[DONE]`, the answer the backend saves is the concatenation of the deltas
      the browser shows. */
  lemma {:induction false} ServerAgreesWithClient(lines: seq<string>, deltaOf: string -> Option<string>)
    requires forall i :: 0 <= i < |lines| ==> Trim(lines[i]) == lines[i] && lines[i] != DataPrefix + DoneMarker
    ensures ServerLines(lines, deltaOf).content == Concat(DecodeLines(lines, deltaOf).deltas)
    ensures !DecodeLines(lines, deltaOf).done
  {
    if |lines| > 0 {
      ServerAgreesWithClient(lines[1..], deltaOf);
      var line := lines[0];
      var rest := DecodeLines(lines[1..], deltaOf);
      if StartsWith(line, DataPrefix) {
        var data := line[|DataPrefix|..];
        assert line == DataPrefix + data;
        assert data != DoneMarker;
        assert ClientLine(line) == Payload(data);
        if Truthy(deltaOf(data)) {
          assert Concat([deltaOf(data).value] + rest.deltas) == deltaOf(data).value + Concat(rest.deltas) by {
            assert ([deltaOf(data).value] + rest.deltas)[1..] == rest.deltas;
          }
        }
      } else {
        assert ClientLine(line) == Ignored;
      }
    }
  }

  /** The assistant message is saved when the trimmed answer is not empty, that is, when
      the answer is not blank. */
  predicate ShouldPersist(content: string) {
    |Trim(content)| > 0
  }

  lemma PersistIffNotBlank(content: string)
    ensures ShouldPersist(content) <==> !IsBlank(content)
  {
    TrimEmptyIffBlank(content);
  }

  /** The assistant message saved once the upstream stream stops, if any. The upstream
      is read like a client's body: its chunks, then either `end` or `error`. Only the `end`
      handler saves; after an `error` no `end` follows, so nothing is saved, whatever
      deltas had arrived. */
  function SavedAnswer(upstream: Body, deltaOf: string -> Option<string>): (r: Option<string>)
    ensures r.Some? ==> !IsBlank(r.value)
    ensures upstream.failure.Some? ==> r.None?
  {
    var content := ServerStream(upstream.chunks, deltaOf).0;
    PersistIffNotBlank(content);
    if upstream.failure.None? && ShouldPersist(content) then Some(content) else None
  }

  /** A stream ends with a saved assistant message exactly when it ends without an error
      and the deltas of all its lines, concatenated, are not blank; the message saved is
      that concatenation, untrimmed. */
  lemma SavedAnswerSpec(upstream: Body, deltaOf: string -> Option<string>)
    ensures var content := ServerLines(AllLines(upstream.chunks), deltaOf).content;
            && (SavedAnswer(upstream, deltaOf).Some? <==> upstream.failure.None? && !IsBlank(content))
            && (SavedAnswer(upstream, deltaOf).Some? ==> SavedAnswer(upstream, deltaOf).value == content)
  {
    ServerContentIsAllLines(upstream.chunks, deltaOf);
    PersistIffNotBlank(ServerStream(upstream.chunks, deltaOf).0);
  }
}
