# matrix-websockets-proxy, modelled in Dafny

The proxy lets a browser follow a Matrix homeserver's `/sync` stream over a
websocket (`/stream`) or an HTML event stream (`/events`). Each handler
checks the request method, resolves the access token and the sync cursor,
and runs an initial sync against the upstream before answering. The
event-stream handler then writes one event-stream record per successful
sync, flushing after each, and long-polls again until the client goes away
or a sync fails. The websocket handler upgrades the connection and sends the
initial sync body. It then hands the connection to the websocket loop of the
`proxy` package.

The model follows `main.go` as written. It has these modules:

- `HttpRequest` (request.dfy): the request, its query parameters, the
  method check, access-token resolution as written and as intended, the
  cursor of each endpoint, and the proxy client state each handler builds.
- `SyncErrors` (errors.dfy): the sync error types, `httpError`,
  `handleHttpError`, and the type switch that picks between them.
- `SyncJson` (syncjson.dfy): `PopNextBatch` over abstract JSON values,
  following the decode and encode rules of Go's `encoding/json` for its
  eight-field record. It also has the intended pop, which removes
  `next_batch` and passes every other key through.
- `Sse` (sse.dfy): the record the handler writes, and a reader for the
  stream as specified in the HTML Living Standard, section 9.2
  (server-sent events). The reader shows what a browser reads back.
- `Bridge` (bridge.dfy): the upstream's sync replies, the steps a handler
  takes (its trace), and functions that project a trace onto its sync
  calls and its records.
- `EventSource` (eventsource.dfy): `serveEventSource` as a method with a
  loop, proved equal to a recursive trace function, and lemmas about
  that trace.
- `WebSocketStream` (stream.dfy): `serveStream` as a method whose
  postconditions give its trace in every case.

The collaborators are oracles:

- The upstream's sync replies are a sequence, consumed one per call. A
  call beyond the last reply never returns.
- The flag that the close-notification goroutine clears is a function from
  record number to boolean, read after each flush.
- The websocket handshake outcome and the `-compress` flag are parameters.

## Model

| member | source | states |
|---|---|---|
| HttpRequest.ResolveToken | main.go:79-86 | as written: an empty `Authorization` header falls back to `access_token`; a header of 1–5 characters panics (exactly those); any header of six characters or more is taken whole, because a six-character slice never equals the seven-character "Bearer " |
| HttpRequest.ResolveTokenIntended | main.go:150-157 | the corrected resolution never panics; it always yields a token |
| HttpRequest.BearerHeaderKeptWhole | main.go:81-83 | a header `Bearer <t>` becomes the token `Bearer <t>` as written, but `<t>` when corrected |
| HttpRequest.ShortHeaderPanics | main.go:81 | a one-character header panics as written, and is taken whole when corrected |
| HttpRequest.IntendedTokenPrecedence | main.go:79-86 | corrected: a non-empty header decides alone and the query is not read; an empty header uses `access_token` |
| HttpRequest.CursorPrecedence | main.go:93-98 | `EventStreamCursor`: on `/events` a non-empty `Last-Event-Id` wins and `since` is then ignored; otherwise the cursor is `since`, as on `/stream` |
| HttpRequest.StreamCursorIgnoresHeader | main.go:161 | `StreamCursor`: `/stream` resumes from `since`, whatever `Last-Event-Id` says |
| HttpRequest.StreamClient | main.go:160-163 | `StreamSession`: the event-stream client with no presence on the sync, since the websocket handler sends presence apart, and with the `since` cursor; without `Last-Event-Id` presence is the only difference |
| SyncErrors.PlainError | main.go:195-197 | `httpError` answers with the given status and content type `text/plain; charset=utf-8`; the body is `Method Not Allowed` for 405 and `Internal Server Error` for 500, each followed by a newline |
| SyncErrors.Classify | main.go:108-118 | a Matrix error or HTTP error is relayed by `handleHttpError` (main.go:199-203, `Relay`) with its status, content type and body unchanged; anything else is the fixed plain 500 |
| SyncErrors.ClassifyIgnoresErrorDetail | main.go:166-176 | the response never depends on a Matrix error's code or message, or on an internal error's description |
| SyncJson.PopNextBatch | main.go:206-226 | succeeds exactly on decodable input. On success: the eight declared keys in declaration order, `next_batch` = "", the six pass-through values copied (null when absent), the count copied (0 when absent); a null document gives all nulls and 0. Malformed input is a syntax error |
| SyncJson.Unmarshal | main.go:218-221 | `json.Unmarshal` into the record succeeds exactly on a decodable document: null, or an object whose count is absent, null or a 64-bit integer and whose `next_batch` is absent, null or a string. Malformed input is a syntax error, and a decoded count fits in 64 bits |
| SyncJson.Marshal | main.go:224 | `json.Marshal` of the record writes the eight declared keys, in declaration order, each once |
| SyncJson.UnmarshalMarshal | main.go:218-224 | decoding an encoded record gives the record back whenever its count fits in 64 bits |
| SyncJson.PopNextBatchIdempotent | main.go:218-224 | popping a popped body changes nothing |
| SyncJson.PopNextBatchIntended | main.go:205 | succeeds exactly on an object or null. For an object: removes `next_batch` and keeps every other key with its value |
| SyncJson.OneTimeKeyCountsRejected | main.go:214 | a body whose `device_one_time_keys_count` is an object fails as written; the intended pop keeps the object |
| SyncJson.AsWrittenAgreesWithIntended | main.go:208-213 | where both pops succeed, the six pass-through fields agree |
| Sse.RecordDispatches | main.go:123-126 | the `id:` / `event:` / `data:` lines and the blank line are read as one event with that type, data and last event id, for fields holding no line feed, carriage return (either ends a line in the standard) or NUL in the id |
| Sse.RecordsDispatch | main.go:123-129 | a stream of such records is read as one event per record, in order |
| Bridge.MethodNotAllowed | main.go:56-60 | a non-GET request is answered with status 405 |
| EventSource.ServeEventSource | main.go:53-135 | the loop's trace equals `EventSourceTrace`; a non-GET request gets only the 405 |
| EventSource.AfterSyncFrames | main.go:106-129 | from the i-th sync on, the k-th record answers reply i+k, which was a success: the id is its batch token and the data its popped body |
| EventSource.AfterSyncCalls | main.go:131-134 | from the i-th sync on, one further sync per record, minus one if the handler stopped after a record; the k-th resumes from reply i+k's batch token with `true` |
| EventSource.AfterSyncEnding | main.go:106-135 | the steps are empty exactly when the sync was never answered. Otherwise they end in one of three ways: closed after a record, the error of the failed reply, or waiting on an unanswered sync |
| EventSource.AfterSyncClosedLast | main.go:131-133 | the closed flag is read as clear after every record but the last; a set flag ends the steps on that record's flush |
| EventSource.AfterSyncOrder | main.go:107-134 | every sync call follows a flush that follows a record, an error write comes last, nothing panics |
| EventSource.TraceSplits | main.go:105-106 | a handled request opens with the sync `Sync(false)` of the client built from the request |
| EventSource.EventSourceResumes | main.go:93-134 | the first sync starts from the request's cursor (`Last-Event-Id`, else `since`) with `false`; the k-th later sync resumes from reply k-1's batch token with `true` |
| EventSource.EventSourceAnswers | main.go:106-126 | record k of a whole request answers reply k, which was a success: its id is that reply's batch token and its data that reply's body, popped |
| EventSource.EventSourceCount | main.go:106-134 | the number of sync calls is the number of records, plus one unless the handler stopped right after a record |
| EventSource.EventStreamClient | main.go:89-91 | every sync call of a request carries the upstream, the resolved token, the `filter` parameter and the `presence` parameter: presence goes with every sync |
| EventSource.EventSourceEnding | main.go:106-135 | a whole request ends in one of the three ways, and the closed flag is read as set only after the last record |
| EventSource.EventSourceStopsWhenClosed | main.go:131-133 | a set closed flag after record j allows at most j+1 records and j+1 sync calls |
| EventSource.EventSourceOrder | main.go:105-134 | whole-request order: first the initial sync; each later sync follows a record and a flush; an error write comes last |
| EventSource.AnsweredRecordsRead | main.go:123-126 | records that answer the replies in order are read back as `sync` events carrying each reply's batch token and popped body |
| EventSource.EventSourceWire | main.go:123-129 | what a browser reads from the records of a handled request is one `sync` event per record, with reply k's batch token as last event id and its popped body, or nothing on a pop error, as data |
| EventSource.ReconnectResumes | main.go:93-98 | a browser that reconnects with record k's non-empty id resumes from reply k's batch token, with the same credential, filter and presence; when the old handler made a next sync, it used exactly that client |
| WebSocketStream.ServeStream | main.go:140-192 | the whole trace for each case, and handler order (detailed after this table) |

`WebSocketStream.ServeStream` states the whole trace in each case, and this
order:

- Only GET is served (405 otherwise), and a short authorization header
  panics.
- The presence update comes first, then one sync from `since` with `false`.
  Nothing follows while the upstream does not answer.
- A failed sync is followed only by its classified error write: no upgrade,
  no send.
- An upgrade happens exactly when that sync succeeds. It is the third step
  and offers `m.json` with the compression flag. It either fails, or is
  followed by the send and then `Start`.
- The send carries the initial sync body unchanged: unlike an event-stream
  record, its `next_batch` is not popped.
- An error write is the last step.

`EventSource.AfterSync` (the steps after a sync, main.go:106-135) and
`EventSource.EventSourceTrace` (a whole request, main.go:53-135) are the
trace functions the loop is proved against. Their properties are the
contracts of the `AfterSync…` and `EventSource…` lemmas in the table.
`Sse.Record` (main.go:123-126) is the record's text, and
`Sse.RecordDispatches` states what it means.

### Where the code and the intended design differ

The model follows the code at each of these points:

- The bearer-scheme strip never fires (main.go:81, main.go:152). See
  Findings.
- `PopNextBatch` does not remove `next_batch`; it sets it to "". It drops
  every key outside its eight fields. It writes absent fields as `null`, or
  `0` for the count. `SyncJson.PopNextBatchIntended` states the intended
  pop.
- The first sync of both handlers passes `false`, and every later sync of
  the event-stream handler passes `true`. The websocket connection's later
  syncs happen inside the `proxy` package's `Start`, which is not modelled. The meaning of that argument lives in the `proxy` package, which is
  not part of this model. The trace records the value as passed.
- A `PopNextBatch` error does not end the loop. The record goes out with an
  empty `data:` line, and the error is overwritten by the next sync.
- A sync that fails after records have been written is still answered with
  an `httpError`/`handleHttpError` write. At that point the status line has
  already gone out, so only the body reaches the client, inside the stream.
  The trace records the write.
- The websocket handler sends presence through `UpdatePresence` before its
  sync (main.go:163). The event-stream handler sets it on the client, so it
  goes with every sync (main.go:91).

## Left out

- Process setup (main.go:30-49): flags, the static file server, route registration and `ListenAndServe`. This is configuration and I/O.
- The `proxy` package (`NewClient`, `Sync`, `UpdatePresence`, `New`, `SendMessage`, `Start`, its error types): it is not part of this model. Its calls are oracle replies and trace events. The websocket loop after `Start` is not modelled.
- gorilla/websocket: only "upgrade attempted, succeeded or failed" is modelled, with the subprotocol list and compression flag it is given.
- The close-notification goroutine (main.go:70-77): this is concurrency. The flag it clears is the `closedAfter` oracle, read where main.go:131 reads it.
- The `http.Flusher` capability check (main.go:62-68) and the four response headers (main.go:100-104): these are `net/http` details.
- `net/http` behaviour when a status is written after the body has started (a superfluous `WriteHeader`): only the write itself is in the trace.
- Byte-level `encoding/json`: it is modelled on abstract values instead. Left out are whitespace, string escaping, case-insensitive key matching, float64 conversion of numbers inside `interface{}` values (a number outside float64's range anywhere in a pass-through field makes Go's decode fail with an `UnmarshalTypeError`, so `PopNextBatch` returns an error, while the model's `Decodable` accepts such a body), and key order in nested objects. The model keeps integer versus non-integer literals for the count. It keeps 64-bit overflow and null as a no-op.
- Duplicate keys in a sync body: a document is a map, so it cannot hold the same key twice. Go's decoder handles duplicates field by field (a later null leaves an `int` unchanged, an earlier type error still fails the decode), and none of that is modelled.
- EventSource.EventSourceWire: covers the records only. A sync that fails after records were written sends the upstream's error body into the same stream (main.go:108-117), and what a browser reads from that body, possibly further events, is not stated. The JSON text is a `render` parameter assumed to contain no raw line feed or carriage return, which `encoding/json` guarantees by escaping both. Batch tokens are assumed to contain no line feed, carriage return or NUL; main.go:123 writes the upstream's token verbatim, and what a browser reads from a token that breaks this is not stated.
- Sse.RecordDispatches: the reader ends lines at line feeds only; carriage-return line ends and the `retry` field are not modelled. Its requirement excludes both characters from the record's fields, so on every record it covers this reader and the standard's agree. The handler never writes a `retry` field.
- Headers and query values are strings of characters, not bytes: the 6-byte slice at main.go:81 is modelled as six characters.
- SyncErrors.PlainError: the body is stated for the two statuses the handlers produce (405, 500); the reason phrase of other codes is not modelled.
- Logging throughout.

## Findings

| source | as written | input that shows it | evidently intended | confidence | as-written member | corrected member |
|---|---|---|---|---|---|---|
| main.go:81 | `accessToken[0:6] == "Bearer "` compares six bytes with a seven-byte literal, so it is never true. A non-empty header under six bytes panics on the slice | `Authorization: Bearer abc` is sent upstream as the token `Bearer abc`; `Authorization: x` panics the handler | strip a leading `Bearer ` when present, and take any other header whole | high; not executed | HttpRequest.BearerHeaderKeptWhole | HttpRequest.IntendedTokenPrecedence |
| main.go:214 | `device_one_time_keys_count` is decoded into an `int` | a sync body whose `device_one_time_keys_count` is an object such as `{"signed_curve25519": 50}` fails to decode, so the record's `data:` line is empty | pass the value through unchanged, as the other fields are | medium; not executed | SyncJson.OneTimeKeyCountsRejected | SyncJson.PopNextBatchIntended |

The handlers use the code as written (`ResolveToken`, `PopNextBatch`), so
their traces show what the program does. The corrected definitions stand
beside them with their own proved properties.
