/**
 * The parts of an incoming HTTP request that the two handlers of main.go
 * look at, and the per-connection session (the proxy client's fields)
 * that they build from it.
 */
module HttpRequest {
  import opened Wrappers

  /**
   * An incoming request, reduced to what the handlers read: the method (`verb`),
   * the `Authorization` and `Last-Event-Id` headers (the empty string when
   * absent, as Go's Header.Get returns) and the query parameters, each key
   * with the list of its values in order.
   */
  datatype Request = Request(
    verb: string,
    authorization: string,
    lastEventId: string,
    query: map<string, seq<string>>)

  /** Go's url.Values.Get: the first value of the key, or "" when there is none. */
  function QueryGet(query: map<string, seq<string>>, key: string): (v: string)
    ensures key in query && query[key] != [] ==> v == query[key][0]
    ensures key !in query || query[key] == [] ==> v == ""
  {
    if key in query && query[key] != [] then query[key][0] else ""
  }

  /** Both handlers serve GET only. */
  predicate MethodAllowed(req: Request) {
    req.verb == "GET"
  }

  /** The suffix of `s` from index `n` on, and empty when `s` is shorter. */
  function Drop(s: string, n: int): (r: string)
    ensures 0 <= n <= |s| ==> r == s[n..]
  {
    if 0 <= n <= |s| then s[n..] else []
  }

  /**
   * The outcome of the handlers' access-token code: a token, or the run-time
   * panic that slicing a header shorter than six bytes raises.
   */
  datatype TokenResolution = Token(value: string) | SlicePanic

  /**
   * The access-token code of both handlers, as written: a non-empty
   * `Authorization` header is compared, through its six-byte prefix, with
   * the seven-byte literal "Bearer ", which can never be equal, so the
   * header is always taken whole; an empty header falls back to the
   * `access_token` query parameter. A non-empty header shorter than six
   * bytes makes the slice expression panic.
   */
  function ResolveToken(req: Request): (r: TokenResolution)
    ensures req.authorization == "" ==> r == Token(QueryGet(req.query, "access_token"))
    ensures 0 < |req.authorization| < 6 <==> r == SlicePanic
    ensures |req.authorization| >= 6 ==> r == Token(req.authorization)
  {
    var header := req.authorization;
    if header != "" then
      if |header| < 6 then SlicePanic
      else if header[0..6] == "Bearer " then Token(Drop(header, 7))
      else Token(header)
    else
      Token(QueryGet(req.query, "access_token"))
  }

  /** The same code with the prefix test the comparison evidently means. */
  function ResolveTokenIntended(req: Request): (r: TokenResolution)
    ensures r.Token?
  {
    var header := req.authorization;
    if header != "" then
      if |header| >= 7 && header[..7] == "Bearer " then Token(header[7..])
      else Token(header)
    else
      Token(QueryGet(req.query, "access_token"))
  }

  /** A header with the bearer scheme never has its scheme removed. */
  lemma BearerHeaderKeptWhole(req: Request, token: string)
    requires req.authorization == "Bearer " + token
    ensures ResolveToken(req) == Token("Bearer " + token)
    ensures ResolveTokenIntended(req) == Token(token)
  {
    assert req.authorization[..7] == "Bearer ";
  }

  /** A one-byte header panics as written and is taken whole once corrected. */
  lemma ShortHeaderPanics()
    ensures ResolveToken(Request("GET", "x", "", map[])) == SlicePanic
    ensures ResolveTokenIntended(Request("GET", "x", "", map[])) == Token("x")
  {
  }

  /**
   * The corrected resolution: the header alone decides when it is
   * non-empty (stripped of a bearer scheme when it has one), and the query
   * parameter is used only when the header is empty.
   */
  lemma IntendedTokenPrecedence(req: Request)
    ensures req.authorization != "" && (|req.authorization| < 7 || req.authorization[..7] != "Bearer ")
      ==> ResolveTokenIntended(req) == Token(req.authorization)
    ensures req.authorization == ""
      ==> ResolveTokenIntended(req) == Token(QueryGet(req.query, "access_token"))
    ensures req.authorization != "" ==>
      ResolveTokenIntended(req) == ResolveTokenIntended(req.(query := map[]))
  {
  }

  /**
   * The sync cursor of the event-stream endpoint: the `Last-Event-Id`
   * header when it is non-empty (a browser reconnecting), otherwise the
   * `since` query parameter.
   */
  function EventStreamCursor(req: Request): string {
    if req.lastEventId != "" then req.lastEventId else QueryGet(req.query, "since")
  }

  /** The sync cursor of the websocket endpoint: the `since` parameter only. */
  function StreamCursor(req: Request): string {
    QueryGet(req.query, "since")
  }

  /**
   * Cursor precedence on the event-stream endpoint: a non-empty
   * `Last-Event-Id` wins and `since` is then not read; without it the
   * cursor is `since`, as on the websocket endpoint.
   */
  lemma CursorPrecedence(req: Request)
    ensures req.lastEventId != "" ==>
      EventStreamCursor(req) == req.lastEventId && EventStreamCursor(req) == EventStreamCursor(req.(query := map[]))
    ensures req.lastEventId == "" ==> EventStreamCursor(req) == StreamCursor(req)
  {
  }

  /** The websocket endpoint resumes from `since` and never reads `Last-Event-Id`. */
  lemma StreamCursorIgnoresHeader(req: Request, header: string)
    ensures StreamCursor(req) == QueryGet(req.query, "since")
    ensures StreamCursor(req.(lastEventId := header)) == StreamCursor(req)
  {
  }

  /**
   * The proxy client's fields that the handlers set: the upstream URL and
   * access token given to its constructor, the filter, the presence value
   * sent with every sync, and the batch token the next sync resumes from.
   */
  datatype Session = Session(
    upstream: string,
    accessToken: string,
    filter: string,
    presence: string,
    nextSyncBatch: string)

  /** The client the event-stream handler builds: presence rides on every sync. */
  function EventStreamSession(req: Request, upstream: string, token: string): Session {
    Session(upstream, token, QueryGet(req.query, "filter"), QueryGet(req.query, "presence"),
            EventStreamCursor(req))
  }

  /** The client the websocket handler builds: presence is sent apart, not on the sync. */
  function StreamSession(req: Request, upstream: string, token: string): Session {
    Session(upstream, token, QueryGet(req.query, "filter"), "", StreamCursor(req))
  }

  /**
   * The websocket client is the event-stream client with two differences:
   * no presence on the sync, which the websocket handler sends apart, and
   * the `since` cursor whatever `Last-Event-Id` says.
   */
  lemma StreamClient(req: Request, upstream: string, token: string)
    ensures StreamSession(req, upstream, token) ==
            EventStreamSession(req, upstream, token).(presence := "", nextSyncBatch := StreamCursor(req))
    ensures StreamSession(req, upstream, token).nextSyncBatch == QueryGet(req.query, "since")
    ensures req.lastEventId == "" ==>
      StreamSession(req, upstream, token) == EventStreamSession(req, upstream, token).(presence := "")
  {
  }
}
