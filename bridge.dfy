/**
 * What the two handlers share: the upstream's answer to one sync call
 * (the proxy client is an oracle here) and the observable steps a handler
 * takes, recorded in order.
 */
module Bridge {
  import opened Wrappers
  import opened HttpRequest
  import opened SyncErrors
  import opened SyncJson

  /**
   * The upstream's answer to one sync call: a response body and the batch
   * token the client resumes from next, or a failure.
   */
  datatype Reply = Synced(payload: RawPayload, nextBatch: string) | SyncFailed(error: SyncError)

  /** One observable step of a handler. */
  datatype Event =
      /** An HTTP error response written to the client. */
    | ErrorWrite(response: Response)
      /** The handler died in a run-time panic. */
    | HandlerPanic
      /** A sync call issued with the client in this state and this boolean argument. */
    | SyncCall(session: Session, flag: bool)
      /** One event-stream record: the batch token as id and the popped body as data. */
    | Frame(id: string, data: Result<seq<Member>, PopError>)
      /** The response writer flushed to the client. */
    | Flush
      /** A presence update sent upstream apart from the sync. */
    | PresenceUpdate(presence: string)
      /** A websocket upgrade attempted, offering these subprotocols. */
    | Upgrade(subprotocols: seq<string>, compression: bool)
      /** The upgrade was refused. */
    | UpgradeFailed
      /** A websocket message sent with this sync body. */
    | Send(payload: RawPayload)
      /** The websocket connection's own sync loop started. */
    | Start

  /** The response to a request with any method other than GET. */
  function MethodNotAllowed(): (r: Response)
    ensures r.status == 405
  {
    PlainError(StatusMethodNotAllowed)
  }

  /** The sync calls of a trace, in order, with the client state and argument of each. */
  function SyncCalls(t: seq<Event>): seq<(Session, bool)> {
    if t == [] then []
    else (if t[0].SyncCall? then [(t[0].session, t[0].flag)] else []) + SyncCalls(t[1..])
  }

  /** The event-stream records of a trace, in order, as (id, popped body). */
  function Frames(t: seq<Event>): seq<(string, Result<seq<Member>, PopError>)> {
    if t == [] then []
    else (if t[0].Frame? then [(t[0].id, t[0].data)] else []) + Frames(t[1..])
  }

  lemma {:induction false} SyncCallsAppend(a: seq<Event>, b: seq<Event>)
    ensures SyncCalls(a + b) == SyncCalls(a) + SyncCalls(b)
  {
    if a != [] {
      assert (a + b)[1..] == a[1..] + b;
      SyncCallsAppend(a[1..], b);
    } else {
      assert a + b == b;
    }
  }

  lemma {:induction false} FramesAppend(a: seq<Event>, b: seq<Event>)
    ensures Frames(a + b) == Frames(a) + Frames(b)
  {
    if a != [] {
      assert (a + b)[1..] == a[1..] + b;
      FramesAppend(a[1..], b);
    } else {
      assert a + b == b;
    }
  }

  lemma SingleStep(e: Event)
    ensures Frames([e]) == (if e.Frame? then [(e.id, e.data)] else [])
    ensures SyncCalls([e]) == (if e.SyncCall? then [(e.session, e.flag)] else [])
  {
    assert [e][1..] == [];
  }
}
