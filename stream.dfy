/**
 * The websocket handler (serveStream): method check, token resolution, a
 * presence update, one initial sync before any upgrade, then the upgrade
 * offering the `m.json` subprotocol, the first message, and the hand-off
 * to the connection's own loop.
 *
 * The upstream is an oracle: `reply` answers the initial sync, and None
 * means it never returns. `upgradeSucceeds` is the outcome of the
 * websocket handshake.
 */
module WebSocketStream {
  import opened Wrappers
  import opened HttpRequest
  import opened SyncErrors
  import opened SyncJson
  import opened Bridge

  /** The subprotocols the upgrade offers. */
  const Subprotocols: seq<string> := ["m.json"]

  /** The step a trace takes at k, if it is that long. */
  predicate StepIs(t: seq<Event>, k: nat, e: Event) {
    k < |t| && t[k] == e
  }

  /** A GET request whose token resolves: the handler goes on to sync. */
  predicate Handled(req: Request) {
    MethodAllowed(req) && ResolveToken(req).Token?
  }

  /**
   * serveStream, step by step. Only GET is served, and a short
   * authorization header panics. Otherwise presence goes upstream before
   * the one initial sync, which resumes from `since` with `false`, and then:
   * nothing more while the upstream does not answer; a failed sync is
   * written back as its classified error and no upgrade is attempted; a
   * successful one is followed by the upgrade offering exactly `m.json`,
   * which either fails or is followed by the initial sync body, sent as the
   * upstream returned it (its `next_batch` is not popped), and the start of
   * the connection's loop.
   */
  method ServeStream(req: Request, upstream: string, reply: Option<Reply>, upgradeSucceeds: bool, compress: bool)
    returns (trace: seq<Event>)
    ensures !MethodAllowed(req) ==> trace == [ErrorWrite(MethodNotAllowed())]
    ensures MethodAllowed(req) && ResolveToken(req).SlicePanic? ==> trace == [HandlerPanic]
    ensures Handled(req) ==>
      && StepIs(trace, 0, PresenceUpdate(QueryGet(req.query, "presence")))
      && StepIs(trace, 1, SyncCall(StreamSession(req, upstream, ResolveToken(req).value), false))
      && StreamSession(req, upstream, ResolveToken(req).value).nextSyncBatch == QueryGet(req.query, "since")
    ensures Handled(req) && reply.None? ==> |trace| == 2
    ensures Handled(req) && reply.Some? && reply.value.SyncFailed? ==>
      |trace| == 3 && trace[2] == ErrorWrite(Classify(reply.value.error))
    ensures Handled(req) && reply.Some? && reply.value.Synced? ==>
      && StepIs(trace, 2, Upgrade(["m.json"], compress))
      && (upgradeSucceeds ==> |trace| == 5 && trace[3] == Send(reply.value.payload) && trace[4] == Start)
      && (!upgradeSucceeds ==> |trace| == 4 && trace[3] == UpgradeFailed)
    ensures (exists k :: 0 <= k < |trace| && trace[k].Upgrade?) <==>
      Handled(req) && reply.Some? && reply.value.Synced?
    ensures forall k :: 0 <= k < |trace| && trace[k].Upgrade? ==>
      k == 2 && trace[1].SyncCall? && trace[k] == Upgrade(["m.json"], compress)
    ensures forall k :: 0 <= k < |trace| && trace[k].Send? ==>
      && reply.Some? && reply.value.Synced? && trace[k].payload == reply.value.payload
      && k == 3 && trace[2].Upgrade? && upgradeSucceeds && StepIs(trace, 4, Start) && |trace| == 5
    ensures forall k :: 0 <= k < |trace| && trace[k].ErrorWrite? ==> k == |trace| - 1
  {
    if !MethodAllowed(req) {
      trace := [ErrorWrite(MethodNotAllowed())];
      return;
    }
    var token := ResolveToken(req);
    if token.SlicePanic? {
      trace := [HandlerPanic];
      return;
    }
    var client := StreamSession(req, upstream, token.value);
    trace := [PresenceUpdate(QueryGet(req.query, "presence"))];
    trace := trace + [SyncCall(client, false)];
    if reply.None? {
      // The upstream never answers the initial sync: the handler waits on it.
      return;
    }
    match reply.value
    case SyncFailed(e) =>
      trace := trace + [ErrorWrite(Classify(e))];
      return;
    case Synced(msg, _) =>
      trace := trace + [Upgrade(Subprotocols, compress)];
      if !upgradeSucceeds {
        trace := trace + [UpgradeFailed];
        assert trace[2].Upgrade?;
        return;
      }
      trace := trace + [Send(msg)];
      trace := trace + [Start];
      assert trace[2].Upgrade?;
  }
}
