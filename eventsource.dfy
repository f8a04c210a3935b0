/**
 * The event-stream handler (serveEventSource): method check, token and
 * cursor resolution, an initial sync, then a loop that writes one
 * event-stream record per successful sync, flushes it, stops once the
 * client has gone, and otherwise long-polls again; a failed sync is
 * written back as an HTTP error and ends the handler.
 *
 * The upstream is an oracle: `replies[i]` answers the i-th sync call, and
 * a call beyond the last reply never returns (the handler waits on it).
 * `closedAfter(i)` is the closed flag as the handler reads it after
 * flushing its i-th record.
 */
module EventSource {
  import opened Wrappers
  import opened HttpRequest
  import opened SyncErrors
  import opened SyncJson
  import opened Bridge
  import Sse

  /**
   * The handler's steps once the i-th sync call has been issued with the
   * client in state `s`: an error write on failure; on success the record
   * (with the client's new batch token as id), a flush, and, unless the
   * client has gone, the next sync call and the steps after it.
   */
  function AfterSync(s: Session, replies: seq<Reply>, i: nat, closedAfter: nat -> bool): seq<Event>
    decreases |replies| - i
  {
    if i >= |replies| then []
    else match replies[i]
      case SyncFailed(e) => [ErrorWrite(Classify(e))]
      case Synced(payload, next) =>
        var s' := s.(nextSyncBatch := next);
        [Frame(s'.nextSyncBatch, PopNextBatch(payload)), Flush] +
        (if closedAfter(i) then [] else [SyncCall(s', true)] + AfterSync(s', replies, i + 1, closedAfter))
  }

  /** Everything the handler does for one request. */
  function EventSourceTrace(req: Request, upstream: string, replies: seq<Reply>, closedAfter: nat -> bool)
    : seq<Event>
  {
    if !MethodAllowed(req) then [ErrorWrite(MethodNotAllowed())]
    else match ResolveToken(req)
      case SlicePanic => [HandlerPanic]
      case Token(token) =>
        var s := EventStreamSession(req, upstream, token);
        [SyncCall(s, false)] + AfterSync(s, replies, 0, closedAfter)
  }

  /** serveEventSource, step by step. */
  method ServeEventSource(req: Request, upstream: string, replies: seq<Reply>, closedAfter: nat -> bool)
    returns (trace: seq<Event>)
    ensures trace == EventSourceTrace(req, upstream, replies, closedAfter)
    ensures !MethodAllowed(req) ==> trace == [ErrorWrite(MethodNotAllowed())]
  {
    if !MethodAllowed(req) {
      trace := [ErrorWrite(MethodNotAllowed())];
      return;
    }
    var token := ResolveToken(req);
    if token.SlicePanic? {
      trace := [HandlerPanic];
      return;
    }
    var client := EventStreamSession(req, upstream, token.value);
    trace := [SyncCall(client, false)];
    var i := 0;
    while i < |replies|
      invariant i <= |replies|
      invariant trace + AfterSync(client, replies, i, closedAfter) == EventSourceTrace(req, upstream, replies, closedAfter)
      decreases |replies| - i
    {
      match replies[i]
      case SyncFailed(e) =>
        trace := trace + [ErrorWrite(Classify(e))];
        return;
      case Synced(content, next) =>
        client := client.(nextSyncBatch := next);
        trace := trace + [Frame(client.nextSyncBatch, PopNextBatch(content)), Flush];
        if closedAfter(i) {
          return;
        }
        trace := trace + [SyncCall(client, true)];
        i := i + 1;
    }
    // The upstream has not answered the last sync call: the handler waits on it.
  }

  /** The last step of a non-empty trace. */
  function Last(t: seq<Event>): Event
    requires t != []
  {
    t[|t| - 1]
  }

  /** The steps after an answered, successful sync when the client has gone. */
  lemma StepClosed(s: Session, replies: seq<Reply>, i: nat, closedAfter: nat -> bool)
    requires i < |replies| && replies[i].Synced? && closedAfter(i)
    ensures var a := AfterSync(s, replies, i, closedAfter);
      && a == [Frame(replies[i].nextBatch, PopNextBatch(replies[i].payload)), Flush]
      && Frames(a) == [(replies[i].nextBatch, PopNextBatch(replies[i].payload))]
      && SyncCalls(a) == []
      && Last(a) == Flush
  {
    var frame := Frame(replies[i].nextBatch, PopNextBatch(replies[i].payload));
    SingleStep(frame);
    SingleStep(Flush);
    FramesAppend([frame], [Flush]);
    SyncCallsAppend([frame], [Flush]);
    assert [frame, Flush] == [frame] + [Flush];
  }

  /** The steps after an answered, successful sync when the client is still there. */
  lemma StepOpen(s: Session, replies: seq<Reply>, i: nat, closedAfter: nat -> bool)
    requires i < |replies| && replies[i].Synced? && !closedAfter(i)
    ensures var s' := s.(nextSyncBatch := replies[i].nextBatch);
      var a := AfterSync(s, replies, i, closedAfter);
      var b := AfterSync(s', replies, i + 1, closedAfter);
      && a == [Frame(replies[i].nextBatch, PopNextBatch(replies[i].payload)), Flush, SyncCall(s', true)] + b
      && Frames(a) == [(replies[i].nextBatch, PopNextBatch(replies[i].payload))] + Frames(b)
      && SyncCalls(a) == [(s', true)] + SyncCalls(b)
      && Last(a) == (if b == [] then SyncCall(s', true) else Last(b))
  {
    var s' := s.(nextSyncBatch := replies[i].nextBatch);
    var b := AfterSync(s', replies, i + 1, closedAfter);
    var front := [Frame(replies[i].nextBatch, PopNextBatch(replies[i].payload)), Flush, SyncCall(s', true)];
    assert AfterSync(s, replies, i, closedAfter) == front + b;
    OneCycle(Frame(replies[i].nextBatch, PopNextBatch(replies[i].payload)), SyncCall(s', true));
    FramesAppend(front, b);
    SyncCallsAppend(front, b);
  }

  /** One record, its flush and the next sync call. */
  lemma OneCycle(frame: Event, call: Event)
    requires frame.Frame? && call.SyncCall?
    ensures Frames([frame, Flush, call]) == [(frame.id, frame.data)]
    ensures SyncCalls([frame, Flush, call]) == [(call.session, call.flag)]
  {
    assert [frame, Flush, call] == [frame] + ([Flush] + [call]);
    SingleStep(frame);
    SingleStep(Flush);
    SingleStep(call);
    FramesAppend([Flush], [call]);
    FramesAppend([frame], [Flush] + [call]);
    SyncCallsAppend([Flush], [call]);
    SyncCallsAppend([frame], [Flush] + [call]);
  }

  /** The steps after a failed sync. */
  lemma StepFailed(s: Session, replies: seq<Reply>, i: nat, closedAfter: nat -> bool)
    requires i < |replies| && replies[i].SyncFailed?
    ensures var a := AfterSync(s, replies, i, closedAfter);
      && a == [ErrorWrite(Classify(replies[i].error))]
      && Frames(a) == [] && SyncCalls(a) == []
      && Last(a) == ErrorWrite(Classify(replies[i].error))
  {
    SingleStep(ErrorWrite(Classify(replies[i].error)));
  }

  /** A record whose id is reply j's batch token and whose data is reply j's body, popped. */
  predicate Answers(frame: (string, Result<seq<Member>, PopError>), replies: seq<Reply>, j: nat) {
    j < |replies| && replies[j].Synced? &&
    frame == (replies[j].nextBatch, PopNextBatch(replies[j].payload))
  }

  /**
   * From the i-th sync on, the k-th record answers the (i+k)-th reply,
   * which was a success: its id is that reply's batch token and its data
   * that reply's body, popped.
   */
  lemma {:induction false} AfterSyncFrames(s: Session, replies: seq<Reply>, i: nat, closedAfter: nat -> bool)
    requires i <= |replies|
    ensures i + |Frames(AfterSync(s, replies, i, closedAfter))| <= |replies|
    ensures forall k :: 0 <= k < |Frames(AfterSync(s, replies, i, closedAfter))| ==>
      Answers(Frames(AfterSync(s, replies, i, closedAfter))[k], replies, i + k)
    decreases |replies| - i
  {
    if i < |replies| && replies[i].Synced? && closedAfter(i) {
      StepClosed(s, replies, i, closedAfter);
    } else if i < |replies| && replies[i].Synced? {
      var s' := s.(nextSyncBatch := replies[i].nextBatch);
      var fa := Frames(AfterSync(s, replies, i, closedAfter));
      var fb := Frames(AfterSync(s', replies, i + 1, closedAfter));
      StepOpen(s, replies, i, closedAfter);
      AfterSyncFrames(s', replies, i + 1, closedAfter);
      forall k | 0 <= k < |fa| ensures Answers(fa[k], replies, i + k) {
        if k > 0 {
          assert fa[k] == fb[k - 1];
          assert i + 1 + (k - 1) == i + k;
        } else {
          assert fa[0] == (replies[i].nextBatch, PopNextBatch(replies[i].payload));
        }
      }
      assert i + |fa| <= |replies|;
    } else if i < |replies| {
      StepFailed(s, replies, i, closedAfter);
    }
  }

  /** A later sync call that resumes the client `s` from the batch token of reply j. */
  predicate ResumesAfter(call: (Session, bool), s: Session, replies: seq<Reply>, j: nat) {
    j < |replies| && replies[j].Synced? &&
    call == (s.(nextSyncBatch := replies[j].nextBatch), true)
  }

  /**
   * From the i-th sync on, there is one later sync call per record, less
   * one when the handler stopped right after a record; the k-th of them
   * resumes from the batch token of the (i+k)-th reply, with the rest of
   * the client unchanged and `true` as argument.
   */
  lemma {:induction false} AfterSyncCalls(s: Session, replies: seq<Reply>, i: nat, closedAfter: nat -> bool)
    requires i <= |replies|
    ensures |SyncCalls(AfterSync(s, replies, i, closedAfter))| ==
            |Frames(AfterSync(s, replies, i, closedAfter))| - (if AfterSync(s, replies, i, closedAfter) != [] && Last(AfterSync(s, replies, i, closedAfter)) == Flush then 1 else 0)
    ensures forall k :: 0 <= k < |SyncCalls(AfterSync(s, replies, i, closedAfter))| ==>
      ResumesAfter(SyncCalls(AfterSync(s, replies, i, closedAfter))[k], s, replies, i + k)
    decreases |replies| - i
  {
    if i < |replies| && replies[i].Synced? && closedAfter(i) {
      StepClosed(s, replies, i, closedAfter);
    } else if i < |replies| && replies[i].Synced? {
      var s' := s.(nextSyncBatch := replies[i].nextBatch);
      var ca := SyncCalls(AfterSync(s, replies, i, closedAfter));
      var cb := SyncCalls(AfterSync(s', replies, i + 1, closedAfter));
      StepOpen(s, replies, i, closedAfter);
      AfterSyncCalls(s', replies, i + 1, closedAfter);
      forall k | 0 <= k < |ca| ensures ResumesAfter(ca[k], s, replies, i + k) {
        if k > 0 {
          assert ca[k] == cb[k - 1];
          assert i + 1 + (k - 1) == i + k;
          assert cb[k - 1] == (s'.(nextSyncBatch := replies[i + k].nextBatch), true);
          assert s'.(nextSyncBatch := replies[i + k].nextBatch) == s.(nextSyncBatch := replies[i + k].nextBatch);
        } else {
          assert ca[0] == (s', true);
        }
      }
    } else if i < |replies| {
      StepFailed(s, replies, i, closedAfter);
    }
  }

  /**
   * The three ways a non-empty run of steps after the i-th sync, with n
   * records, can end: after a record, with the closed flag read as set just
   * then; with the classified error of the reply that failed; or waiting on
   * a sync call the upstream never answered.
   */
  predicate EndsAs(a: seq<Event>, replies: seq<Reply>, i: nat, n: nat, closedAfter: nat -> bool)
    requires a != []
  {
    || (Last(a) == Flush && n > 0 && closedAfter(i + n - 1))
    || (i + n < |replies| && replies[i + n].SyncFailed? &&
        Last(a) == ErrorWrite(Classify(replies[i + n].error)))
    || (Last(a).SyncCall? && i + n == |replies|)
  }

  /**
   * The steps after the i-th sync are empty exactly when that sync was
   * never answered, and otherwise end in one of the three ways of EndsAs.
   */
  lemma {:induction false} AfterSyncEnding(s: Session, replies: seq<Reply>, i: nat, closedAfter: nat -> bool)
    requires i <= |replies|
    ensures AfterSync(s, replies, i, closedAfter) == [] <==> i >= |replies|
    ensures AfterSync(s, replies, i, closedAfter) != [] ==>
      EndsAs(AfterSync(s, replies, i, closedAfter), replies, i, |Frames(AfterSync(s, replies, i, closedAfter))|, closedAfter)
    decreases |replies| - i
  {
    if i < |replies| && replies[i].Synced? && closedAfter(i) {
      StepClosed(s, replies, i, closedAfter);
    } else if i < |replies| && replies[i].Synced? {
      var s' := s.(nextSyncBatch := replies[i].nextBatch);
      var a := AfterSync(s, replies, i, closedAfter);
      var b := AfterSync(s', replies, i + 1, closedAfter);
      StepOpen(s, replies, i, closedAfter);
      AfterSyncEnding(s', replies, i + 1, closedAfter);
      assert |Frames(a)| == 1 + |Frames(b)|;
      if b != [] {
        assert EndsAs(b, replies, i + 1, |Frames(b)|, closedAfter);
        assert i + 1 + |Frames(b)| == i + |Frames(a)|;
      }
    } else if i < |replies| {
      StepFailed(s, replies, i, closedAfter);
    }
  }

  /**
   * The closed flag is read as clear after every record but the last one,
   * and when it is read as set the run ends right after that record's flush.
   */
  lemma {:induction false} AfterSyncClosedLast(s: Session, replies: seq<Reply>, i: nat, closedAfter: nat -> bool)
    requires i <= |replies|
    ensures forall j :: i <= j < i + |Frames(AfterSync(s, replies, i, closedAfter))| && closedAfter(j) ==>
      j == i + |Frames(AfterSync(s, replies, i, closedAfter))| - 1 && Last(AfterSync(s, replies, i, closedAfter)) == Flush
    decreases |replies| - i
  {
    if i < |replies| && replies[i].Synced? && closedAfter(i) {
      StepClosed(s, replies, i, closedAfter);
    } else if i < |replies| && replies[i].Synced? {
      var s' := s.(nextSyncBatch := replies[i].nextBatch);
      var a := AfterSync(s, replies, i, closedAfter);
      var b := AfterSync(s', replies, i + 1, closedAfter);
      StepOpen(s, replies, i, closedAfter);
      AfterSyncClosedLast(s', replies, i + 1, closedAfter);
      assert |Frames(a)| == 1 + |Frames(b)|;
    } else if i < |replies| {
      StepFailed(s, replies, i, closedAfter);
    }
  }

  /**
   * The order a handler keeps at step k: a sync call comes right after a
   * flush that comes right after a record, an error write is the last
   * step, and nothing panics.
   */
  predicate OrderedAt(t: seq<Event>, k: nat)
    requires k < |t|
  {
    && (t[k].SyncCall? ==> k >= 2 && t[k - 1] == Flush && t[k - 2].Frame?)
    && (t[k].ErrorWrite? ==> k == |t| - 1)
    && !t[k].HandlerPanic?
  }

  /** Every step after a sync keeps that order. */
  lemma {:induction false} AfterSyncOrder(s: Session, replies: seq<Reply>, i: nat, closedAfter: nat -> bool)
    requires i <= |replies|
    ensures forall k :: 0 <= k < |AfterSync(s, replies, i, closedAfter)| ==> OrderedAt(AfterSync(s, replies, i, closedAfter), k)
    decreases |replies| - i
  {
    if i < |replies| && replies[i].Synced? && closedAfter(i) {
      StepClosed(s, replies, i, closedAfter);
    } else if i < |replies| && replies[i].Synced? {
      var s' := s.(nextSyncBatch := replies[i].nextBatch);
      var a := AfterSync(s, replies, i, closedAfter);
      var b := AfterSync(s', replies, i + 1, closedAfter);
      StepOpen(s, replies, i, closedAfter);
      AfterSyncOrder(s', replies, i + 1, closedAfter);
      forall k | 0 <= k < |a| ensures OrderedAt(a, k) {
        if k >= 3 {
          assert OrderedAt(b, k - 3);
          assert a[k] == b[k - 3];
          if k >= 5 {
            assert a[k - 1] == b[k - 4] && a[k - 2] == b[k - 5];
          }
        }
      }
    } else if i < |replies| {
      StepFailed(s, replies, i, closedAfter);
    }
  }

  /** The client of the first sync call, for a GET request whose token resolves. */
  function FirstClient(req: Request, upstream: string): Session
    requires ResolveToken(req).Token?
  {
    EventStreamSession(req, upstream, ResolveToken(req).value)
  }

  /** A handled request's trace is the first sync call followed by the steps after it. */
  lemma TraceSplits(req: Request, upstream: string, replies: seq<Reply>, closedAfter: nat -> bool)
    requires MethodAllowed(req) && ResolveToken(req).Token?
    ensures EventSourceTrace(req, upstream, replies, closedAfter) ==
            [SyncCall(FirstClient(req, upstream), false)] + AfterSync(FirstClient(req, upstream), replies, 0, closedAfter)
    ensures SyncCalls(EventSourceTrace(req, upstream, replies, closedAfter)) ==
            [(FirstClient(req, upstream), false)] + SyncCalls(AfterSync(FirstClient(req, upstream), replies, 0, closedAfter))
    ensures Frames(EventSourceTrace(req, upstream, replies, closedAfter)) ==
            Frames(AfterSync(FirstClient(req, upstream), replies, 0, closedAfter))
  {
    var first := SyncCall(FirstClient(req, upstream), false);
    var a := AfterSync(FirstClient(req, upstream), replies, 0, closedAfter);
    SyncCallsAppend([first], a);
    FramesAppend([first], a);
    SingleStep(first);
  }

  /**
   * The cursor chain: the first sync call starts from the request's cursor
   * with `false`; the k-th later one (k >= 1) resumes from the batch token
   * of reply k-1, which was a success, with `true`.
   */
  lemma EventSourceResumes(req: Request, upstream: string, replies: seq<Reply>, closedAfter: nat -> bool)
    requires MethodAllowed(req) && ResolveToken(req).Token?
    ensures SyncCalls(EventSourceTrace(req, upstream, replies, closedAfter)) != []
    ensures SyncCalls(EventSourceTrace(req, upstream, replies, closedAfter))[0] == (FirstClient(req, upstream), false)
    ensures FirstClient(req, upstream).nextSyncBatch == EventStreamCursor(req)
    ensures forall k :: 1 <= k < |SyncCalls(EventSourceTrace(req, upstream, replies, closedAfter))| ==>
      ResumesAfter(SyncCalls(EventSourceTrace(req, upstream, replies, closedAfter))[k], FirstClient(req, upstream), replies, k - 1)
  {
    var c := FirstClient(req, upstream);
    var t := EventSourceTrace(req, upstream, replies, closedAfter);
    var a := AfterSync(c, replies, 0, closedAfter);
    TraceSplits(req, upstream, replies, closedAfter);
    var calls := SyncCalls(t);
    var after := SyncCalls(a);
    assert calls == [(c, false)] + after;
    AfterSyncCalls(c, replies, 0, closedAfter);
    assert forall k :: 0 <= k < |after| ==> ResumesAfter(after[k], c, replies, k);
    forall k | 1 <= k < |calls| ensures ResumesAfter(calls[k], c, replies, k - 1) {
      assert calls[k] == after[k - 1];
      assert ResumesAfter(after[k - 1], c, replies, k - 1);
    }
  }

  /** The k-th record of a handled request answers reply k, which was a success. */
  lemma EventSourceAnswers(req: Request, upstream: string, replies: seq<Reply>, closedAfter: nat -> bool)
    requires MethodAllowed(req) && ResolveToken(req).Token?
    ensures forall k :: 0 <= k < |Frames(EventSourceTrace(req, upstream, replies, closedAfter))| ==>
      Answers(Frames(EventSourceTrace(req, upstream, replies, closedAfter))[k], replies, k)
  {
    var c := FirstClient(req, upstream);
    TraceSplits(req, upstream, replies, closedAfter);
    assert Frames(EventSourceTrace(req, upstream, replies, closedAfter)) == Frames(AfterSync(c, replies, 0, closedAfter));
    AfterSyncFrames(c, replies, 0, closedAfter);
  }

  /**
   * One sync call per record plus the first, less one when the handler
   * stopped right after its last record.
   */
  lemma EventSourceCount(req: Request, upstream: string, replies: seq<Reply>, closedAfter: nat -> bool)
    requires MethodAllowed(req) && ResolveToken(req).Token?
    ensures |SyncCalls(EventSourceTrace(req, upstream, replies, closedAfter))| ==
            |Frames(EventSourceTrace(req, upstream, replies, closedAfter))| +
            (if Last(EventSourceTrace(req, upstream, replies, closedAfter)) == Flush then 0 else 1)
  {
    var c := FirstClient(req, upstream);
    var t := EventSourceTrace(req, upstream, replies, closedAfter);
    var a := AfterSync(c, replies, 0, closedAfter);
    TraceSplits(req, upstream, replies, closedAfter);
    assert t == [SyncCall(c, false)] + a;
    assert |SyncCalls(t)| == 1 + |SyncCalls(a)|;
    assert Frames(t) == Frames(a);
    AfterSyncCalls(c, replies, 0, closedAfter);
    if a != [] {
      assert Last(t) == Last(a);
    }
  }

  /** A client built from the request: its upstream, the resolved token, and the `filter` and `presence` parameters. */
  predicate ClientOf(s: Session, req: Request, upstream: string)
    requires ResolveToken(req).Token?
  {
    && s.upstream == upstream
    && s.accessToken == ResolveToken(req).value
    && s.filter == QueryGet(req.query, "filter")
    && s.presence == QueryGet(req.query, "presence")
  }

  /**
   * Every sync call of a handled request carries the upstream, the resolved
   * token, the `filter` parameter and the `presence` parameter: presence
   * goes with every sync of the event-stream handler.
   */
  lemma EventStreamClient(req: Request, upstream: string, replies: seq<Reply>, closedAfter: nat -> bool)
    requires MethodAllowed(req) && ResolveToken(req).Token?
    ensures forall k :: 0 <= k < |SyncCalls(EventSourceTrace(req, upstream, replies, closedAfter))| ==>
      ClientOf(SyncCalls(EventSourceTrace(req, upstream, replies, closedAfter))[k].0, req, upstream)
  {
    var c := FirstClient(req, upstream);
    var calls := SyncCalls(EventSourceTrace(req, upstream, replies, closedAfter));
    EventSourceResumes(req, upstream, replies, closedAfter);
    forall k | 0 <= k < |calls| ensures ClientOf(calls[k].0, req, upstream) {
      if k > 0 {
        assert ResumesAfter(calls[k], c, replies, k - 1);
      }
    }
  }

  /**
   * How a handled request ends: after a record, only when the closed flag
   * was read as set right after it; with the classified error of the first
   * failed reply; or waiting on a sync call that was never answered. The
   * flag was read as clear after every earlier record.
   */
  lemma EventSourceEnding(req: Request, upstream: string, replies: seq<Reply>, closedAfter: nat -> bool)
    requires MethodAllowed(req) && ResolveToken(req).Token?
    ensures EndsAs(EventSourceTrace(req, upstream, replies, closedAfter), replies, 0,
                   |Frames(EventSourceTrace(req, upstream, replies, closedAfter))|, closedAfter)
    ensures forall j :: 0 <= j < |Frames(EventSourceTrace(req, upstream, replies, closedAfter))| && closedAfter(j) ==>
      j == |Frames(EventSourceTrace(req, upstream, replies, closedAfter))| - 1 &&
      Last(EventSourceTrace(req, upstream, replies, closedAfter)) == Flush
  {
    var c := FirstClient(req, upstream);
    var t := EventSourceTrace(req, upstream, replies, closedAfter);
    var a := AfterSync(c, replies, 0, closedAfter);
    TraceSplits(req, upstream, replies, closedAfter);
    AfterSyncEnding(c, replies, 0, closedAfter);
    AfterSyncClosedLast(c, replies, 0, closedAfter);
    if a != [] {
      assert Last(t) == Last(a);
    }
  }

  /**
   * The closed flag stops the handler: once it is read as set after record
   * j, there are at most j + 1 records and j + 1 sync calls.
   */
  lemma EventSourceStopsWhenClosed(req: Request, upstream: string, replies: seq<Reply>, closedAfter: nat -> bool, j: nat)
    requires MethodAllowed(req) && ResolveToken(req).Token?
    requires closedAfter(j)
    ensures |Frames(EventSourceTrace(req, upstream, replies, closedAfter))| <= j + 1
    ensures |SyncCalls(EventSourceTrace(req, upstream, replies, closedAfter))| <= j + 1
  {
    var t := EventSourceTrace(req, upstream, replies, closedAfter);
    EventSourceCount(req, upstream, replies, closedAfter);
    EventSourceEnding(req, upstream, replies, closedAfter);
    if |Frames(t)| > j {
      assert j == |Frames(t)| - 1 && Last(t) == Flush;
    }
  }

  /**
   * The order a handled request keeps: it opens with the first sync call;
   * every later sync call follows a record and its flush; an error write
   * comes last; nothing panics.
   */
  lemma EventSourceOrder(req: Request, upstream: string, replies: seq<Reply>, closedAfter: nat -> bool)
    requires MethodAllowed(req) && ResolveToken(req).Token?
    ensures EventSourceTrace(req, upstream, replies, closedAfter)[0] == SyncCall(FirstClient(req, upstream), false)
    ensures forall k :: 1 <= k < |EventSourceTrace(req, upstream, replies, closedAfter)| ==>
      OrderedAt(EventSourceTrace(req, upstream, replies, closedAfter), k)
  {
    var c := FirstClient(req, upstream);
    var t := EventSourceTrace(req, upstream, replies, closedAfter);
    var a := AfterSync(c, replies, 0, closedAfter);
    TraceSplits(req, upstream, replies, closedAfter);
    AfterSyncOrder(c, replies, 0, closedAfter);
    forall k | 1 <= k < |t| ensures OrderedAt(t, k) {
      assert OrderedAt(a, k - 1);
      assert t[k] == a[k - 1];
      if k >= 3 {
        assert t[k - 1] == a[k - 2] && t[k - 2] == a[k - 3];
      }
    }
  }

  /**
   * The text of one record: its id, and as data the popped body rendered
   * as JSON text, or nothing when popping failed (a nil byte slice prints
   * as empty).
   */
  function RecordText(frame: (string, Result<seq<Member>, PopError>), render: seq<Member> -> string): (string, string) {
    (frame.0, if frame.1.Ok? then render(frame.1.value) else "")
  }

  function RecordTexts(frames: seq<(string, Result<seq<Member>, PopError>)>, render: seq<Member> -> string)
    : seq<(string, string)>
  {
    seq(|frames|, k requires 0 <= k < |frames| => RecordText(frames[k], render))
  }

  /** The event a browser reads for record k: a `sync` event with reply k's batch token and popped body. */
  predicate ReadAs(event: Sse.MessageEvent, replies: seq<Reply>, k: nat, render: seq<Member> -> string) {
    k < |replies| && replies[k].Synced? &&
    event == Sse.MessageEvent("sync", RecordText((replies[k].nextBatch, PopNextBatch(replies[k].payload)), render).1,
                              replies[k].nextBatch)
  }

  /** Records that answer the replies in order are read back as those replies. */
  lemma AnsweredRecordsRead(frames: seq<(string, Result<seq<Member>, PopError>)>, replies: seq<Reply>,
                            render: seq<Member> -> string)
    requires forall k :: 0 <= k < |frames| ==> Answers(frames[k], replies, k)
    requires forall m :: Sse.OneLine(render(m))
    requires forall j :: 0 <= j < |replies| && replies[j].Synced? ==>
      Sse.OneLine(replies[j].nextBatch) && '\0' !in replies[j].nextBatch
    ensures |Sse.Interpret(Sse.Records(RecordTexts(frames, render), "sync"), Sse.Fresh)| == |frames|
    ensures forall k :: 0 <= k < |frames| ==>
      ReadAs(Sse.Interpret(Sse.Records(RecordTexts(frames, render), "sync"), Sse.Fresh)[k], replies, k, render)
  {
    var texts := RecordTexts(frames, render);
    forall k | 0 <= k < |texts|
      ensures Sse.OneLine(texts[k].0) && Sse.OneLine(texts[k].1) && '\0' !in texts[k].0
    {
      assert Answers(frames[k], replies, k);
    }
    Sse.RecordsDispatch(texts, "sync", Sse.Fresh);
    var events := Sse.Interpret(Sse.Records(texts, "sync"), Sse.Fresh);
    forall k | 0 <= k < |frames| ensures ReadAs(events[k], replies, k, render) {
      assert Answers(frames[k], replies, k);
      assert texts[k] == RecordText(frames[k], render);
    }
  }

  /**
   * What a browser reads from a handled request's stream: one `sync` event
   * per record, the k-th carrying reply k's batch token as its last event id
   * and reply k's popped body as its data (empty when popping failed). The
   * JSON text never holds a raw line feed or carriage return, and batch
   * tokens hold neither of those nor NUL.
   */
  lemma EventSourceWire(req: Request, upstream: string, replies: seq<Reply>, closedAfter: nat -> bool,
                        render: seq<Member> -> string)
    requires MethodAllowed(req) && ResolveToken(req).Token?
    requires forall m :: Sse.OneLine(render(m))
    requires forall j :: 0 <= j < |replies| && replies[j].Synced? ==>
      Sse.OneLine(replies[j].nextBatch) && '\0' !in replies[j].nextBatch
    ensures |Sse.Interpret(Sse.Records(RecordTexts(Frames(EventSourceTrace(req, upstream, replies, closedAfter)), render), "sync"), Sse.Fresh)|
            == |Frames(EventSourceTrace(req, upstream, replies, closedAfter))|
    ensures forall k :: 0 <= k < |Frames(EventSourceTrace(req, upstream, replies, closedAfter))| ==>
      ReadAs(Sse.Interpret(Sse.Records(RecordTexts(Frames(EventSourceTrace(req, upstream, replies, closedAfter)), render), "sync"), Sse.Fresh)[k],
             replies, k, render)
  {
    EventSourceAnswers(req, upstream, replies, closedAfter);
    AnsweredRecordsRead(Frames(EventSourceTrace(req, upstream, replies, closedAfter)), replies, render);
  }

  /**
   * A browser that reconnects after reading record k sends that record's id
   * as `Last-Event-Id`; when the id is non-empty, the new request's first
   * sync resumes exactly where the old handler's next sync would have: from
   * reply k's batch token, with the same token, filter and presence.
   */
  lemma ReconnectResumes(req: Request, upstream: string, replies: seq<Reply>, closedAfter: nat -> bool, k: nat)
    requires MethodAllowed(req) && ResolveToken(req).Token?
    requires k < |Frames(EventSourceTrace(req, upstream, replies, closedAfter))|
    requires Frames(EventSourceTrace(req, upstream, replies, closedAfter))[k].0 != ""
    ensures MethodAllowed(req.(lastEventId := Frames(EventSourceTrace(req, upstream, replies, closedAfter))[k].0))
    ensures ResolveToken(req.(lastEventId := Frames(EventSourceTrace(req, upstream, replies, closedAfter))[k].0)) == ResolveToken(req)
    ensures k < |replies| && replies[k].Synced?
    ensures FirstClient(req.(lastEventId := Frames(EventSourceTrace(req, upstream, replies, closedAfter))[k].0), upstream)
            == FirstClient(req, upstream).(nextSyncBatch := replies[k].nextBatch)
    ensures k + 1 < |SyncCalls(EventSourceTrace(req, upstream, replies, closedAfter))| ==>
      SyncCalls(EventSourceTrace(req, upstream, replies, closedAfter))[k + 1].0 ==
      FirstClient(req.(lastEventId := Frames(EventSourceTrace(req, upstream, replies, closedAfter))[k].0), upstream)
  {
    var t := EventSourceTrace(req, upstream, replies, closedAfter);
    EventSourceAnswers(req, upstream, replies, closedAfter);
    EventSourceResumes(req, upstream, replies, closedAfter);
    assert Answers(Frames(t)[k], replies, k);
    var req2 := req.(lastEventId := Frames(t)[k].0);
    assert ResolveToken(req2) == ResolveToken(req);
    if k + 1 < |SyncCalls(t)| {
      assert ResumesAfter(SyncCalls(t)[k + 1], FirstClient(req, upstream), replies, k);
    }
  }
}
