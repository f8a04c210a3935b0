/**
 * The event-stream framing of the HTML Living Standard, section 9.2
 * (Server-sent events): the record the event-stream handler writes for
 * each sync, and an interpreter of the stream as a browser reads it, so
 * that what is written can be shown to be read back.
 */
module Sse {
  import opened Wrappers

  /**
   * One record: an `id` line, an `event` line, a `data` line and the blank
   * line that ends it, each line ended by a line feed.
   */
  function Record(id: string, eventName: string, data: string): string {
    Line("id", id) + Line("event", eventName) + Line("data", data) + "\n"
  }

  /** A field line: the field name, a colon and a space, the value, a line feed. */
  function Line(field: string, value: string): string {
    field + ": " + value + "\n"
  }

  /** The text before the first `c` in `s` and the text after it; None when `s` has no `c`. */
  function SplitAt(s: string, c: char): (r: Option<(string, string)>)
    ensures r.None? <==> c !in s
    ensures r.Some? ==> s == r.value.0 + [c] + r.value.1 && c !in r.value.0
  {
    if s == [] then None
    else if s[0] == c then Some(([], s[1..]))
    else
      var tail := SplitAt(s[1..], c);
      if tail.None? then None
      else
        assert s == [s[0]] + s[1..];
        Some(([s[0]] + tail.value.0, tail.value.1))
  }

  lemma {:induction false} SplitAtFirst(a: string, c: char, b: string)
    requires c !in a
    ensures SplitAt(a + [c] + b, c) == Some((a, b))
  {
    var s := a + [c] + b;
    if a == [] {
      assert s[0] == c && s[1..] == b;
    } else {
      assert s[0] == a[0] && a[0] != c;
      assert s[1..] == a[1..] + [c] + b;
      SplitAtFirst(a[1..], c, b);
      assert [a[0]] + a[1..] == a;
    }
  }

  /** What a reader keeps between lines: the event type, data and last event id buffers. */
  datatype ReaderState = ReaderState(eventType: string, data: string, lastEventId: string)

  /** A dispatched event: its type, its data and the last event id at the time. */
  datatype MessageEvent = MessageEvent(eventType: string, data: string, lastEventId: string)

  const Fresh: ReaderState := ReaderState("", "", "")

  /** A field with its value: `event` and `data` fill their buffers, `id` sets the last id unless it holds a NUL. */
  function ProcessField(field: string, value: string, st: ReaderState): ReaderState {
    if field == "event" then st.(eventType := value)
    else if field == "data" then st.(data := st.data + value + "\n")
    else if field == "id" then (if '\0' in value then st else st.(lastEventId := value))
    else st
  }

  /**
   * A non-blank line: a comment (leading colon) is ignored; otherwise the
   * field is the text before the first colon and the value the text after
   * it less one leading space; a line without a colon is a field with an
   * empty value.
   */
  function ProcessLine(line: string, st: ReaderState): ReaderState
    requires line != []
  {
    if line[0] == ':' then st
    else
      var split := SplitAt(line, ':');
      if split.None? then ProcessField(line, "", st)
      else
        var value := split.value.1;
        ProcessField(split.value.0, if value != [] && value[0] == ' ' then value[1..] else value, st)
  }

  /**
   * A blank line dispatches: no event when the data buffer is empty,
   * otherwise one event whose data loses its final line feed and whose type
   * defaults to "message". Both buffers are cleared; the last id stays.
   */
  function Dispatch(st: ReaderState): (seq<MessageEvent>, ReaderState) {
    var next := st.(eventType := "", data := "");
    if st.data == [] then ([], next)
    else
      var data := if st.data[|st.data| - 1] == '\n' then st.data[..|st.data| - 1] else st.data;
      ([MessageEvent(if st.eventType == "" then "message" else st.eventType, data, st.lastEventId)], next)
  }

  /** The events a reader dispatches from a stream, line by line; an unfinished last line is not read. */
  function Interpret(s: string, st: ReaderState): seq<MessageEvent>
    decreases |s|
  {
    var split := SplitAt(s, '\n');
    if split.None? then []
    else
      var (line, rest) := split.value;
      if line == [] then Dispatch(st).0 + Interpret(rest, Dispatch(st).1)
      else Interpret(rest, ProcessLine(line, st))
  }

  /**
   * Text that holds no line end of the standard's stream grammar: neither a
   * line feed nor a carriage return. On such text the reader modelled here,
   * which ends lines at line feeds, and one that also ends them at carriage
   * returns read the same lines.
   */
  predicate OneLine(s: string) {
    '\n' !in s && '\r' !in s
  }

  /** A field line is read as that field with that value. */
  lemma FieldLine(field: string, value: string, rest: string, st: ReaderState)
    requires field != [] && field[0] != ':' && ':' !in field && OneLine(field) && OneLine(value)
    ensures Interpret(Line(field, value) + rest, st) ==
            Interpret(rest, ProcessField(field, value, st))
  {
    var line := field + ": " + value;
    assert Line(field, value) + rest == line + ['\n'] + rest;
    assert OneLine(line);
    SplitAtFirst(line, '\n', rest);
    assert line == field + [':'] + (" " + value);
    SplitAtFirst(field, ':', " " + value);
  }

  /**
   * Every record the handler writes is read back as exactly one event: its
   * id becomes the last event id, its name the event type and its data the
   * event's data; the reader is left with empty buffers and that id.
   */
  lemma {:induction false} RecordDispatches(id: string, eventName: string, data: string, rest: string,
                                            st: ReaderState)
    requires OneLine(id) && OneLine(eventName) && OneLine(data) && '\0' !in id
    requires st.data == ""
    ensures Interpret(Record(id, eventName, data) + rest, st) ==
            [MessageEvent(if eventName == "" then "message" else eventName, data, id)] +
            Interpret(rest, ReaderState("", "", id))
  {
    var afterId := st.(lastEventId := id);
    var afterEvent := afterId.(eventType := eventName);
    var afterData := afterEvent.(data := data + "\n");
    var tail := "\n" + rest;
    var dataLine := Line("data", data) + tail;
    var eventLine := Line("event", eventName) + dataLine;
    assert Record(id, eventName, data) + rest == Line("id", id) + eventLine;
    FieldLine("id", id, eventLine, st);
    assert ProcessField("id", id, st) == afterId;
    FieldLine("event", eventName, dataLine, afterId);
    assert ProcessField("event", eventName, afterId) == afterEvent;
    FieldLine("data", data, tail, afterEvent);
    assert afterEvent.data + data == data;
    assert ProcessField("data", data, afterEvent) == afterData;
    SplitAtFirst([], '\n', rest);
    assert [] + ['\n'] + rest == tail;
    var dispatched := Dispatch(afterData);
    assert dispatched.0 == [MessageEvent(if eventName == "" then "message" else eventName, data, id)];
    assert dispatched.1 == ReaderState("", "", id);
    assert Interpret(tail, afterData) == dispatched.0 + Interpret(rest, dispatched.1);
  }

  /** The concatenated records of a sequence of (id, data) pairs, all with one event name. */
  function Records(frames: seq<(string, string)>, eventName: string): string {
    if frames == [] then ""
    else Record(frames[0].0, eventName, frames[0].1) + Records(frames[1..], eventName)
  }

  /**
   * A stream of records is read as one event per record, in order, each
   * carrying its own id and data.
   */
  lemma {:induction false} RecordsDispatch(frames: seq<(string, string)>, eventName: string, st: ReaderState)
    requires eventName != "" && OneLine(eventName)
    requires forall k :: 0 <= k < |frames| ==> OneLine(frames[k].0) && OneLine(frames[k].1) && '\0' !in frames[k].0
    requires st.data == ""
    ensures var events := Interpret(Records(frames, eventName), st);
      |events| == |frames| &&
      forall k :: 0 <= k < |frames| ==> events[k] == MessageEvent(eventName, frames[k].1, frames[k].0)
  {
    if frames == [] {
      assert Records(frames, eventName) == [];
      assert SplitAt([], '\n').None?;
    } else {
      var rest := Records(frames[1..], eventName);
      RecordDispatches(frames[0].0, eventName, frames[0].1, rest, st);
      RecordsDispatch(frames[1..], eventName, ReaderState("", "", frames[0].0));
    }
  }
}
