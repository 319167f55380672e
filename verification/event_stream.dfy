/**
 * Server-sent-events framing. `CreateEvent` writes one record the way the
 * live endpoint does; the rest of the module is a reference reader following
 * the event-stream interpretation rules of section 9.2 (Server-sent events)
 * of the WHATWG HTML Living Standard, used to state what a browser's
 * `EventSource` makes of the frames.
 */
module EventStream {
  import opened Wrappers
  import opened Text

  const LF: char := '\n'
  const CR: char := '\r'
  const NUL: char := '\0'

  /** A field value that cannot break the line it is written on. */
  predicate SingleLine(s: string) {
    LF !in s && CR !in s
  }

  /** JavaScript truthiness of the optional id: absent and empty are both falsy. */
  predicate HasId(id: Option<string>) {
    id.Some? && id.value != ""
  }

  /**
   * `createEvent(eventName, data, id)` with `data` already serialised: an
   * `id:` line only for a truthy id, then the `event:` and `data:` lines and
   * the blank line that ends the record.
   */
  function CreateEvent(eventName: string, data: string, id: Option<string>): (frame: string)
    ensures |frame| >= 4 && (frame[..4] == "id: " <==> HasId(id))
    ensures frame[|frame| - 2..] == [LF, LF]
  {
    var record := "event: " + eventName + "\ndata: " + data + "\n\n";
    var idLine := if HasId(id) then "id: " + id.value + "\n" else "";
    assert (idLine + record)[..4] == if HasId(id) then idLine[..4] else record[..4];
    assert record[0] == 'e';
    idLine + record
  }

  /**
   * A truthy id opens the frame with its own `id:` line, and every frame
   * closes with the `event:` line, the `data:` line and the blank line after them.
   */
  lemma CreateEventLayout(eventName: string, data: string, id: Option<string>)
    ensures var frame := CreateEvent(eventName, data, id);
      var tail := "event: " + eventName + "\ndata: " + data + "\n\n";
      && (HasId(id) ==> |frame| > |id.value| + 5 && frame[..|id.value| + 5] == "id: " + id.value + "\n")
      && |frame| >= |tail| && frame[|frame| - |tail|..] == tail
  {
    var frame := CreateEvent(eventName, data, id);
    var tail := "event: " + eventName + "\ndata: " + data + "\n\n";
    var head := if HasId(id) then "id: " + id.value + "\n" else "";
    assert frame == head + tail;
    assert frame[|head|..] == tail;
  }

  // ---------------------------------------------------------------------
  // Reference reader
  // ---------------------------------------------------------------------

  /** What `EventSource` fires: the last event ID, the event type and the data. */
  datatype Dispatched = Dispatched(lastEventId: string, eventType: string, data: string)

  /** The reader's data buffer, event type buffer and last event ID buffer. */
  datatype Buffers = Buffers(data: string, eventType: string, lastEventId: string)

  const Initial: Buffers := Buffers("", "", "")

  /**
   * The complete lines of a stream, read character by character with
   * `current` holding the line read so far; text after the last line break
   * is pending and ignored.
   */
  function LinesFrom(current: string, rest: string): seq<string>
    decreases |rest|
  {
    if rest == [] then []
    else if rest[0] == LF then [current] + LinesFrom("", rest[1..])
    else LinesFrom(current + [rest[0]], rest[1..])
  }

  function Lines(stream: string): seq<string> {
    LinesFrom("", stream)
  }

  /**
   * Whether `line` sets the field `name`, for a colon-free `name`: the text
   * before the line's first colon (all of it, if it has none) is `name`.
   */
  predicate IsField(line: string, name: string) {
    line == name || (|name| < |line| && line[..|name|] == name && line[|name|] == ':')
  }

  /** The field's value: what follows the colon, less one leading space. */
  function FieldValue(line: string, name: string): string
    requires IsField(line, name)
  {
    if line == name then ""
    else
      var v := line[|name| + 1..];
      if v != [] && v[0] == ' ' then v[1..] else v
  }

  /** The event type a record announces; an empty one means `message`. */
  function EventType(typeBuffer: string): string {
    if typeBuffer == "" then "message" else typeBuffer
  }

  /** A blank line: fire the buffered event, if it has data, and clear the data and type buffers. */
  function Dispatch(b: Buffers): (Buffers, Option<Dispatched>) {
    var cleared := b.(data := "", eventType := "");
    if b.data == "" then (cleared, None)
    else
      var data := if b.data[|b.data| - 1] == LF then b.data[..|b.data| - 1] else b.data;
      (cleared, Some(Dispatched(b.lastEventId, EventType(b.eventType), data)))
  }

  /** Processes one line. `retry` and unknown fields do not change what is fired. */
  function Step(b: Buffers, line: string): (Buffers, Option<Dispatched>) {
    if line == "" then Dispatch(b)
    else if line[0] == ':' then (b, None)
    else if IsField(line, "event") then (b.(eventType := FieldValue(line, "event")), None)
    else if IsField(line, "data") then (b.(data := b.data + FieldValue(line, "data") + [LF]), None)
    else if IsField(line, "id") then
      var value := FieldValue(line, "id");
      (if NUL in value then b else b.(lastEventId := value), None)
    else (b, None)
  }

  /** Where reading a run of lines ends: the final buffers and every event fired on the way. */
  datatype Reading = Reading(buffers: Buffers, fired: seq<Dispatched>)

  /** Processes lines in order. */
  function Run(b: Buffers, lines: seq<string>): Reading
    decreases |lines|
  {
    if lines == [] then Reading(b, [])
    else
      var step := Step(b, lines[0]);
      var r := Run(step.0, lines[1..]);
      Reading(r.buffers, ToSeq(step.1) + r.fired)
  }

  /** The events a fresh `EventSource` fires for a whole stream. */
  function Parse(stream: string): seq<Dispatched> {
    Run(Initial, Lines(stream)).fired
  }

  // ---------------------------------------------------------------------
  // What the reader makes of CreateEvent's frames
  // ---------------------------------------------------------------------

  /** The lines a frame is made of. */
  function FrameLines(eventName: string, data: string, id: Option<string>): seq<string> {
    (if HasId(id) then ["id: " + id.value] else [])
      + ["event: " + eventName, "data: " + data, ""]
  }

  /** The last event ID after a frame: its id, if truthy and free of NUL, else the previous one. */
  function IdAfter(previous: string, id: Option<string>): string {
    if HasId(id) && NUL !in id.value then id.value else previous
  }

  /** Neither line-break character occurs in the frame's fields (a NUL in the id is left to `IdAfter`). */
  predicate Writable(eventName: string, data: string, id: Option<string>) {
    SingleLine(eventName) && SingleLine(data) && (id.Some? ==> SingleLine(id.value))
  }

  /** A line break after a line without one ends the line being read. */
  lemma {:induction false} LinesFromLine(current: string, line: string, rest: string)
    requires LF !in line
    ensures LinesFrom(current, line + [LF] + rest) == [current + line] + LinesFrom("", rest)
    decreases |line|
  {
    if line == [] {
      assert line + [LF] + rest == [LF] + rest;
      assert current + line == current;
    } else {
      LinesFromLine(current + [line[0]], line[1..], rest);
      assert (line + [LF] + rest)[1..] == line[1..] + [LF] + rest;
      assert current + [line[0]] + line[1..] == current + line;
    }
  }

  lemma LinesCons(line: string, rest: string)
    requires LF !in line
    ensures Lines(line + [LF] + rest) == [line] + Lines(rest)
  {
    LinesFromLine("", line, rest);
    assert "" + line == line;
  }

  /** Lines each written with its terminating line break. */
  function Unlines(lines: seq<string>): string {
    if lines == [] then "" else lines[0] + [LF] + Unlines(lines[1..])
  }

  lemma UnlinesCons(lines: seq<string>, rest: string)
    requires lines != []
    ensures Unlines(lines) + rest == lines[0] + [LF] + (Unlines(lines[1..]) + rest)
  {
  }

  /** Reading back terminated lines gives the lines, then whatever follows. */
  lemma {:induction false} LinesUnlines(lines: seq<string>, rest: string)
    requires forall i :: 0 <= i < |lines| ==> LF !in lines[i]
    ensures Lines(Unlines(lines) + rest) == lines + Lines(rest)
  {
    if lines == [] {
      assert Unlines(lines) + rest == rest;
    } else {
      var tail := Unlines(lines[1..]) + rest;
      LinesUnlines(lines[1..], rest);
      UnlinesCons(lines, rest);
      LinesCons(lines[0], tail);
      ConsAppend(lines, Lines(rest));
      assert Lines(Unlines(lines) + rest) == [lines[0]] + Lines(tail);
      assert Lines(Unlines(lines) + rest) == [lines[0]] + (lines[1..] + Lines(rest));
      assert Lines(Unlines(lines) + rest) == lines + Lines(rest);
    }
  }

  /** A frame is its lines, each terminated. */
  lemma CreateEventIsUnlines(eventName: string, data: string, id: Option<string>)
    ensures CreateEvent(eventName, data, id) == Unlines(FrameLines(eventName, data, id))
  {
    var ev, dt := "event: " + eventName, "data: " + data;
    var record := ev + [LF] + dt + [LF] + [LF];
    assert "\ndata: " == [LF] + "data: ";
    assert "\n\n" == [LF] + [LF];
    assert "event: " + eventName + "\ndata: " + data + "\n\n" == record;
    assert [dt, ""][1..] == [""] && [ev, dt, ""][1..] == [dt, ""];
    assert Unlines([""]) == [LF];
    assert Unlines([dt, ""]) == dt + [LF] + [LF];
    assert Unlines([ev, dt, ""]) == record;
    if HasId(id) {
      var il := "id: " + id.value;
      assert FrameLines(eventName, data, id) == [il, ev, dt, ""];
      assert [il, ev, dt, ""][1..] == [ev, dt, ""];
      assert Unlines([il, ev, dt, ""]) == il + [LF] + record;
      assert "id: " + id.value + "\n" == il + [LF];
    } else {
      assert FrameLines(eventName, data, id) == [ev, dt, ""];
      assert CreateEvent(eventName, data, id) == record;
    }
  }

  /** A frame followed by more text contributes exactly its own lines. */
  lemma FrameThenRestLines(eventName: string, data: string, id: Option<string>, rest: string)
    requires Writable(eventName, data, id)
    ensures Lines(CreateEvent(eventName, data, id) + rest) == FrameLines(eventName, data, id) + Lines(rest)
  {
    CreateEventIsUnlines(eventName, data, id);
    var lines := FrameLines(eventName, data, id);
    assert forall i :: 0 <= i < |lines| ==> LF !in lines[i];
    LinesUnlines(lines, rest);
  }

  /** Running a line in front of more lines. */
  lemma RunCons(b: Buffers, line: string, rest: seq<string>)
    ensures var (b1, fired) := Step(b, line);
      Run(b, [line] + rest) == Reading(Run(b1, rest).buffers, ToSeq(fired) + Run(b1, rest).fired)
  {
    assert ([line] + rest)[0] == line;
    assert ([line] + rest)[1..] == rest;
  }

  /** Running two runs of lines one after the other is running their concatenation. */
  lemma {:induction false} RunAppend(b: Buffers, xs: seq<string>, ys: seq<string>)
    ensures var mid := Run(b, xs);
      Run(b, xs + ys) == Reading(Run(mid.buffers, ys).buffers, mid.fired + Run(mid.buffers, ys).fired)
    decreases |xs|
  {
    if xs == [] {
      assert xs + ys == ys;
      assert [] + Run(b, ys).fired == Run(b, ys).fired;
    } else {
      var (b1, fired) := Step(b, xs[0]);
      RunAppend(b1, xs[1..], ys);
      var mid := Run(b1, xs[1..]);
      var last := Run(mid.buffers, ys);
      RunCons(b, xs[0], xs[1..]);
      RunCons(b, xs[0], xs[1..] + ys);
      ConsAppend(xs, []);
      ConsAppend(xs, ys);
      Associative(ToSeq(fired), mid.fired, last.fired);
    }
  }

  /** A `name: value` line sets field `name` to `value`. */
  lemma FieldLine(name: string, value: string)
    ensures IsField(name + ": " + value, name)
    ensures FieldValue(name + ": " + value, name) == value
  {
    var line := name + ": " + value;
    assert line[..|name|] == name;
    assert line[|name|] == ':';
    assert line[|name| + 1..] == " " + value;
  }

  lemma StepEvent(b: Buffers, value: string)
    ensures Step(b, "event: " + value) == (b.(eventType := value), None)
  {
    var line := "event: " + value;
    assert line == "event" + ": " + value;
    FieldLine("event", value);
    assert line[0] == 'e';
  }

  lemma StepData(b: Buffers, value: string)
    ensures Step(b, "data: " + value) == (b.(data := b.data + value + [LF]), None)
  {
    var line := "data: " + value;
    assert line == "data" + ": " + value;
    FieldLine("data", value);
    assert line[0] == 'd';
  }

  lemma StepId(b: Buffers, value: string)
    ensures Step(b, "id: " + value) == (if NUL in value then b else b.(lastEventId := value), None)
  {
    var line := "id: " + value;
    assert line == "id" + ": " + value;
    FieldLine("id", value);
    assert line[0] == 'i';
  }

  /** From empty data and type buffers, a frame's lines fire exactly one event and leave them empty again. */
  lemma FrameFiresOnce(b: Buffers, eventName: string, data: string, id: Option<string>)
    requires b.data == "" && b.eventType == ""
    ensures Run(b, FrameLines(eventName, data, id))
      == Reading(Buffers("", "", IdAfter(b.lastEventId, id)),
                 [Dispatched(IdAfter(b.lastEventId, id), EventType(eventName), data)])
  {
    var last := IdAfter(b.lastEventId, id);
    var fired := Dispatched(last, EventType(eventName), data);
    var b1 := Buffers("", "", last);
    var b2 := b1.(eventType := eventName);
    var b3 := b2.(data := data + [LF]);
    assert (data + [LF])[..|data|] == data;
    assert Step(b3, "") == (b1, Some(fired));
    RunCons(b3, "", []);
    assert Run(b3, [""]) == Reading(b1, [fired]);
    StepData(b2, data);
    assert b2.data + data + [LF] == data + [LF];
    RunCons(b2, "data: " + data, [""]);
    assert Run(b2, ["data: " + data, ""]) == Reading(b1, [fired]);
    StepEvent(b1, eventName);
    RunCons(b1, "event: " + eventName, ["data: " + data, ""]);
    assert Run(b1, ["event: " + eventName, "data: " + data, ""]) == Reading(b1, [fired]);
    if HasId(id) {
      StepId(b, id.value);
      assert Step(b, "id: " + id.value) == (b1, None);
      RunCons(b, "id: " + id.value, ["event: " + eventName, "data: " + data, ""]);
      assert FrameLines(eventName, data, id) == ["id: " + id.value, "event: " + eventName, "data: " + data, ""];
    } else {
      assert b == b1;
      assert FrameLines(eventName, data, id) == ["event: " + eventName, "data: " + data, ""];
    }
  }

  /** A frame at the front of a stream fires its one event and leaves the reader ready for the rest. */
  lemma FrameThenRest(b: Buffers, eventName: string, data: string, id: Option<string>, rest: string)
    requires b.data == "" && b.eventType == ""
    requires Writable(eventName, data, id)
    ensures var after := Buffers("", "", IdAfter(b.lastEventId, id));
      Run(b, Lines(CreateEvent(eventName, data, id) + rest))
        == Reading(Run(after, Lines(rest)).buffers,
                   [Dispatched(IdAfter(b.lastEventId, id), EventType(eventName), data)] + Run(after, Lines(rest)).fired)
  {
    FrameThenRestLines(eventName, data, id, rest);
    RunAppend(b, FrameLines(eventName, data, id), Lines(rest));
    FrameFiresOnce(b, eventName, data, id);
  }

  /** One frame read on a fresh connection fires exactly one event carrying its id, type and data. */
  lemma ParseCreateEvent(eventName: string, data: string, id: Option<string>)
    requires Writable(eventName, data, id)
    ensures Parse(CreateEvent(eventName, data, id))
      == [Dispatched(IdAfter("", id), EventType(eventName), data)]
  {
    FrameThenRest(Initial, eventName, data, id, "");
    assert CreateEvent(eventName, data, id) + "" == CreateEvent(eventName, data, id);
  }
}
