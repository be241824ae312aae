/** The Server-Sent Events wire format (the `text/event-stream` format of
    section 9.2 of the WHATWG HTML Living Standard): the message template
    `broadcastEvent` writes, and, as its partner, the receiving side's
    interpretation of a stream as defined by section 9.2.6 ("Interpreting an
    event stream") of that standard, restricted to the fields that decide
    which events are dispatched. */
module EventStream {

  /** The message `broadcastEvent` writes: `event: <name>\ndata: <data>\n\n`. */
  function Format(name: string, data: string): string {
    "event: " + name + "\n" + "data: " + data + "\n\n"
  }

  /** `s` holds no line terminator (neither CR nor LF). */
  predicate SingleLine(s: string) {
    forall i :: 0 <= i < |s| ==> s[i] != '\n' && s[i] != '\r'
  }

  /** An event as a receiving `EventSource` dispatches it. */
  datatype Event = Event(kind: string, data: string)

  /** Position of the first line terminator of `s`, or `|s|` if there is none. */
  function LineEnd(s: string): (k: nat)
    ensures k <= |s|
    ensures k < |s| ==> s[k] == '\n' || s[k] == '\r'
    ensures SingleLine(s[..k])
  {
    if s == [] || s[0] == '\n' || s[0] == '\r' then 0
    else
      var k := LineEnd(s[1..]);
      assert s[..k + 1] == [s[0]] + s[1..][..k];
      k + 1
  }

  /** The complete lines of a stream. A line ends at CRLF, at a lone CR or at
      a lone LF; text after the last terminator is not yet a line. */
  function Lines(s: string): seq<string>
    decreases |s|
  {
    var k := LineEnd(s);
    if k == |s| then []
    else
      var next := if s[k] == '\r' && k + 1 < |s| && s[k + 1] == '\n' then k + 2 else k + 1;
      [s[..k]] + Lines(s[next..])
  }

  /** Position of the first colon of `line`, or `|line|` if there is none. */
  function ColonAt(line: string): (k: nat)
    ensures k <= |line|
    ensures k < |line| ==> line[k] == ':'
    ensures forall j :: 0 <= j < k ==> line[j] != ':'
  {
    if line == [] || line[0] == ':' then 0 else 1 + ColonAt(line[1..])
  }

  /** What a single line of the stream is. */
  datatype LineKind = Blank | Comment | FieldLine(name: string, value: string)

  /** A blank line dispatches, a line starting with a colon is a comment, any
      other line is a field: the text up to the first colon is the name, the
      rest (less one leading space) the value; without a colon the whole line
      is the name and the value is empty. */
  function ParseLine(line: string): LineKind {
    if line == [] then Blank
    else if line[0] == ':' then Comment
    else
      var k := ColonAt(line);
      if k == |line| then FieldLine(line, "")
      else
        var v := line[k + 1..];
        FieldLine(line[..k], if v != [] && v[0] == ' ' then v[1..] else v)
  }

  /** Processes lines with the current event type buffer `kind` and data
      buffer `data`. An `event` field sets the type, a `data` field appends its
      value and an LF; a blank line dispatches the buffered event (unless the
      data buffer is empty) with its final LF removed and type `message` when
      none was set, then clears both buffers. Other fields (`id`, `retry` and
      unknown names) and comments dispatch nothing. An event not closed by a
      blank line when the stream ends is discarded. */
  function Interpret(lines: seq<string>, kind: string, data: string): seq<Event>
    decreases |lines|
  {
    if lines == [] then []
    else
      match ParseLine(lines[0])
      case Blank =>
        if data == [] then Interpret(lines[1..], "", "")
        else
          var payload := if data[|data| - 1] == '\n' then data[..|data| - 1] else data;
          [Event(if kind == [] then "message" else kind, payload)] + Interpret(lines[1..], "", "")
      case Comment => Interpret(lines[1..], kind, data)
      case FieldLine(name, value) =>
        if name == "event" then Interpret(lines[1..], value, data)
        else if name == "data" then Interpret(lines[1..], kind, data + value + "\n")
        else Interpret(lines[1..], kind, data)
  }

  /** The events a receiver dispatches for a whole stream. */
  function Parse(stream: string): seq<Event> {
    Interpret(Lines(stream), "", "")
  }

  /** The concatenation of the messages written to one connection, in order. */
  function Join(messages: seq<string>): string {
    if messages == [] then "" else messages[0] + Join(messages[1..])
  }

  /** A line free of terminators followed by LF is split off as one line. */
  lemma LinesCons(line: string, rest: string)
    requires SingleLine(line)
    ensures Lines(line + "\n" + rest) == [line] + Lines(rest)
  {
    var s := line + "\n" + rest;
    var k := LineEnd(s);
    assert s[|line|] == '\n';
    assert k == |line|;
    assert s[..k] == line;
    assert s[k + 1..] == rest;
  }

  /** `Format` writes a field line whose name is `name` and whose value is
      `value`, whatever the value holds (colons, leading spaces). */
  lemma FieldLineParses(name: string, value: string)
    requires name == "event" || name == "data"
    ensures ParseLine(name + ": " + value) == FieldLine(name, value)
  {
    var line := name + ": " + value;
    assert line[|name|] == ':';
    var k := ColonAt(line);
    assert k == |name|;
    assert line[..k] == name;
    assert line[k + 1..] == " " + value;
    assert (" " + value)[1..] == value;
  }

  /** The two field lines `Format` writes hold no line terminator. */
  lemma FieldLinesSingle(name: string, data: string)
    requires SingleLine(name) && SingleLine(data)
    ensures SingleLine("event: " + name) && SingleLine("data: " + data)
  {
    var l1, l2 := "event: " + name, "data: " + data;
    forall i | 7 <= i < |l1| ensures l1[i] == name[i - 7] { }
    forall i | 6 <= i < |l2| ensures l2[i] == data[i - 6] { }
  }

  /** A message made by `Format` from single-line parts splits into its two
      field lines and the blank line that ends it. */
  lemma {:induction false} LinesOfFormat(name: string, data: string, rest: string)
    requires SingleLine(name) && SingleLine(data)
    ensures Lines(Format(name, data) + rest) == ["event: " + name, "data: " + data, ""] + Lines(rest)
  {
    var l1, l2 := "event: " + name, "data: " + data;
    FieldLinesSingle(name, data);
    assert Format(name, data) + rest == l1 + "\n" + (l2 + "\n" + ("" + "\n" + rest));
    LinesCons(l1, l2 + "\n" + ("" + "\n" + rest));
    LinesCons(l2, "" + "\n" + rest);
    LinesCons("", rest);
  }

  /** An `event` field line sets the event type buffer. */
  lemma EventLineStep(name: string, more: seq<string>, kind: string, data: string)
    ensures Interpret(["event: " + name] + more, kind, data) == Interpret(more, name, data)
  {
    var lines := ["event: " + name] + more;
    FieldLineParses("event", name);
    assert lines[0] == "event" + ": " + name;
    assert ParseLine(lines[0]) == FieldLine("event", name);
    assert lines[1..] == more;
  }

  /** A `data` field line appends its value and an LF to the data buffer. */
  lemma DataLineStep(value: string, more: seq<string>, kind: string, data: string)
    ensures Interpret(["data: " + value] + more, kind, data) == Interpret(more, kind, data + value + "\n")
  {
    var lines := ["data: " + value] + more;
    FieldLineParses("data", value);
    assert lines[0] == "data" + ": " + value;
    assert ParseLine(lines[0]) == FieldLine("data", value);
    assert "data" != "event";
    assert lines[1..] == more;
  }

  /** The blank line dispatches the buffered event `data` and clears the buffers. */
  lemma BlankLineStep(more: seq<string>, kind: string, data: string)
    ensures Interpret([""] + more, kind, data + "\n")
         == [Event(if kind == "" then "message" else kind, data)] + Interpret(more, "", "")
  {
    var buffered := data + "\n";
    assert buffered[..|buffered| - 1] == data;
    assert ([""] + more)[1..] == more;
  }

  /** The two field lines and the blank line dispatch one event and leave the
      buffers empty. */
  lemma InterpretMessage(name: string, data: string, more: seq<string>)
    ensures Interpret(["event: " + name, "data: " + data, ""] + more, "", "")
         == [Event(if name == "" then "message" else name, data)] + Interpret(more, "", "")
  {
    assert ["event: " + name, "data: " + data, ""] + more == ["event: " + name] + (["data: " + data] + ([""] + more));
    EventLineStep(name, ["data: " + data] + ([""] + more), "", "");
    DataLineStep(data, [""] + more, name, "");
    assert "" + data == data;
    BlankLineStep(more, name, data);
  }

  /** A message made by `Format` from single-line parts is read, in front of
      any further stream, as exactly the one event it describes. */
  lemma FormatThenRest(name: string, data: string, rest: string)
    requires SingleLine(name) && SingleLine(data)
    ensures Parse(Format(name, data) + rest) == [Event(if name == "" then "message" else name, data)] + Parse(rest)
  {
    LinesOfFormat(name, data, rest);
    InterpretMessage(name, data, Lines(rest));
  }

  /** A single message made by `Format` is read as exactly its one event. */
  lemma FormatParses(name: string, data: string)
    requires SingleLine(name) && SingleLine(data)
    ensures Parse(Format(name, data)) == [Event(if name == "" then "message" else name, data)]
  {
    FormatThenRest(name, data, "");
    assert Format(name, data) + "" == Format(name, data);
  }

  /** Distinct single-line (name, data) pairs give distinct messages. */
  lemma FormatInjective(n1: string, d1: string, n2: string, d2: string)
    requires SingleLine(n1) && SingleLine(d1) && SingleLine(n2) && SingleLine(d2)
    requires Format(n1, d1) == Format(n2, d2)
    ensures n1 == n2 && d1 == d2
  {
    LinesOfFormat(n1, d1, "");
    LinesOfFormat(n2, d2, "");
    var l1 := ["event: " + n1, "data: " + d1, ""] + Lines("");
    var l2 := ["event: " + n2, "data: " + d2, ""] + Lines("");
    assert l1 == l2;
    assert l1[0][7..] == n1 && l2[0][7..] == n2;
    assert l1[1][6..] == d1 && l2[1][6..] == d2;
  }

  /** The stream one connection receives, when every message on it was made by
      `Format` from single-line parts with a non-empty name, is read back as
      those events, in the order they were written. */
  lemma {:induction false} JoinParses(messages: seq<string>, events: seq<Event>)
    requires |messages| == |events|
    requires forall i :: 0 <= i < |events| ==>
      events[i].kind != "" && SingleLine(events[i].kind) && SingleLine(events[i].data) &&
      messages[i] == Format(events[i].kind, events[i].data)
    ensures Parse(Join(messages)) == events
  {
    if messages != [] {
      JoinParses(messages[1..], events[1..]);
      FormatThenRest(events[0].kind, events[0].data, Join(messages[1..]));
      assert events == [events[0]] + events[1..];
    } else {
      assert Lines("") == [];
    }
  }
}
