/** A reader for the event stream format (section 9.2 of the HTML Living Standard), and the proof that
    it reads back the events an `EventStream` writes. */
module EventReader {
  import opened EventStreams

  datatype Message = Message(kind: string, data: string)

  function FirstBreak(t: string): (i: nat)
    ensures i <= |t|
    ensures forall k :: 0 <= k < i ==> t[k] != '\n' && t[k] != '\r'
    ensures i < |t| ==> t[i] == '\n' || t[i] == '\r'
  {
    if t == "" || t[0] == '\n' || t[0] == '\r' then 0 else 1 + FirstBreak(t[1..])
  }

  /** A line ends at LF, CR or CR LF. */
  function BreakLength(t: string, i: nat): (n: nat)
    requires i < |t|
    ensures 1 <= n <= |t| - i
  {
    if t[i] == '\r' && i + 1 < |t| && t[i + 1] == '\n' then 2 else 1
  }

  function FirstColon(line: string): (i: nat)
    ensures i <= |line|
    ensures forall k :: 0 <= k < i ==> line[k] != ':'
    ensures i < |line| ==> line[i] == ':'
  {
    if line == "" || line[0] == ':' then 0 else 1 + FirstColon(line[1..])
  }

  /** The value of a field line: after the colon, less one leading space. */
  function Value(line: string): string {
    var c := FirstColon(line);
    if c + 1 < |line| && line[c + 1] == ' ' then line[c + 2..]
    else if c < |line| then line[c + 1..] else ""
  }

  /** Reads a stream given the event type buffer and the data buffer; an incomplete last event is
      dropped. */
  function Read(t: string, kind: string, data: string): seq<Message>
    decreases |t|
  {
    var i := FirstBreak(t);
    if i == |t| then []
    else
      var (line, rest) := (t[..i], t[i + BreakLength(t, i)..]);
      if line == "" then
        (if data == "" then [] else [Message(if kind == "" then "message" else kind, data[..|data| - 1])])
        + Read(rest, "", "")
      else
        var field := line[..FirstColon(line)];
        if field == "event" then Read(rest, Value(line), data)
        else if field == "data" then Read(rest, kind, data + Value(line) + "\n")
        else Read(rest, kind, data)
  }

  ghost predicate OneLine(s: string) {
    forall k :: 0 <= k < |s| ==> s[k] != '\n' && s[k] != '\r'
  }

  /** What a client sees: an event without a name has the type `message`. */
  ghost function Expected(evs: seq<Event>): seq<Message> {
    if evs == [] then []
    else [Message(if evs[0].name == "" then "message" else evs[0].name, evs[0].data)] + Expected(evs[1..])
  }

  lemma BreakAt(line: string, rest: string)
    requires OneLine(line)
    ensures FirstBreak(line + "\n" + rest) == |line|
    ensures BreakLength(line + "\n" + rest, |line|) == 1
    ensures (line + "\n" + rest)[..|line|] == line && (line + "\n" + rest)[|line| + 1..] == rest
  {
    var t := line + "\n" + rest;
    assert t[|line|] == '\n';
    assert forall k :: 0 <= k < |line| ==> t[k] == line[k];
  }

  lemma FieldOf(field: string, value: string)
    requires forall k :: 0 <= k < |field| ==> field[k] != ':'
    ensures var line := field + ": " + value;
            FirstColon(line) == |field| && line[..|field|] == field && Value(line) == value
  {
    var line := field + ": " + value;
    assert line[|field|] == ':' && line[|field| + 1] == ' ';
    assert forall k :: 0 <= k < |field| ==> line[k] == field[k];
    assert FirstColon(line) == |field|;
  }

  lemma ReadName(name: string, rest: string)
    requires OneLine(name)
    ensures Read("event: " + name + "\n" + rest, "", "") == Read(rest, name, "")
  {
    var line := "event: " + name;
    BreakAt(line, rest);
    FieldOf("event", name);
    assert "event" + ": " + name == line;
  }

  lemma ReadData(data: string, rest: string, kind: string)
    requires OneLine(data)
    ensures Read("data: " + data + "\n" + rest, kind, "") == Read(rest, kind, data + "\n")
  {
    var line := "data: " + data;
    BreakAt(line, rest);
    FieldOf("data", data);
    assert "data" + ": " + data == line;
    assert "" + data + "\n" == data + "\n";
  }

  lemma ReadBlank(kind: string, data: string, rest: string)
    ensures Read("\n" + rest, kind, data + "\n")
         == [Message(if kind == "" then "message" else kind, data)] + Read(rest, "", "")
  {
    BreakAt("", rest);
    assert "" + "\n" + rest == "\n" + rest;
    assert (data + "\n")[..|data|] == data;
  }

  lemma ReadEvent(ev: Event, rest: string)
    requires OneLine(ev.name) && OneLine(ev.data)
    ensures Read(Text(ev) + rest, "", "")
         == [Message(if ev.name == "" then "message" else ev.name, ev.data)] + Read(rest, "", "")
  {
    hide Read;
    var t := "data: " + ev.data + "\n" + ("\n" + rest);
    assert Text(ev) + rest == "event: " + ev.name + "\n" + t;
    ReadName(ev.name, t);
    ReadData(ev.data, "\n" + rest, ev.name);
    ReadBlank(ev.name, ev.data, rest);
  }

  lemma {:induction false} ReadsBack(evs: seq<Event>)
    requires forall ev :: ev in evs ==> OneLine(ev.name) && OneLine(ev.data)
    ensures Read(TextAll(evs), "", "") == Expected(evs)
  {
    if evs != [] {
      ReadEvent(evs[0], TextAll(evs[1..]));
      ReadsBack(evs[1..]);
    }
  }

  /** Whatever the cuts: once the queue is empty the bytes on the wire read back as the submitted
      events, provided no name or payload holds a line break. */
  lemma ClientSeesTheEvents(run: seq<Action>)
    requires IsRun(START, run) && After(START, run).queue == []
    requires forall ev :: ev in Submitted(run) ==> OneLine(ev.name) && OneLine(ev.data)
    ensures Read(Written(START, run), "", "") == Expected(Submitted(run))
  {
    EveryRun(run);
    ReadsBack(Submitted(run));
  }
}
