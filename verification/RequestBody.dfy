/** Delivery of a request body to its handler (src/httprequest.cc): chunks arrive before or after a
    coroutine asks for them with `data()` or `body()`, and the end is signalled once. */
module RequestBodies {
  import opened Options
  import opened Sequences

  /** A stored coroutine handle. `Stale`: its coroutine is no longer suspended where the handle
      expects it; resuming it is undefined in C++. */
  datatype Handle = Null | Waiting | Stale

  datatype Request = Request(
    chunkMode: bool, ready: bool, buffered: bool, body: string, data: string, dataCoro: Handle, bodyCoro: Handle)

  const FRESH := Request(false, false, false, "", "", Null, Null)

  // ----- what each call does --------------------------------------------------------------

  /** `data()` up to its return or suspension: the piece returned at once, if any. */
  function DataCalled(r: Request): (Request, Option<string>) {
    var s := r.(chunkMode := true);
    if r.buffered then (s.(buffered := false, dataCoro := Stale), Some(r.body))
    else if r.ready then (s.(body := "", dataCoro := Stale), Some(""))
    else (s.(body := "", dataCoro := Waiting), None)
  }

  /** `body()` likewise. */
  function BodyCalled(r: Request): (Request, Option<string>) {
    var s := r.(chunkMode := false);
    if r.ready then (s.(bodyCoro := Stale), Some(r.body)) else (s.(bodyCoro := Waiting), None)
  }

  /** `handle_data`: the piece the waiting coroutine is resumed with, if any. */
  function DataHandled(r: Request, str: string, eof: bool): (Request, Option<string>) {
    if str == "" && !eof then (r, None)
    else
      var s := if r.chunkMode then r.(data := str) else r;
      if r.chunkMode && r.dataCoro != Null then (s.(dataCoro := Stale), Some(str))
      else (s.(buffered := true, body := s.body + str), None)
  }

  /** `handle_body`: what the waiting coroutine gets, `data()` nothing or `body()` everything. */
  function BodyHandled(r: Request): (Request, Option<string>) {
    if r.chunkMode then DataHandled(r, "", true)
    else if r.bodyCoro != Null then (r.(bodyCoro := Stale), Some(r.body))
    else (r.(ready := true), None)
  }

  class HttpRequest {
    var chunkMode: bool
    var ready: bool
    var buffered: bool
    var body: string
    var data: string
    var dataCoro: Handle
    var bodyCoro: Handle

    ghost function State(): Request
      reads this
    {
      Request(chunkMode, ready, buffered, body, data, dataCoro, bodyCoro)
    }

    constructor ()
      ensures State() == FRESH
    {
      chunkMode, ready, buffered, body, data, dataCoro, bodyCoro := false, false, false, "", "", Null, Null;
    }

    method Data() returns (piece: Option<string>)
      modifies this
      ensures (State(), piece) == DataCalled(old(State()))
    {
      chunkMode := true;
      dataCoro := Waiting;
      if buffered {
        buffered := false;
        dataCoro := Stale;
        return Some(body);
      }
      body := "";
      if ready {
        dataCoro := Stale;
        return Some("");
      }
      piece := None;
    }

    method Body() returns (all: Option<string>)
      modifies this
      ensures (State(), all) == BodyCalled(old(State()))
    {
      chunkMode := false;
      bodyCoro := Waiting;
      if !ready {
        return None;
      }
      bodyCoro := Stale;
      all := Some(body);
    }

    /** A stale handle must not be resumed. */
    method HandleData(str: string, eof: bool) returns (resumed: Option<string>)
      requires eof ==> str == ""
      requires chunkMode ==> dataCoro != Stale
      modifies this
      ensures (State(), resumed) == DataHandled(old(State()), str, eof)
    {
      resumed := None;
      if str != "" || eof {
        if chunkMode {
          data := str;
          if dataCoro != Null {
            dataCoro := Stale;
            return Some(data);
          }
        }
        buffered := true;
        body := body + str;
      }
    }

    method HandleBody() returns (resumed: Option<string>)
      requires if chunkMode then dataCoro != Stale else bodyCoro != Stale
      modifies this
      ensures (State(), resumed) == BodyHandled(old(State()))
    {
      resumed := None;
      if chunkMode {
        resumed := HandleData("", true);
      } else if bodyCoro != Null {
        bodyCoro := Stale;
        resumed := Some(body);
      } else {
        ready := true;
      }
    }
  }

  // ----- runs -----------------------------------------------------------------------------

  /** How a handler reads: a loop that calls `data()` until it returns an empty piece, or one `body()`. */
  datatype Reader = DataLoop | BodyCall

  /** What reaches a request: `Chunk`s, then perhaps one `End`; at any moment the handler `Start`s. */
  datatype Event = Chunk(str: string) | End | Start(reader: Reader)

  /** The reader: not begun, suspended in `data()` or done with the pieces it got, suspended in `body()` or
      done with the text it got. */
  datatype Progress =
    | Unstarted
    | Reading(got: seq<string>)
    | Ended(got: seq<string>)
    | AwaitingBody
    | HasBody(text: string)

  datatype System = System(request: Request, reader: Progress, ended: bool)

  const START := System(FRESH, Unstarted, false)

  ghost function Concat(pieces: seq<string>): string {
    if pieces == [] then "" else Concat(pieces[..|pieces| - 1]) + pieces[|pieces| - 1]
  }

  lemma ConcatSnoc(pieces: seq<string>, p: string)
    ensures Concat(pieces + [p]) == Concat(pieces) + p
  {
    assert (pieces + [p])[..|pieces|] == pieces;
  }

  /** Calls `data()` until it suspends or returns an empty piece. */
  ghost function Turn(r: Request, got: seq<string>): (t: (Request, Progress))
    ensures t.1.Reading? || t.1.Ended?
    decreases r.buffered
  {
    var (s, piece) := DataCalled(r);
    match piece
    case None => (s, Reading(got))
    case Some(p) => if p == "" || !r.buffered then (s, Ended(got)) else Turn(s, got + [p])
  }

  ghost predicate Enabled(s: System, e: Event) {
    match e
    case Chunk(_) => !s.ended
    case End => !s.ended
    case Start(_) => s.reader == Unstarted
  }

  ghost function Next(s: System, e: Event): System {
    match e
    case Start(DataLoop) =>
      var (r, reader) := Turn(s.request, []);
      System(r, reader, s.ended)
    case Start(BodyCall) =>
      var (r, all) := BodyCalled(s.request);
      System(r, if all.Some? then HasBody(all.value) else AwaitingBody, s.ended)
    case Chunk(str) =>
      var (r, piece) := DataHandled(s.request, str, false);
      Resumed(r, s.reader, piece, s.ended)
    case End =>
      var (r, piece) := BodyHandled(s.request);
      Resumed(r, s.reader, piece, true)
  }

  /** The reader goes on with the piece it was resumed with. */
  ghost function Resumed(r: Request, reader: Progress, piece: Option<string>, ended: bool): System {
    if piece == None then System(r, reader, ended)
    else if reader.AwaitingBody? then System(r, HasBody(piece.value), ended)
    else if !reader.Reading? then System(r, reader, ended)
    else if piece.value == "" then System(r, Ended(reader.got), ended)
    else
      var (s, l) := Turn(r, reader.got + [piece.value]);
      System(s, l, ended)
  }

  ghost predicate IsRun(s: System, run: seq<Event>)
    decreases |run|
  {
    run == [] || (Enabled(s, run[0]) && IsRun(Next(s, run[0]), run[1..]))
  }

  ghost function After(s: System, run: seq<Event>): System
    decreases |run|
  {
    if run == [] then s else After(Next(s, run[0]), run[1..])
  }

  ghost function Carried(e: Event): string {
    if e.Chunk? then e.str else ""
  }

  ghost function Received(run: seq<Event>): string {
    if run == [] then "" else Carried(run[0]) + Received(run[1..])
  }

  ghost predicate Pieces(got: seq<string>, all: string) {
    Concat(got) == all && forall p :: p in got ==> p != ""
  }

  /** `all` has been received. A suspended reader is where the handle says. A loop has had all of it; a
      `body()` has it in the buffer. */
  ghost predicate Invariant(s: System, all: string) {
    match s.reader
    case Unstarted =>
      s.request == FRESH.(ready := s.ended, buffered := all != "", body := all)
    case Reading(got) =>
      !s.ended && Pieces(got, all) && s.request.chunkMode && s.request.dataCoro == Waiting
      && !s.request.buffered && !s.request.ready
    case Ended(got) => s.ended && Pieces(got, all)
    case AwaitingBody =>
      !s.ended && !s.request.chunkMode && s.request.bodyCoro == Waiting && s.request.body == all
    case HasBody(text) => s.ended && text == all
  }

  lemma StartKeeps(s: System, reader: Reader, all: string)
    requires Invariant(s, all) && Enabled(s, Start(reader))
    ensures Invariant(Next(s, Start(reader)), all)
  {
    ConcatSnoc([], all);
    assert [] + [all] == [all] && "" + all == all;
    if reader == DataLoop && s.request.buffered {
      var (r, piece) := DataCalled(s.request);
      assert Turn(s.request, []) == Turn(r, [all]);
    }
  }

  lemma ChunkKeeps(s: System, str: string, all: string)
    requires Invariant(s, all) && Enabled(s, Chunk(str))
    ensures Invariant(Next(s, Chunk(str)), all + str)
  {
    if str == "" {
      assert all + str == all;
    } else {
      assert |all + str| > 0;
      if s.reader.Reading? {
        ConcatSnoc(s.reader.got, str);
        var (r, piece) := DataHandled(s.request, str, false);
        assert piece == Some(str) && !r.buffered;
      }
    }
  }

  lemma EndKeeps(s: System, all: string)
    requires Invariant(s, all) && Enabled(s, End)
    ensures Invariant(Next(s, End), all)
  {
  }

  lemma NextKeeps(s: System, e: Event, all: string)
    requires Invariant(s, all) && Enabled(s, e)
    ensures Invariant(Next(s, e), all + Carried(e))
  {
    hide Invariant, Next, Enabled;
    assert all + "" == all;
    match e
    case Start(reader) => StartKeeps(s, reader, all);
    case Chunk(str) => ChunkKeeps(s, str, all);
    case End => EndKeeps(s, all);
  }

  lemma {:induction false} RunKeeps(s: System, run: seq<Event>, all: string)
    requires Invariant(s, all) && IsRun(s, run)
    ensures Invariant(After(s, run), all + Received(run))
    decreases |run|
  {
    hide Invariant, Next, Enabled, Carried;
    if run == [] {
      assert all + "" == all;
    } else {
      NextKeeps(s, run[0], all);
      RunKeeps(Next(s, run[0]), run[1..], all + Carried(run[0]));
      Assoc(all, Carried(run[0]), Received(run[1..]));
    }
  }

  /** Which kind of reader has begun. */
  ghost function Begun(reader: Progress): Option<Reader> {
    match reader
    case Unstarted => None
    case Reading(_) => Some(DataLoop)
    case Ended(_) => Some(DataLoop)
    case AwaitingBody => Some(BodyCall)
    case HasBody(_) => Some(BodyCall)
  }

  lemma NextHappens(s: System, e: Event)
    ensures Next(s, e).ended == (s.ended || e == End)
    ensures Begun(Next(s, e).reader) == if e.Start? then Some(e.reader) else Begun(s.reader)
  {
  }

  /** The end has come, and a reader has begun, exactly when the run says so. */
  lemma {:induction false} RunHappens(s: System, run: seq<Event>, reader: Reader)
    requires IsRun(s, run)
    ensures After(s, run).ended <==> s.ended || End in run
    ensures Begun(After(s, run).reader) == Some(reader) <==> Begun(s.reader) == Some(reader) || Start(reader) in run
    decreases |run|
  {
    hide Next;
    if run != [] {
      NextHappens(s, run[0]);
      RunHappens(Next(s, run[0]), run[1..], reader);
      if Begun(s.reader).Some? {
        NoSecondStart(s, run);
      } else if run[0].Start? {
        NoSecondStart(Next(s, run[0]), run[1..]);
      }
    }
  }

  lemma {:induction false} NoSecondStart(s: System, run: seq<Event>)
    requires IsRun(s, run) && s.reader != Unstarted
    ensures forall r :: Start(r) !in run
    decreases |run|
  {
    hide Next;
    if run != [] {
      NextHappens(s, run[0]);
      NoSecondStart(Next(s, run[0]), run[1..]);
    }
  }

  /** The end comes at most once, and no chunk after it. */
  lemma {:induction false} NothingAfterTheEnd(s: System, run: seq<Event>, i: nat, j: nat)
    requires IsRun(s, run) && i < j < |run| && (s.ended || run[i] == End)
    ensures run[j] != End && !run[j].Chunk?
    decreases |run|
  {
    hide Next;
    NextHappens(s, run[0]);
    if i == 0 && j == 1 {
      assert IsRun(Next(s, run[0]), run[1..]) && run[1..][0] == run[1];
    } else {
      NothingAfterTheEnd(Next(s, run[0]), run[1..], if i == 0 then 0 else i - 1, j - 1);
    }
  }

  // ----- a second body() ------------------------------------------------------------------

  /** A request after some chunks, and perhaps the end, with no reader yet. */
  ghost function Arrived(chunks: seq<string>, ended: bool): Request {
    if chunks == [] then (if ended then BodyHandled(FRESH).0 else FRESH)
    else
      var r := DataHandled(Arrived(chunks[..|chunks| - 1], false), chunks[|chunks| - 1], false).0;
      if ended then BodyHandled(r).0 else r
  }

  lemma {:induction false} ArrivedState(chunks: seq<string>, ended: bool)
    requires forall c :: c in chunks ==> c != ""
    ensures Arrived(chunks, ended) == FRESH.(ready := ended, buffered := Concat(chunks) != "", body := Concat(chunks))
    ensures chunks != [] ==> Concat(chunks) != ""
  {
    if chunks != [] {
      var (front, c) := (chunks[..|chunks| - 1], chunks[|chunks| - 1]);
      assert c in chunks && forall x :: x in front ==> x in chunks;
      ArrivedState(front, false);
      assert |Concat(front) + c| > 0;
    }
  }

  ghost function MoreArrived(r: Request, chunks: seq<string>): Request {
    if chunks == [] then r
    else DataHandled(MoreArrived(r, chunks[..|chunks| - 1]), chunks[|chunks| - 1], false).0
  }

  lemma {:induction false} MoreArrivedState(r: Request, before: seq<string>, chunks: seq<string>)
    requires !r.chunkMode && r.body == Concat(before) && forall c :: c in chunks ==> c != ""
    ensures var s := MoreArrived(r, chunks);
            !s.chunkMode && s.bodyCoro == r.bodyCoro && s.body == Concat(before + chunks)
  {
    if chunks == [] {
      assert before + chunks == before;
    } else {
      var (front, c) := (chunks[..|chunks| - 1], chunks[|chunks| - 1]);
      assert c in chunks && forall x :: x in front ==> x in chunks;
      MoreArrivedState(r, before, front);
      ConcatSnoc(before + front, c);
      assert before + chunks == before + front + [c];
    }
  }

  /** A second `body()` after the first has returned: it returns the same text if the first came after
      the end, and suspends for ever if the first was waiting for it. */
  lemma SecondBodyReturnsExactlyWhen(before: seq<string>, after: seq<string>, ended: bool)
    requires forall c :: c in before + after ==> c != ""
    requires ended ==> after == []
    ensures var r := BodyCalled(Arrived(before, ended)).0;
            var done := if ended then r else BodyHandled(MoreArrived(r, after)).0;
            BodyCalled(done).1 == if ended then Some(Concat(before)) else None
  {
    assert forall c :: c in before ==> c in before + after;
    ArrivedState(before, ended);
    if !ended {
      StaysUnready(BodyCalled(Arrived(before, false)).0, after);
    }
  }

  lemma {:induction false} StaysUnready(r: Request, chunks: seq<string>)
    requires !r.chunkMode && !r.ready
    ensures var s := MoreArrived(r, chunks); !s.chunkMode && !s.ready && s.bodyCoro == r.bodyCoro
  {
    if chunks != [] {
      StaysUnready(r, chunks[..|chunks| - 1]);
    }
  }
}
